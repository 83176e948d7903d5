// Moves, arithmetic and global loads outside the type discipline: what emitted code does with them, and
// exactly when that is what the interpreter does.

module Limits {
  import opened Arithmetic
  import opened Options
  import opened Mir
  import opened AbiScope
  import opened Clif
  import opened JitEmit
  import opened Typing
  import opened Fragments
  import opened Operators
  import opened Rvalues
  import opened NativeSteps

  predicate IsNumber(v: Value) {
    v.VInt? || v.VFloat?
  }

  lemma {:induction false} ExecStuck(p: Program, vt: seq<ClTy>, c1: seq<Inst>, c2: seq<Inst>, r: Regs)
    requires ExecCode(p, vt, c1, r) == None
    ensures ExecCode(p, vt, c1 + c2, r) == None
    decreases |c1|
  {
    hide Step;
    if c1 != [] && Step(p, vt, c1[0], r).Some? {
      assert (c1 + c2)[1..] == c1[1..] + c2;
      ExecStuck(p, vt, c1[1..], c2, Step(p, vt, c1[0], r).value);
    }
  }

  /** What running a definition's code leaves in the variable, if it runs at all. */
  function Defined(p: Program, f: Function, code: seq<Inst>, dest: nat, res: nat, r: Regs): Option<(MVal, Machine)> {
    match ExecCode(p, VarTypes(f), code + [DefVar(dest, res)], r)
    case Some(r1) => if dest in r1.vars then Some((r1.vars[dest], r1.m)) else None
    case None => None
  }

  lemma DefinedOne(p: Program, f: Function, n: nat, op: Op, dest: nat, r: Regs)
    requires dest < |f.types|
    ensures Defined(p, f, [Let(n, op)], dest, n, r) ==
      match EvalOp(p, op, r)
      case Some((mv, m)) => if TypeOf(mv) == ClTyOf(f.types[dest]) then Some((mv, m)) else None
      case None => None
  {
    hide EvalOp;
    ExecOne(p, VarTypes(f), Let(n, op), r);
    match EvalOp(p, op, r)
    case Some((mv, m)) =>
      ExecConcat(p, VarTypes(f), [Let(n, op)], [DefVar(dest, n)], r);
      ExecOne(p, VarTypes(f), DefVar(dest, n), r.(env := r.env[n := mv], m := m));
    case None => ExecStuck(p, VarTypes(f), [Let(n, op)], [DefVar(dest, n)], r);
  }

  /** An operand moved into a scalar variable arrives there exactly if its type is the variable's; a literal
      is moved like the constant it is. A float, a box or nothing assigned to an integer variable does not. */
  lemma ScalarMoveExactly(p: Program, f: Function, n: nat, op: Operand, dest: nat, defined: set<nat>, frame: Frame,
      r: Regs)
    requires dest < |f.types| && IsScalar(f.types[dest])
    requires VarsRel(f, defined, frame, r.vars, r.m.scope.heap) && OpIn(f, defined, op)
    ensures var frag := EmitRvalue(f, n, Use(op), f.types[dest]).value;
            var end := Defined(p, f, frag.code, dest, frag.res, r);
            && (op.Const? ==> EmitRvalue(f, n, Literal(op.lit), f.types[dest]) == Some(frag))
            && (end.Some? && Represents(r.m.scope.heap, end.value.0, EvalOperand(frame, op), f.types[dest])
                <==> OperandTy(f, op) == f.types[dest])
  {
    hide ExecCode;
    var frag := EmitRvalue(f, n, Use(op), f.types[dest]).value;
    var mv := LoadedValue(op, r);
    assert frag.code == [Let(n, frag.code[0].op)];
    DefinedOne(p, f, n, frag.code[0].op, dest, r);
    assert EvalOp(p, frag.code[0].op, r) == Some((mv, r.m));
    if op.Local? {
      assert Represents(r.m.scope.heap, mv, EvalOperand(frame, op), f.types[op.l]);
    }
  }

  // ----- arithmetic into an integer variable -----

  /** The integer a float operand is converted to; the conversion traps if there is none. */
  function Truncated(h: Host, v: Value): Option<i64>
    requires IsNumber(v)
  {
    match v
    case VInt(n) => Some(n)
    case VFloat(bits) => if h.convertible(bits) then Some(h.toInt(bits)) else None
  }

  /** What code for an integer destination computes; None is a trap. */
  function IntegerArithmetic(h: Host, op: BinOp, lval: Value, rval: Value): Option<EvalResult>
    requires IsNumber(lval) && IsNumber(rval) && IntegerRuntime(op).Some?
  {
    match (Truncated(h, lval), Truncated(h, rval))
    case (Some(a), Some(b)) => Some(FromChecked(IntegerCall(IntegerRuntime(op).value, a, b).value))
    case _ => None
  }

  lemma TruncateRuns(p: Program, vt: seq<ClTy>, n: nat, v: nat, val: Value, r: Regs) returns (r': Regs)
    requires v in r.env && v < n && IsNumber(val) && r.env[v] == Native(val)
    ensures var wide := EnsureI64(n, v, TypeOf(r.env[v]));
            && v <= wide.res < wide.next && n <= wide.next
            && match Truncated(p.host, val)
               case Some(k) => r'.m == r.m && Yields(p, vt, wide.code, r, r', n, wide.res, M64(Num(k)))
               case None => ExecCode(p, vt, wide.code, r) == None
  {
    var wide := EnsureI64(n, v, TypeOf(r.env[v]));
    r' := r;
    if val.VFloat? {
      ExecOne(p, vt, wide.code[0], r);
      if p.host.convertible(val.bits) {
        var k := p.host.toInt(val.bits);
        YieldsOne(p, vt, n, FcvtToSint(v), r, M64(Num(k)), r.m);
        r' := r.(env := r.env[n := M64(Num(k))]);
      }
    }
  }

  lemma EnsureNext(n: nat, v: nat, ty: ClTy)
    ensures n <= EnsureI64(n, v, ty).next
  {
  }

  lemma TruncateBoth(p: Program, vt: seq<ClTy>, n: nat, l: nat, lval: Value, rr: nat, rval: Value, r: Regs)
      returns (r': Regs)
    requires l in r.env && rr in r.env && l < n && rr < n && IsNumber(lval) && IsNumber(rval)
    requires r.env[l] == Native(lval) && r.env[rr] == Native(rval)
    ensures var a := EnsureI64(n, l, TypeOf(r.env[l]));
            var pair := Both(a, EnsureI64(a.next, rr, TypeOf(r.env[rr])));
            && n <= pair.next
            && if Truncated(p.host, lval).Some? && Truncated(p.host, rval).Some? then
                 && r'.m == r.m
                 && Yields(p, vt, pair.code, r, r', n, pair.b, M64(Num(Truncated(p.host, rval).value)))
                 && pair.a in r'.env && r'.env[pair.a] == M64(Num(Truncated(p.host, lval).value))
               else ExecCode(p, vt, pair.code, r) == None
  {
    hide ExecCode, EnsureI64;
    var a := EnsureI64(n, l, TypeOf(r.env[l]));
    var b := EnsureI64(a.next, rr, TypeOf(r.env[rr]));
    var r1 := TruncateRuns(p, vt, n, l, lval, r);
    r' := r1;
    EnsureNext(a.next, rr, TypeOf(r.env[rr]));
    match Truncated(p.host, lval)
    case None => ExecStuck(p, vt, a.code, b.code, r);
    case Some(x) =>
      r' := TruncateRuns(p, vt, a.next, rr, rval, r1);
      match Truncated(p.host, rval)
      case None => ExecConcat(p, vt, a.code, b.code, r);
      case Some(y) =>
        YieldsConcat(p, vt, a.code, b.code, r, r1, r', n, a.next, a.res, b.res, M64(Num(x)), M64(Num(y)));
  }

  lemma IntegerShape(n: nat, op: BinOp, l: nat, lty: ClTy, rr: nat, rty: ClTy)
    requires IntegerRuntime(op).Some?
    ensures var a := EnsureI64(n, l, lty);
            var pair := Both(a, EnsureI64(a.next, rr, rty));
            EmitBinop(n, op, l, lty, rr, rty, TInteger)
                == Some(PairThen(pair, CallRt(IntegerRuntime(op).value, [pair.a, pair.b]), I64))
  {
  }

  /** Code for an integer destination reports exactly that, whatever numbers it is given. */
  lemma IntegerDestRuns(p: Program, vt: seq<ClTy>, n: nat, op: BinOp, l: nat, lval: Value, rr: nat, rval: Value,
      r: Regs) returns (r': Regs)
    requires l in r.env && rr in r.env && l < n && rr < n && IsNumber(lval) && IsNumber(rval)
    requires r.env[l] == Native(lval) && r.env[rr] == Native(rval) && IntegerRuntime(op).Some?
    ensures EmitBinop(n, op, l, TypeOf(r.env[l]), rr, TypeOf(r.env[rr]), TInteger).Some?
    ensures var frag := EmitBinop(n, op, l, TypeOf(r.env[l]), rr, TypeOf(r.env[rr]), TInteger).value;
            && n <= frag.res < frag.next
            && match IntegerArithmetic(p.host, op, lval, rval)
               case Some(result) =>
                 && frag.res in r'.env && TypeOf(r'.env[frag.res]) == I64
                 && Yields(p, vt, frag.code, r, r', n, frag.res, r'.env[frag.res])
                 && Reports(result, r'.env[frag.res], r.m, r'.m)
               case None => ExecCode(p, vt, frag.code, r) == None
  {
    hide ExecCode, EnsureI64, EmitBinop, EnvKept, Truncated;
    var lty, rty := TypeOf(r.env[l]), TypeOf(r.env[rr]);
    IntegerShape(n, op, l, lty, rr, rty);
    var a := EnsureI64(n, l, lty);
    var pair := Both(a, EnsureI64(a.next, rr, rty));
    var call := CallRt(IntegerRuntime(op).value, [pair.a, pair.b]);
    var r1 := TruncateBoth(p, vt, n, l, lval, rr, rval, r);
    r' := r1;
    if Truncated(p.host, lval).Some? && Truncated(p.host, rval).Some? {
      var x, y := Truncated(p.host, lval).value, Truncated(p.host, rval).value;
      LookupTwo(r1.env, pair.a, pair.b);
      var checked := IntegerCall(IntegerRuntime(op).value, x, y).value;
      var (mv, m) := CheckedResult(checked, r1.m).value;
      YieldsThen(p, vt, pair.code, r, r1, n, pair.b, M64(Num(y)), pair.next, call, mv, m);
      r' := r1.(env := r1.env[pair.next := mv], m := m);
    } else {
      ExecStuck(p, vt, pair.code, [Let(pair.next, call)], r);
    }
  }

  /** An integer power outside the integers, or a float operand, changes the result, unless it is a division
      by zero that both tiers report. */
  predicate IntegersSuffice(h: Host, op: BinOp, lval: Value, rval: Value)
    requires IsNumber(lval) && IsNumber(rval)
  {
    if lval.VInt? && rval.VInt? then op == Pow ==> rval.n >= 0 || lval.n in {1, -1}
    else op in {Div, Rem} && IsZero(h, rval) && Truncated(h, lval).Some? && Truncated(h, rval) == Some(0)
  }

  lemma IntegerArithmeticExactly(h: Host, op: BinOp, lval: Value, rval: Value)
    requires IsNumber(lval) && IsNumber(rval) && IntegerRuntime(op).Some?
    ensures IntegerArithmetic(h, op, lval, rval) == Some(EvalBinary(h, op, lval, rval)) <==>
              IntegersSuffice(h, op, lval, rval)
  {
    if lval.VFloat? || rval.VFloat? {
      FloatResult(h, op, lval, rval);
    }
  }

  /** With a float operand the interpreter yields a float or reports a division by zero. */
  lemma FloatResult(h: Host, op: BinOp, lval: Value, rval: Value)
    requires IsNumber(lval) && IsNumber(rval) && (lval.VFloat? || rval.VFloat?) && IntegerRuntime(op).Some?
    ensures match EvalBinary(h, op, lval, rval)
            case Done(v) => v.VFloat? && !(op in {Div, Rem} && IsZero(h, rval))
            case Raise(code) => op in {Div, Rem} && IsZero(h, rval) && code == R2001
  {
  }

  // ----- reading a global -----

  /** A global read back at its type is the stored value exactly if the value has that type: a flexible
      module variable that the type map calls an integer may hold something else. */
  lemma GlobalLoadExactly(p: Program, f: Function, n: nat, dest: nat, g: nat, r: Regs)
    requires dest < |f.types| && g < |p.globals| && g < |r.m.globals| && f.types[dest] == p.globals[g]
    requires Ok(r.m.scope) && r.m.scope.depth > 0
    ensures var native := AbiToNative(n + 1, n, f.types[dest]);
            var end := Defined(p, f, [Let(n, LoadGlobalRaw(g))] + native.code, dest, native.res, r);
            (end.Some? && Represents(end.value.1.scope.heap, end.value.0, r.m.globals[g], f.types[dest]))
            <==> HasTy(r.m.globals[g], p.globals[g])
  {
    hide ExecCode, Ok;
    var ty, v := f.types[dest], r.m.globals[g];
    var native := AbiToNative(n + 1, n, ty);
    if HasTy(v, ty) {
      var r2 := GlobalLoaded(p, f, n, dest, g, r);
      RepresentsType(r2.m.scope.heap, r2.env[native.res], v, ty);
      var r3 := DefineAny(p, f, dest, native.res, r2);
      CodeAndDef(p, f, [Let(n, LoadGlobalRaw(g))] + native.code, dest, n, native.res, r2.env[native.res], r, r2, r3);
    } else {
      BadGlobalLoad(p, f, n, dest, g, r);
    }
  }

  lemma BadGlobalLoad(p: Program, f: Function, n: nat, dest: nat, g: nat, r: Regs)
    requires dest < |f.types| && g < |p.globals| && g < |r.m.globals| && f.types[dest] == p.globals[g]
    requires !HasTy(r.m.globals[g], p.globals[g])
    ensures var native := AbiToNative(n + 1, n, f.types[dest]);
            var end := Defined(p, f, [Let(n, LoadGlobalRaw(g))] + native.code, dest, native.res, r);
            end == if f.types[dest] in {TFloat, TBoolean} then None
                   else Some((M64(Ptr(r.m.scope.next)), r.m.(scope := Register(r.m.scope, r.m.globals[g]))))
  {
    hide ExecCode, Register;
    var vt, ty, v := VarTypes(f), f.types[dest], r.m.globals[g];
    var load := [Let(n, LoadGlobalRaw(g))];
    var native := AbiToNative(n + 1, n, ty);
    var mv, m := M64(Ptr(r.m.scope.next)), r.m.(scope := Register(r.m.scope, v));
    assert EvalOp(p, LoadGlobalRaw(g), r) == Some((mv, m));
    if ty in {TFloat, TBoolean} {
      var r1 := r.(env := r.env[n := mv], m := m);
      ExecOne(p, vt, load[0], r);
      ExecOne(p, vt, native.code[0], r1);
      ExecConcat(p, vt, load, native.code, r);
      ExecStuck(p, vt, load + native.code, [DefVar(dest, native.res)], r);
    } else {
      assert load + native.code == load;
      DefinedOne(p, f, n, LoadGlobalRaw(g), dest, r);
    }
  }
}
