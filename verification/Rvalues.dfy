// A whole right-hand side: operands loaded, operator applied, result left for the destination.

module Rvalues {
  import opened Arithmetic
  import opened Options
  import opened Mir
  import opened AbiScope
  import opened Clif
  import opened JitEmit
  import opened Typing
  import opened Fragments
  import opened Operators

  /** The fragment reports the interpreter's verdict at the destination's type. */
  ghost predicate Delivers(p: Program, vt: seq<ClTy>, frag: Frag, r: Regs, r': Regs, n: nat, result: EvalResult,
      ty: MirTy) {
    && n <= frag.res < frag.next && frag.res in r'.env
    && TypeOf(r'.env[frag.res]) == ClTyOf(ty)
    && Yields(p, vt, frag.code, r, r', n, frag.res, r'.env[frag.res])
    && ScopeGrows(r.m.scope, r'.m.scope)
    && match result
       case Done(v) =>
         Represents(r'.m.scope.heap, r'.env[frag.res], v, ty) && r'.m == r.m.(scope := r'.m.scope)
       case Raise(code) =>
         r'.env[frag.res] == ZeroOf(ClTyOf(ty)) && r'.m == r.m.(scope := r'.m.scope, exc := Some(Coded(code)))
  }

  /** The destination types a well-typed operator can have for these operand values. */
  predicate DestFor(op: BinOp, lval: Value, rval: Value, ty: MirTy) {
    if IsComparison(op) || op in {And, Or} then ty == TBoolean
    else if lval.VInt? && rval.VInt? then
      match op
      case BitXor => ty == TInteger
      case Pow => Boxed(ty) || (ty == TInteger && (rval.n >= 0 || lval.n in {1, -1})) || ty == TFloat
      case _ => Boxed(ty) || ty == TInteger
    else Boxed(ty) || ty == TFloat
  }

  lemma NothingToCoerce(n: nat, l: nat, lty: ClTy, rr: nat, rty: ClTy, ty: MirTy)
    requires ty == TBoolean || (ty == TInteger && lty == I64 && rty == I64)
    ensures var a := CoerceToDest(n, l, lty, ty);
            Both(a, CoerceToDest(a.next, rr, rty, ty)) == Pair([], n, l, rr)
  {
  }

  /** Outside floating point the operands reach the operation unconverted. */
  lemma BinopShape(n: nat, op: BinOp, l: nat, lty: ClTy, rr: nat, rty: ClTy, ty: MirTy)
    requires ty == TBoolean || (ty == TInteger && lty == I64 && rty == I64)
    ensures IsComparison(op) && ty == TBoolean ==>
              EmitBinop(n, op, l, lty, rr, rty, ty) == Some(EmitCompare(n, CmpOf(op), l, lty, rr, rty))
    ensures op in {And, Or} && ty == TBoolean ==>
              EmitBinop(n, op, l, lty, rr, rty, ty) == Some(EmitLogic(n, op, l, lty, rr, rty))
    ensures ty == TInteger && op == BitXor ==> EmitBinop(n, op, l, lty, rr, rty, ty) == Some(One(n, Bxor(l, rr), I64))
    ensures ty == TInteger && IntegerRuntime(op).Some? ==>
              EmitBinop(n, op, l, lty, rr, rty, ty) == Some(One(n, CallRt(IntegerRuntime(op).value, [l, rr]), I64))
  {
    NothingToCoerce(n, l, lty, rr, rty, ty);
    assert forall code: seq<Inst> :: [] + code == code;
  }

  lemma ScopeGrowsSelf(s: Scope)
    requires Ok(s) && s.depth > 0
    ensures ScopeGrows(s, s)
  {
  }

  lemma FlagDelivers(p: Program, vt: seq<ClTy>, frag: Frag, r: Regs, r': Regs, n: nat, flag: bool)
    requires FlagFragment(p, vt, frag, r, r', n, flag) && Ok(r.m.scope) && r.m.scope.depth > 0
    ensures Delivers(p, vt, frag, r, r', n, Done(VBool(flag)), TBoolean)
  {
  }

  lemma ReportDelivers(p: Program, vt: seq<ClTy>, frag: Frag, r: Regs, r': Regs, n: nat, result: EvalResult, ty: MirTy)
    requires n <= frag.res < frag.next && frag.res in r'.env && TypeOf(r'.env[frag.res]) == ClTyOf(ty)
    requires Yields(p, vt, frag.code, r, r', n, frag.res, r'.env[frag.res])
    requires Reports(result, r'.env[frag.res], r.m, r'.m) && (result.Done? ==> HasTy(result.v, ty) && IsScalar(ty))
    requires Ok(r.m.scope) && r.m.scope.depth > 0
    ensures Delivers(p, vt, frag, r, r', n, result, ty)
  {
  }

  lemma XorRuns(p: Program, vt: seq<ClTy>, n: nat, l: nat, a: i64, rr: nat, b: i64, r: Regs) returns (r': Regs)
    requires l in r.env && rr in r.env && l < n && rr < n
    requires r.env[l] == M64(Num(a)) && r.env[rr] == M64(Num(b))
    requires Ok(r.m.scope) && r.m.scope.depth > 0
    ensures Delivers(p, vt, One(n, Bxor(l, rr), I64), r, r', n, Done(VInt(Xor64(a, b))), TInteger)
  {
    ScopeGrowsSelf(r.m.scope);
    var mv := M64(Num(Xor64(a, b)));
    YieldsOne(p, vt, n, Bxor(l, rr), r, mv, r.m);
    r' := r.(env := r.env[n := mv]);
  }

  lemma IntegerVerdict(h: Host, op: BinOp, a: i64, b: i64)
    requires DestFor(op, VInt(a), VInt(b), TInteger)
    ensures op == BitXor || IntegerRuntime(op).Some?
    ensures op == BitXor ==> EvalBinary(h, op, VInt(a), VInt(b)) == Done(VInt(Xor64(a, b)))
    ensures op == Pow ==> b >= 0 || a in {1, -1}
    ensures EvalBinary(h, op, VInt(a), VInt(b)).Done? ==> EvalBinary(h, op, VInt(a), VInt(b)).v.VInt?
  {
  }

  lemma IntegerBinopRuns(p: Program, vt: seq<ClTy>, n: nat, op: BinOp, l: nat, a: i64, rr: nat, b: i64, r: Regs)
      returns (r': Regs)
    requires l in r.env && rr in r.env && l < n && rr < n
    requires DestFor(op, VInt(a), VInt(b), TInteger)
    requires r.env[l] == M64(Num(a)) && r.env[rr] == M64(Num(b))
    requires Ok(r.m.scope) && r.m.scope.depth > 0
    ensures EmitBinop(n, op, l, I64, rr, I64, TInteger).Some?
    ensures Delivers(p, vt, EmitBinop(n, op, l, I64, rr, I64, TInteger).value, r, r', n,
                     EvalBinary(p.host, op, VInt(a), VInt(b)), TInteger)
  {
    BinopShape(n, op, l, I64, rr, I64, TInteger);
    IntegerVerdict(p.host, op, a, b);
    if op == BitXor {
      r' := XorRuns(p, vt, n, l, a, rr, b, r);
    } else {
      r' := IntegerRuns(p, vt, n, op, l, a, rr, b, r);
      ReportDelivers(p, vt, One(n, CallRt(IntegerRuntime(op).value, [l, rr]), I64), r, r', n,
                     EvalBinary(p.host, op, VInt(a), VInt(b)), TInteger);
    }
  }

  lemma BinopRuns(p: Program, vt: seq<ClTy>, n: nat, op: BinOp, l: nat, lval: Value, lk: Kind, rr: nat, rval: Value,
      rk: Kind, ty: MirTy, r: Regs) returns (r': Regs)
    requires l in r.env && rr in r.env && l < n && rr < n && HostOk(p.host)
    requires IsKind(lval, lk) && IsKind(rval, rk) && ValidKinds(op, lk, rk) && DestFor(op, lval, rval, ty)
    requires r.env[l] == Native(lval) && r.env[rr] == Native(rval)
    requires Ok(r.m.scope) && r.m.scope.depth > 0
    requires EmitBinop(n, op, l, TypeOf(r.env[l]), rr, TypeOf(r.env[rr]), ty).Some?
    ensures Delivers(p, vt, EmitBinop(n, op, l, TypeOf(r.env[l]), rr, TypeOf(r.env[rr]), ty).value, r, r', n,
                     EvalBinary(p.host, op, lval, rval), ty)
  {
    hide ExecCode, Delivers, EmitCompare, EmitLogic, EvalBinary, Ok, EnvKept;
    var lty, rty := TypeOf(r.env[l]), TypeOf(r.env[rr]);
    if ty == TBoolean {
      BinopShape(n, op, l, lty, rr, rty, ty);
      var flag;
      if IsComparison(op) {
        r', flag := CompareRuns(p, vt, n, op, l, lval, lk, rr, rval, rk, r);
        FlagDelivers(p, vt, EmitCompare(n, CmpOf(op), l, lty, rr, rty), r, r', n, flag);
      } else {
        r', flag := LogicRuns(p, vt, n, op, l, lval, rr, rval, r);
        FlagDelivers(p, vt, EmitLogic(n, op, l, lty, rr, rty), r, r', n, flag);
      }
    } else if ty == TInteger {
      r' := IntegerBinopRuns(p, vt, n, op, l, lval.n, rr, rval.n, r);
    } else {
      assert ty == TFloat;
      r' := FloatBinopRuns(p, vt, n, op, l, lval, rr, rval, r);
    }
  }

  lemma FloatVerdict(h: Host, op: BinOp, lval: Value, rval: Value)
    requires DestFor(op, lval, rval, TFloat) && (FloatInstruction(op).Some? || op == Div)
    requires (lval.VFloat? && (rval.VInt? || rval.VFloat?)) || (lval.VInt? && rval.VFloat?)
    ensures EvalBinary(h, op, lval, rval).Done? ==> EvalBinary(h, op, lval, rval).v.VFloat?
  {
  }

  lemma FloatBinopRuns(p: Program, vt: seq<ClTy>, n: nat, op: BinOp, l: nat, lval: Value, rr: nat, rval: Value,
      r: Regs) returns (r': Regs)
    requires l in r.env && rr in r.env && l < n && rr < n && HostOk(p.host)
    requires (lval.VFloat? && (rval.VInt? || rval.VFloat?)) || (lval.VInt? && rval.VFloat?)
    requires DestFor(op, lval, rval, TFloat) && (FloatInstruction(op).Some? || op == Div)
    requires r.env[l] == Native(lval) && r.env[rr] == Native(rval)
    requires Ok(r.m.scope) && r.m.scope.depth > 0
    requires EmitBinop(n, op, l, TypeOf(r.env[l]), rr, TypeOf(r.env[rr]), TFloat).Some?
    ensures Delivers(p, vt, EmitBinop(n, op, l, TypeOf(r.env[l]), rr, TypeOf(r.env[rr]), TFloat).value, r, r', n,
                     EvalBinary(p.host, op, lval, rval), TFloat)
  {
    hide ExecCode, EmitBinop, EvalBinary, Ok, Delivers, Yields;
    FloatVerdict(p.host, op, lval, rval);
    FloatArithmeticExactly(p.host, op, lval, rval);
    r' := FloatRuns(p, vt, n, op, l, lval, rr, rval, r);
    ReportDelivers(p, vt, EmitBinop(n, op, l, TypeOf(r.env[l]), rr, TypeOf(r.env[rr]), TFloat).value, r, r', n,
                   EvalBinary(p.host, op, lval, rval), TFloat);
  }

  /** A well-typed operand of scalar kind is loaded as that kind of number. */
  lemma KindLoaded(f: Function, op: Operand, defined: set<nat>, frame: Frame, r: Regs)
    requires VarsRel(f, defined, frame, r.vars, r.m.scope.heap) && OpIn(f, defined, op)
    requires ScalarKind(f, op).Some?
    ensures var v := EvalOperand(frame, op);
            && IsKind(v, ScalarKind(f, op).value) && LoadedValue(op, r) == Native(v)
            && TypeOf(LoadedValue(op, r)) == LoadOperand(f, 0, op).ty
  {
  }

  lemma DestForTyped(f: Function, op: BinOp, lhs: Operand, rhs: Operand, frame: Frame, ty: MirTy)
    requires BinaryTyped(f, op, lhs, rhs, ty)
    requires ScalarKind(f, lhs).Some? && ScalarKind(f, rhs).Some?
    requires ValidKinds(op, ScalarKind(f, lhs).value, ScalarKind(f, rhs).value)
    requires IsKind(EvalOperand(frame, lhs), ScalarKind(f, lhs).value)
    requires IsKind(EvalOperand(frame, rhs), ScalarKind(f, rhs).value)
    ensures DestFor(op, EvalOperand(frame, lhs), EvalOperand(frame, rhs), ty)
  {
  }

  lemma ConcatDelivers(p: Program, vt: seq<ClTy>, pre: seq<Inst>, frag: Frag, r: Regs, r1: Regs, r': Regs, n: nat,
      k: nat, a: nat, mv: MVal, result: EvalResult, ty: MirTy)
    requires Yields(p, vt, pre, r, r1, n, a, mv) && r1.m == r.m && n <= k && a < k
    requires Delivers(p, vt, frag, r1, r', k, result, ty)
    ensures Delivers(p, vt, frag.(code := pre + frag.code), r, r', n, result, ty)
  {
    YieldsConcat(p, vt, pre, frag.code, r, r1, r', n, k, a, frag.res, mv, r'.env[frag.res]);
  }

  /** Both operands of a binary operator, loaded left to right. */
  lemma LoadBoth(p: Program, f: Function, vt: seq<ClTy>, n: nat, lhs: Operand, rhs: Operand, defined: set<nat>,
      frame: Frame, r: Regs) returns (r': Regs)
    requires VarsRel(f, defined, frame, r.vars, r.m.scope.heap)
    requires OpIn(f, defined, lhs) && OpIn(f, defined, rhs)
    requires ScalarKind(f, lhs).Some? && ScalarKind(f, rhs).Some?
    ensures r'.m == r.m && n in r'.env && n + 1 in r'.env
    ensures IsKind(EvalOperand(frame, lhs), ScalarKind(f, lhs).value) &&
        IsKind(EvalOperand(frame, rhs), ScalarKind(f, rhs).value)
    ensures r'.env[n] == Native(EvalOperand(frame, lhs)) && r'.env[n + 1] == Native(EvalOperand(frame, rhs))
    ensures TypeOf(r'.env[n]) == LoadOperand(f, n, lhs).ty && TypeOf(r'.env[n + 1]) == LoadOperand(f, n + 1, rhs).ty
    ensures Yields(p, vt, LoadOperand(f, n, lhs).code + LoadOperand(f, n + 1, rhs).code, r, r', n, n + 1, r'.env[n + 1])
  {
    hide ExecCode;
    LoadRuns(p, f, vt, n, lhs, defined, frame, r);
    KindLoaded(f, lhs, defined, frame, r);
    var r1 := r.(env := r.env[n := LoadedValue(lhs, r)]);
    LoadRuns(p, f, vt, n + 1, rhs, defined, frame, r1);
    KindLoaded(f, rhs, defined, frame, r1);
    r' := r1.(env := r1.env[n + 1 := LoadedValue(rhs, r1)]);
    YieldsConcat(p, vt, LoadOperand(f, n, lhs).code, LoadOperand(f, n + 1, rhs).code, r, r1, r', n, n + 1, n, n + 1,
                 LoadedValue(lhs, r), LoadedValue(rhs, r1));
  }

  lemma BinaryShape(f: Function, n: nat, op: BinOp, lhs: Operand, rhs: Operand, ty: MirTy) returns (frag: Frag)
    requires EmitBinary(f, n, op, lhs, rhs, ty).Some?
    ensures EmitBinop(n + 2, op, n, LoadOperand(f, n, lhs).ty, n + 1, LoadOperand(f, n + 1, rhs).ty, ty) == Some(frag)
    ensures EmitBinary(f, n, op, lhs, rhs, ty).value
         == frag.(code := LoadOperand(f, n, lhs).code + LoadOperand(f, n + 1, rhs).code + frag.code)
  {
    hide EmitBinop, ValidKinds;
    var l, rl := LoadOperand(f, n, lhs), LoadOperand(f, n + 1, rhs);
    assert l.next == n + 1 && l.res == n && rl.next == n + 2 && rl.res == n + 1;
    frag := EmitBinop(n + 2, op, n, l.ty, n + 1, rl.ty, ty).value;
  }

  lemma BinaryRuns(p: Program, f: Function, vt: seq<ClTy>, n: nat, op: BinOp, lhs: Operand, rhs: Operand, ty: MirTy,
      defined: set<nat>, frame: Frame, r: Regs) returns (r': Regs)
    requires HostOk(p.host) && Ok(r.m.scope) && r.m.scope.depth > 0
    requires VarsRel(f, defined, frame, r.vars, r.m.scope.heap)
    requires OpIn(f, defined, lhs) && OpIn(f, defined, rhs) && BinaryTyped(f, op, lhs, rhs, ty)
    requires EmitBinary(f, n, op, lhs, rhs, ty).Some?
    ensures Delivers(p, vt, EmitBinary(f, n, op, lhs, rhs, ty).value, r, r', n,
                     EvalBinary(p.host, op, EvalOperand(frame, lhs), EvalOperand(frame, rhs)), ty)
  {
    hide ExecCode, Delivers, EmitBinop, EvalBinary, Ok, VarsRel;
    var frag := BinaryShape(f, n, op, lhs, rhs, ty);
    var r2 := LoadBoth(p, f, vt, n, lhs, rhs, defined, frame, r);
    var a, b := EvalOperand(frame, lhs), EvalOperand(frame, rhs);
    DestForTyped(f, op, lhs, rhs, frame, ty);
    r' := BinopRuns(p, vt, n + 2, op, n, a, ScalarKind(f, lhs).value, n + 1, b, ScalarKind(f, rhs).value, ty, r2);
    ConcatDelivers(p, vt, LoadOperand(f, n, lhs).code + LoadOperand(f, n + 1, rhs).code, frag, r, r2, r', n, n + 2,
        n + 1,
                   r2.env[n + 1], EvalBinary(p.host, op, a, b), ty);
  }

  /** Boolean negation of a boxed operand goes through the runtime and may leave a type error. */
  lemma BoxedNotRuns(p: Program, f: Function, vt: seq<ClTy>, n: nat, x: Operand, defined: set<nat>, frame: Frame,
      r: Regs) returns (r': Regs)
    requires Ok(r.m.scope) && r.m.scope.depth > 0
    requires VarsRel(f, defined, frame, r.vars, r.m.scope.heap) && OpIn(f, defined, x)
    ensures var boxed := BoxOperand(f, n, x);
            Delivers(p, vt, Then(boxed, CallRt(NotBool, [boxed.res]), I8), r, r', n,
                     EvalUnary(p.host, Not, EvalOperand(frame, x)), TBoolean)
  {
    hide ExecCode, Ok;
    var boxed := BoxOperand(f, n, x);
    var r1 := BoxOperandRuns(p, f, vt, n, x, defined, frame, r);
    assert Lookup(r1.env, [boxed.res]).value == [r1.env[boxed.res]] by {
      assert forall i :: 0 <= i < 1 ==> [boxed.res][i] in r1.env;
    }
    var (mv, m) := CallRuntime1(p.host, NotBool, r1.env[boxed.res], r1.m).value;
    YieldsThen(p, vt, boxed.code, r, r1, n, boxed.res, r1.env[boxed.res], boxed.next, CallRt(NotBool, [boxed.res]),
        mv, m);
    r' := r1.(env := r1.env[boxed.next := mv], m := m);
  }

  lemma NotRuns(p: Program, vt: seq<ClTy>, n: nat, v: nat, b: bool, r: Regs) returns (r': Regs)
    requires v in r.env && v < n && r.env[v] == Native(VBool(b)) && Ok(r.m.scope) && r.m.scope.depth > 0
    ensures Delivers(p, vt, EmitUnop(n, Not, v, I8).value, r, r', n, Done(VBool(!b)), TBoolean)
  {
    hide ExecCode, Ok;
    var wide := EnsureI64(n, v, I8);
    var r1 := EnsureI64Runs(p, vt, n, v, VBool(b), r);
    YieldsThen(p, vt, wide.code, r, r1, n, n, M64(Num(Wide(VBool(b)))), n + 1, Iconst(I64, 0), M64(Num(0)), r1.m);
    var r2 := r1.(env := r1.env[n + 1 := M64(Num(0))]);
    var zero := Then(wide, Iconst(I64, 0), I64);
    var mv := M8(if b then 0 else 1);
    YieldsThen(p, vt, zero.code, r, r2, n, n + 1, M64(Num(0)), n + 2, Icmp(CEq, n, n + 1), mv, r2.m);
    r' := r2.(env := r2.env[n + 2 := mv]);
    ScopeGrowsSelf(r.m.scope);
  }

  lemma NegRuns(p: Program, vt: seq<ClTy>, n: nat, v: nat, val: Value, r: Regs) returns (r': Regs)
    requires v in r.env && v < n && (val.VInt? || val.VFloat?) && r.env[v] == Native(val)
    requires Ok(r.m.scope) && r.m.scope.depth > 0
    ensures Delivers(p, vt, EmitUnop(n, Neg, v, TypeOf(r.env[v])).value, r, r', n,
                     EvalUnary(p.host, Neg, val), if val.VInt? then TInteger else TFloat)
  {
    hide ExecCode, Ok;
    ScopeGrowsSelf(r.m.scope);
    if val.VFloat? {
      var mv := MF(p.host.negate(val.bits));
      YieldsOne(p, vt, n, FNeg(v), r, mv, r.m);
      r' := r.(env := r.env[n := mv]);
    } else {
      assert Lookup(r.env, [v]).value == [r.env[v]] by {
        assert forall i :: 0 <= i < 1 ==> [v][i] in r.env;
      }
      var (mv, m) := CheckedResult(Fit(0 - val.n), r.m).value;
      YieldsOne(p, vt, n, CallRt(IntNeg, [v]), r, mv, m);
      r' := r.(env := r.env[n := mv], m := m);
    }
  }

  lemma UnaryRuns(p: Program, f: Function, vt: seq<ClTy>, n: nat, op: UnOp, x: Operand, ty: MirTy, defined: set<nat>,
      frame: Frame, r: Regs) returns (r': Regs)
    requires Ok(r.m.scope) && r.m.scope.depth > 0
    requires VarsRel(f, defined, frame, r.vars, r.m.scope.heap)
    requires OpIn(f, defined, x) && RvalueTyped(f, Rvalue.Unary(op, x), ty)
    requires EmitUnary(f, n, op, x).Some?
    ensures Delivers(p, vt, EmitUnary(f, n, op, x).value, r, r', n,
                     EvalUnary(p.host, op, EvalOperand(frame, x)), ty)
  {
    hide ExecCode, Delivers, BoxOperand;
    var xt := JitOperandType(f, x);
    if op == Not && xt.Some? && !IsScalar(xt.value) {
      r' := BoxedNotRuns(p, f, vt, n, x, defined, frame, r);
    } else {
      LoadRuns(p, f, vt, n, x, defined, frame, r);
      KindLoaded(f, x, defined, frame, r);
      var load := LoadOperand(f, n, x);
      var mv, v := LoadedValue(x, r), EvalOperand(frame, x);
      var r1 := r.(env := r.env[n := mv]);
      if op == Not {
        r' := NotRuns(p, vt, n + 1, n, v.b, r1);
      } else {
        r' := NegRuns(p, vt, n + 1, n, v, r1);
      }
      ConcatDelivers(p, vt, load.code, EmitUnop(n + 1, op, n, load.ty).value, r, r1, r', n, n + 1, n, mv,
                     EvalUnary(p.host, op, v), ty);
    }
  }

  lemma MoveRuns(p: Program, f: Function, vt: seq<ClTy>, n: nat, op: Operand, ty: MirTy, defined: set<nat>,
      frame: Frame, r: Regs) returns (r': Regs)
    requires Ok(r.m.scope) && r.m.scope.depth > 0
    requires VarsRel(f, defined, frame, r.vars, r.m.scope.heap)
    requires OpIn(f, defined, op) && Fits(OperandTy(f, op), ty)
    ensures Delivers(p, vt, if IsScalar(ty) then LoadOperand(f, n, op) else BoxOperand(f, n, op), r, r', n,
                     Done(EvalOperand(frame, op)), ty)
  {
    hide ExecCode, Ok;
    if IsScalar(ty) {
      LoadRuns(p, f, vt, n, op, defined, frame, r);
      r' := r.(env := r.env[n := LoadedValue(op, r)]);
      ScopeGrowsSelf(r.m.scope);
    } else {
      VarsFrameOk(f, defined, frame, r.vars, r.m.scope.heap);
      OperandHasTy(f, defined, frame, op);
      r' := BoxOperandRuns(p, f, vt, n, op, defined, frame, r);
    }
  }

  /** Every emitted right-hand side delivers exactly what the interpreter computes. */
  lemma RvalueRuns(p: Program, f: Function, vt: seq<ClTy>, n: nat, rhs: Rvalue, ty: MirTy, defined: set<nat>,
      frame: Frame, r: Regs) returns (r': Regs)
    requires HostOk(p.host) && Ok(r.m.scope) && r.m.scope.depth > 0
    requires VarsRel(f, defined, frame, r.vars, r.m.scope.heap)
    requires RvalueIn(f, defined, rhs) && RvalueTyped(f, rhs, ty)
    requires EmitRvalue(f, n, rhs, ty).Some?
    ensures Delivers(p, vt, EmitRvalue(f, n, rhs, ty).value, r, r', n, EvalRvalue(p.host, frame, rhs), ty)
    ensures EvalRvalue(p.host, frame, rhs).Raise? ==> MayFail(rhs)
  {
    hide ExecCode, Ok, VarsRel, Delivers, EmitBinary, EmitUnary, EvalBinary;
    match rhs
    case Binary(op, lhs, rhs) => r' := BinaryRuns(p, f, vt, n, op, lhs, rhs, ty, defined, frame, r);
    case Unary(op, x) => r' := UnaryRuns(p, f, vt, n, op, x, ty, defined, frame, r);
    case Use(op) => r' := MoveRuns(p, f, vt, n, op, ty, defined, frame, r);
    case Literal(lit) =>
      r' := MoveRuns(p, f, vt, n, Const(lit), ty, defined, frame, r);
      assert IsScalar(ty) ==> LoadLit(n, lit) == LoadOperand(f, n, Const(lit));
  }
}
