// Emitted operators agree with the interpreter's: same value, or the same error left pending.

module Operators {
  import opened Arithmetic
  import opened Options
  import opened Mir
  import opened AbiScope
  import opened Clif
  import opened JitEmit
  import opened Typing
  import opened Fragments

  /** The machine form of a number or Boolean. */
  function Native(v: Value): MVal
    requires v.VInt? || v.VFloat? || v.VBool?
  {
    match v
    case VInt(n) => M64(Num(n))
    case VFloat(bits) => MF(bits)
    case VBool(b) => M8(if b then 1 else 0)
  }

  predicate IsKind(v: Value, kind: Kind) {
    match kind
    case KInteger => v.VInt?
    case KFloat => v.VFloat?
    case KBoolean => v.VBool?
  }

  function Wide(v: Value): i64
    requires v.VInt? || v.VBool?
  {
    match v
    case VInt(n) => n
    case VBool(b) => if b then 1 else 0
  }

  function AsFloat(h: Host, v: Value): i64
    requires v.VInt? || v.VFloat?
  {
    match v
    case VInt(n) => h.fromInt(n)
    case VFloat(bits) => bits
  }

  lemma EnsureI64Runs(p: Program, vt: seq<ClTy>, n: nat, v: nat, val: Value, r: Regs) returns (r': Regs)
    requires v in r.env && v < n && (val.VInt? || val.VBool?) && r.env[v] == Native(val)
    ensures var wide := EnsureI64(n, v, TypeOf(r.env[v]));
            && v <= wide.res < wide.next && n <= wide.next && r'.m == r.m
            && Yields(p, vt, wide.code, r, r', n, wide.res, M64(Num(Wide(val))))
  {
    var wide := EnsureI64(n, v, TypeOf(r.env[v]));
    if wide.code == [] {
      r' := r;
    } else {
      YieldsOne(p, vt, n, wide.code[0].op, r, M64(Num(Wide(val))), r.m);
      r' := r.(env := r.env[n := M64(Num(Wide(val)))]);
    }
  }

  lemma EnsureF64Runs(p: Program, vt: seq<ClTy>, n: nat, v: nat, val: Value, r: Regs) returns (r': Regs)
    requires v in r.env && v < n && (val.VInt? || val.VFloat?) && r.env[v] == Native(val)
    ensures var wide := EnsureF64(n, v, TypeOf(r.env[v]));
            && v <= wide.res < wide.next && n <= wide.next && r'.m == r.m
            && Yields(p, vt, wide.code, r, r', n, wide.res, MF(AsFloat(p.host, val)))
  {
    var wide := EnsureF64(n, v, TypeOf(r.env[v]));
    if wide.code == [] {
      r' := r;
    } else {
      YieldsOne(p, vt, n, wide.code[0].op, r, MF(AsFloat(p.host, val)), r.m);
      r' := r.(env := r.env[n := MF(AsFloat(p.host, val))]);
    }
  }

  /** Two operands widened to 64-bit integers, one after the other. */
  lemma WidenBoth(p: Program, vt: seq<ClTy>, n: nat, l: nat, lval: Value, rr: nat, rval: Value, r: Regs)
      returns (r': Regs)
    requires l in r.env && rr in r.env && l < n && rr < n
    requires (lval.VInt? || lval.VBool?) && (rval.VInt? || rval.VBool?)
    requires r.env[l] == Native(lval) && r.env[rr] == Native(rval)
    ensures var a := EnsureI64(n, l, TypeOf(r.env[l]));
            var pair := Both(a, EnsureI64(a.next, rr, TypeOf(r.env[rr])));
            && n <= pair.next && pair.a < pair.next && r'.m == r.m
            && Yields(p, vt, pair.code, r, r', n, pair.b, M64(Num(Wide(rval))))
            && pair.a in r'.env && r'.env[pair.a] == M64(Num(Wide(lval)))
  {
    hide ExecCode;
    var a := EnsureI64(n, l, TypeOf(r.env[l]));
    var r1 := EnsureI64Runs(p, vt, n, l, lval, r);
    r' := EnsureI64Runs(p, vt, a.next, rr, rval, r1);
    var b := EnsureI64(a.next, rr, TypeOf(r.env[rr]));
    YieldsConcat(p, vt, a.code, b.code, r, r1, r', n, a.next, a.res, b.res, M64(Num(Wide(lval))), M64(Num(Wide(rval))));
  }

  /** Two operands converted to floats, one after the other. */
  lemma FloatBoth(p: Program, vt: seq<ClTy>, n: nat, l: nat, lval: Value, rr: nat, rval: Value, r: Regs)
      returns (r': Regs)
    requires l in r.env && rr in r.env && l < n && rr < n
    requires (lval.VInt? || lval.VFloat?) && (rval.VInt? || rval.VFloat?)
    requires r.env[l] == Native(lval) && r.env[rr] == Native(rval)
    ensures var a := EnsureF64(n, l, TypeOf(r.env[l]));
            var pair := Both(a, EnsureF64(a.next, rr, TypeOf(r.env[rr])));
            && n <= pair.next && pair.a < pair.next && r'.m == r.m
            && Yields(p, vt, pair.code, r, r', n, pair.b, MF(AsFloat(p.host, rval)))
            && pair.a in r'.env && r'.env[pair.a] == MF(AsFloat(p.host, lval))
  {
    hide ExecCode;
    var a := EnsureF64(n, l, TypeOf(r.env[l]));
    var r1 := EnsureF64Runs(p, vt, n, l, lval, r);
    r' := EnsureF64Runs(p, vt, a.next, rr, rval, r1);
    var b := EnsureF64(a.next, rr, TypeOf(r.env[rr]));
    YieldsConcat(p, vt, a.code, b.code, r, r1, r', n, a.next, a.res, b.res, MF(AsFloat(p.host, lval)),
        MF(AsFloat(p.host, rval)));
  }

  lemma BitwiseLogic(a: bool, b: bool)
    ensures var x: i64 := if a then 1 else 0; var y: i64 := if b then 1 else 0;
            && And64(x, y) == (if a && b then 1 else 0)
            && Or64(x, y) == (if a || b then 1 else 0)
  {
    assert ToWord(0) == 0 && ToWord(1) == 1;
    assert FromWord(0) == 0 && FromWord(1) == 1;
    assert (0 as bv64) & 0 == 0 && (0 as bv64) & 1 == 0 && (1 as bv64) & 0 == 0 && (1 as bv64) & 1 == 1;
    assert (0 as bv64) | 0 == 0 && (0 as bv64) | 1 == 1 && (1 as bv64) | 0 == 1 && (1 as bv64) | 1 == 1;
  }

  /** How a fragment reports the interpreter's verdict: the value itself, or zero and a pending error. */
  ghost predicate Reports(result: EvalResult, mv: MVal, m: Machine, m': Machine) {
    match result
    case Done(v) => (v.VInt? || v.VFloat? || v.VBool?) && mv == Native(v) && m' == m
    case Raise(code) => mv == ZeroOf(TypeOf(mv)) && m' == m.(exc := Some(Coded(code)))
  }

  lemma LookupTwo(env: map<nat, MVal>, a: nat, b: nat)
    requires a in env && b in env
    ensures Lookup(env, [a, b]) == Some([env[a], env[b]])
  {
    var ids := [a, b];
    assert ids[0] in env && ids[1] in env;
    assert Lookup(env, ids).value == [env[a], env[b]];
  }

  /** The interpreter's comparison, read off the widened operands. */
  lemma ComparisonVerdict(h: Host, op: BinOp, lval: Value, lk: Kind, rval: Value, rk: Kind)
    requires IsKind(lval, lk) && IsKind(rval, rk) && IsComparison(op) && ValidKinds(op, lk, rk)
    ensures EvalBinary(h, op, lval, rval) == Done(VBool(
      if lval.VFloat? || rval.VFloat? then h.compare(CmpOf(op), AsFloat(h, lval), AsFloat(h, rval))
      else IntCompare(CmpOf(op), Wide(lval), Wide(rval))))
  {
  }

  ghost predicate FlagFragment(p: Program, vt: seq<ClTy>, frag: Frag, r: Regs, r': Regs, n: nat, flag: bool) {
    && n <= frag.res < frag.next && frag.ty == I8 && r'.m == r.m
    && Yields(p, vt, frag.code, r, r', n, frag.res, M8(if flag then 1 else 0))
  }

  lemma FloatCompareRuns(p: Program, vt: seq<ClTy>, n: nat, c: Cmp, l: nat, lval: Value, rr: nat, rval: Value,
      r: Regs) returns (r': Regs)
    requires l in r.env && rr in r.env && l < n && rr < n
    requires (lval.VInt? || lval.VFloat?) && (rval.VInt? || rval.VFloat?) && (lval.VFloat? || rval.VFloat?)
    requires r.env[l] == Native(lval) && r.env[rr] == Native(rval)
    ensures FlagFragment(p, vt, EmitCompare(n, c, l, TypeOf(r.env[l]), rr, TypeOf(r.env[rr])), r, r', n,
                         p.host.compare(c, AsFloat(p.host, lval), AsFloat(p.host, rval)))
  {
    hide ExecCode, EnsureF64;
    var a := EnsureF64(n, l, TypeOf(r.env[l]));
    var pair := Both(a, EnsureF64(a.next, rr, TypeOf(r.env[rr])));
    var r1 := FloatBoth(p, vt, n, l, lval, rr, rval, r);
    var mv := M8(if p.host.compare(c, AsFloat(p.host, lval), AsFloat(p.host, rval)) then 1 else 0);
    YieldsThen(p, vt, pair.code, r, r1, n, pair.b, MF(AsFloat(p.host, rval)), pair.next, Fcmp(c, pair.a, pair.b), mv,
        r1.m);
    r' := r1.(env := r1.env[pair.next := mv]);
  }

  lemma IntCompareRuns(p: Program, vt: seq<ClTy>, n: nat, c: Cmp, l: nat, lval: Value, rr: nat, rval: Value, r: Regs)
      returns (r': Regs)
    requires l in r.env && rr in r.env && l < n && rr < n
    requires (lval.VInt? || lval.VBool?) && (rval.VInt? || rval.VBool?)
    requires r.env[l] == Native(lval) && r.env[rr] == Native(rval)
    ensures FlagFragment(p, vt, EmitCompare(n, c, l, TypeOf(r.env[l]), rr, TypeOf(r.env[rr])), r, r', n,
                         IntCompare(c, Wide(lval), Wide(rval)))
  {
    hide ExecCode, EnsureI64;
    var a := EnsureI64(n, l, TypeOf(r.env[l]));
    var pair := Both(a, EnsureI64(a.next, rr, TypeOf(r.env[rr])));
    var r1 := WidenBoth(p, vt, n, l, lval, rr, rval, r);
    var mv := M8(if IntCompare(c, Wide(lval), Wide(rval)) then 1 else 0);
    YieldsThen(p, vt, pair.code, r, r1, n, pair.b, M64(Num(Wide(rval))), pair.next, Icmp(c, pair.a, pair.b), mv, r1.m);
    r' := r1.(env := r1.env[pair.next := mv]);
  }

  lemma CompareRuns(p: Program, vt: seq<ClTy>, n: nat, op: BinOp, l: nat, lval: Value, lk: Kind, rr: nat, rval: Value,
      rk: Kind, r: Regs) returns (r': Regs, flag: bool)
    requires l in r.env && rr in r.env && l < n && rr < n
    requires IsKind(lval, lk) && IsKind(rval, rk) && IsComparison(op) && ValidKinds(op, lk, rk)
    requires r.env[l] == Native(lval) && r.env[rr] == Native(rval)
    ensures FlagFragment(p, vt, EmitCompare(n, CmpOf(op), l, TypeOf(r.env[l]), rr, TypeOf(r.env[rr])), r, r', n, flag)
    ensures EvalBinary(p.host, op, lval, rval) == Done(VBool(flag))
  {
    ComparisonVerdict(p.host, op, lval, lk, rval, rk);
    flag := EvalBinary(p.host, op, lval, rval).v.b;
    if lval.VFloat? || rval.VFloat? {
      r' := FloatCompareRuns(p, vt, n, CmpOf(op), l, lval, rr, rval, r);
    } else {
      r' := IntCompareRuns(p, vt, n, CmpOf(op), l, lval, rr, rval, r);
    }
  }

  function LogicBit(op: BinOp, x: i64, y: i64): i64 {
    if op == And then And64(x, y) else Or64(x, y)
  }

  lemma WideLogicRuns(p: Program, vt: seq<ClTy>, n: nat, op: BinOp, l: nat, lval: Value, rr: nat, rval: Value,
      r: Regs) returns (r': Regs)
    requires l in r.env && rr in r.env && l < n && rr < n
    requires lval.VBool? && rval.VBool?
    requires r.env[l] == Native(lval) && r.env[rr] == Native(rval)
    ensures var a := EnsureI64(n, l, TypeOf(r.env[l]));
            var pair := Both(a, EnsureI64(a.next, rr, TypeOf(r.env[rr])));
            var wide := PairThen(pair, if op == And then Band(pair.a, pair.b) else Bor(pair.a, pair.b), I64);
            && n <= wide.res < wide.next && r'.m == r.m
            && Yields(p, vt, wide.code, r, r', n, wide.res, M64(Num(LogicBit(op, Wide(lval), Wide(rval)))))
  {
    hide ExecCode, EnsureI64, And64, Or64;
    var a := EnsureI64(n, l, TypeOf(r.env[l]));
    var pair := Both(a, EnsureI64(a.next, rr, TypeOf(r.env[rr])));
    var r1 := WidenBoth(p, vt, n, l, lval, rr, rval, r);
    var opcode := if op == And then Band(pair.a, pair.b) else Bor(pair.a, pair.b);
    var mv := M64(Num(LogicBit(op, Wide(lval), Wide(rval))));
    YieldsThen(p, vt, pair.code, r, r1, n, pair.b, M64(Num(Wide(rval))), pair.next, opcode, mv, r1.m);
    r' := r1.(env := r1.env[pair.next := mv]);
  }

  lemma LogicRuns(p: Program, vt: seq<ClTy>, n: nat, op: BinOp, l: nat, lval: Value, rr: nat, rval: Value, r: Regs)
      returns (r': Regs, flag: bool)
    requires l in r.env && rr in r.env && l < n && rr < n
    requires lval.VBool? && rval.VBool? && op in {And, Or}
    requires r.env[l] == Native(lval) && r.env[rr] == Native(rval)
    ensures FlagFragment(p, vt, EmitLogic(n, op, l, TypeOf(r.env[l]), rr, TypeOf(r.env[rr])), r, r', n, flag)
    ensures EvalBinary(p.host, op, lval, rval) == Done(VBool(flag))
  {
    hide ExecCode, EnsureI64, And64, Or64, EnvKept;
    flag := if op == And then lval.b && rval.b else lval.b || rval.b;
    var bit: i64 := if flag then 1 else 0;
    BitwiseLogic(lval.b, rval.b);
    assert LogicBit(op, Wide(lval), Wide(rval)) == bit;
    var a := EnsureI64(n, l, TypeOf(r.env[l]));
    var pair := Both(a, EnsureI64(a.next, rr, TypeOf(r.env[rr])));
    var wide := PairThen(pair, if op == And then Band(pair.a, pair.b) else Bor(pair.a, pair.b), I64);
    var r1 := WideLogicRuns(p, vt, n, op, l, lval, rr, rval, r);
    NarrowBit(p, vt, wide, r, r1, n, bit);
    r' := r1.(env := r1.env[wide.next := M8(bit)]);
  }

  lemma NarrowBit(p: Program, vt: seq<ClTy>, wide: Frag, r: Regs, r2: Regs, n: nat, bit: i64)
    requires bit in {0, 1} && n <= wide.next
    requires Yields(p, vt, wide.code, r, r2, n, wide.res, M64(Num(bit)))
    ensures Yields(p, vt, Then(wide, IReduce(wide.res), I8).code, r, r2.(env := r2.env[wide.next := M8(bit)]), n,
        wide.next, M8(bit))
  {
    hide ExecCode;
    YieldsThen(p, vt, wide.code, r, r2, n, wide.res, M64(Num(bit)), wide.next, IReduce(wide.res), M8(bit), r2.m);
  }

  /** Checked integer arithmetic through the runtime. */
  lemma IntegerRuns(p: Program, vt: seq<ClTy>, n: nat, op: BinOp, l: nat, a: i64, rr: nat, b: i64, r: Regs)
      returns (r': Regs)
    requires l in r.env && rr in r.env && l < n && rr < n
    requires r.env[l] == M64(Num(a)) && r.env[rr] == M64(Num(b))
    requires IntegerRuntime(op).Some? && (op == Pow ==> b >= 0 || a in {1, -1})
    ensures var code := [Let(n, CallRt(IntegerRuntime(op).value, [l, rr]))];
            && n in r'.env && TypeOf(r'.env[n]) == I64
            && Yields(p, vt, code, r, r', n, n, r'.env[n])
            && Reports(EvalBinary(p.host, op, VInt(a), VInt(b)), r'.env[n], r.m, r'.m)
  {
    hide ExecCode;
    var opcode := CallRt(IntegerRuntime(op).value, [l, rr]);
    LookupTwo(r.env, l, rr);
    var checked := IntegerCall(IntegerRuntime(op).value, a, b).value;
    var (mv, m) := CheckedResult(checked, r.m).value;
    YieldsOne(p, vt, n, opcode, r, mv, m);
    r' := r.(env := r.env[n := mv], m := m);
  }

  /** An operation on two operands converted to floats. */
  lemma AfterFloats(p: Program, vt: seq<ClTy>, n: nat, op: Op, l: nat, lval: Value, rr: nat, rval: Value, r: Regs,
      r1: Regs, mv: MVal, m: Machine) returns (r': Regs)
    requires l in r.env && rr in r.env && (lval.VInt? || lval.VFloat?) && (rval.VInt? || rval.VFloat?)
    requires r.env[l] == Native(lval) && r.env[rr] == Native(rval)
    requires var a := EnsureF64(n, l, TypeOf(r.env[l]));
             var pair := Both(a, EnsureF64(a.next, rr, TypeOf(r.env[rr])));
             && n <= pair.next && Yields(p, vt, pair.code, r, r1, n, pair.b, MF(AsFloat(p.host, rval)))
             && EvalOp(p, op, r1) == Some((mv, m))
    ensures var a := EnsureF64(n, l, TypeOf(r.env[l]));
            var pair := Both(a, EnsureF64(a.next, rr, TypeOf(r.env[rr])));
            Yields(p, vt, PairThen(pair, op, F64).code, r, r', n, pair.next, mv) && r'.m == m
  {
    hide ExecCode, EnsureF64, EvalOp;
    var a := EnsureF64(n, l, TypeOf(r.env[l]));
    var pair := Both(a, EnsureF64(a.next, rr, TypeOf(r.env[rr])));
    YieldsThen(p, vt, pair.code, r, r1, n, pair.b, MF(AsFloat(p.host, rval)), pair.next, op, mv, m);
    r' := r1.(env := r1.env[pair.next := mv], m := m);
  }

  /** What code for a float destination computes: both operands are converted first. */
  function FloatArithmetic(h: Host, op: BinOp, lval: Value, rval: Value): EvalResult
    requires (lval.VInt? || lval.VFloat?) && (rval.VInt? || rval.VFloat?)
    requires FloatInstruction(op).Some? || op == Div
  {
    var x, y := AsFloat(h, lval), AsFloat(h, rval);
    if op == Div && h.compare(CEq, y, FLOAT_ZERO) then Raise(R2001)
    else Done(VFloat(h.arith(if op == Div then FDiv else FloatInstruction(op).value, x, y)))
  }

  /** That is the language's arithmetic exactly if an operand is a float or the division fails anyway. */
  lemma FloatArithmeticExactly(h: Host, op: BinOp, lval: Value, rval: Value)
    requires HostOk(h) && (FloatInstruction(op).Some? || op == Div)
    requires (lval.VInt? || lval.VFloat?) && (rval.VInt? || rval.VFloat?)
    ensures FloatArithmetic(h, op, lval, rval) == EvalBinary(h, op, lval, rval) <==>
              lval.VFloat? || rval.VFloat? || (op == Div && IsZero(h, rval))
  {
  }

  lemma FloatRuns(p: Program, vt: seq<ClTy>, n: nat, op: BinOp, l: nat, lval: Value, rr: nat, rval: Value, r: Regs)
      returns (r': Regs)
    requires l in r.env && rr in r.env && l < n && rr < n
    requires (lval.VInt? || lval.VFloat?) && (rval.VInt? || rval.VFloat?)
    requires r.env[l] == Native(lval) && r.env[rr] == Native(rval)
    requires FloatInstruction(op).Some? || op == Div
    requires EmitBinop(n, op, l, TypeOf(r.env[l]), rr, TypeOf(r.env[rr]), TFloat).Some?
    ensures var frag := EmitBinop(n, op, l, TypeOf(r.env[l]), rr, TypeOf(r.env[rr]), TFloat).value;
            && n <= frag.res < frag.next && frag.ty == F64
            && frag.res in r'.env && TypeOf(r'.env[frag.res]) == F64
            && Yields(p, vt, frag.code, r, r', n, frag.res, r'.env[frag.res])
            && Reports(FloatArithmetic(p.host, op, lval, rval), r'.env[frag.res], r.m, r'.m)
  {
    hide ExecCode, EnsureF64, EnvKept;
    var a := EnsureF64(n, l, TypeOf(r.env[l]));
    var pair := Both(a, EnsureF64(a.next, rr, TypeOf(r.env[rr])));
    var r1 := FloatBoth(p, vt, n, l, lval, rr, rval, r);
    var x, y := AsFloat(p.host, lval), AsFloat(p.host, rval);
    if op == Div {
      LookupTwo(r1.env, pair.a, pair.b);
      var (mv, m) := CallRuntime2(p.host, FloatDiv, MF(x), MF(y), r1.m).value;
      r' := AfterFloats(p, vt, n, CallRt(FloatDiv, [pair.a, pair.b]), l, lval, rr, rval, r, r1, mv, m);
    } else {
      var mv := MF(p.host.arith(FloatInstruction(op).value, x, y));
      r' := AfterFloats(p, vt, n, FArith(FloatInstruction(op).value, pair.a, pair.b), l, lval, rr, rval, r, r1, mv,
          r1.m);
    }
  }
}
