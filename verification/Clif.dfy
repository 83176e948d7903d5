// The target of the JIT: Cranelift functions with typed variables, blocks with parameters, runtime
// calls and an exception slot, and what each instruction does to the machine.

module Clif {
  import opened Arithmetic
  import opened Options
  import opened Mir
  import opened AbiScope

  datatype ClTy = I8 | I64 | F64

  type u8 = n: int | 0 <= n < 256

  /** A machine value with its Cranelift type. */
  datatype MVal = M8(n: u8) | M64(w: Word) | MF(bits: i64)

  function TypeOf(v: MVal): ClTy {
    match v
    case M8(_) => I8
    case M64(_) => I64
    case MF(_) => F64
  }

  /** Runtime functions compiled code may call. */
  datatype Rt =
    | IntAdd | IntSub | IntMul | IntDiv | IntRem | IntPow | IntNeg
    | FloatDiv
    | NotBool | IsTruthy | HasException
    | BoxInt | BoxFloat | BoxBool | BoxHandle | BoxNothing | BoxStr(s: string)

  datatype Op =
    | Iconst(ty: ClTy, n: i64)
    | F64const(bits: i64)
    | UseVar(x: nat)
    | CallRt(f: Rt, rtArgs: seq<nat>)
    | CallFn(callee: nat, fnArgs: seq<nat>)
    | LoadGlobalRaw(global: nat)
    | FArith(fop: FloatOp, fa: nat, fb: nat)
    | FNeg(a: nat)
    | Fcmp(fc: Cmp, ca: nat, cb: nat)
    | Icmp(ic: Cmp, ia: nat, ib: nat)
    | Bxor(xa: nat, xb: nat)
    | Band(na: nat, nb: nat)
    | Bor(oa: nat, ob: nat)
    | IReduce(ra: nat)
    | UExtend(ua: nat)
    | BitsToFloat(ba: nat)
    | FloatToBits(da: nat)
    | FcvtFromSint(sa: nat)
    | FcvtFromUint(va: nat)
    | FcvtToSint(ta: nat)

  datatype Inst =
    | Let(dst: nat, op: Op)
    | DefVar(x: nat, v: nat)
    | StoreGlobalRaw(g: nat, raw: nat)

  datatype Term =
    | Ret(v: nat)
    | Jump(b: nat, args: seq<nat>)
    | Brif(c: nat, b1: nat, args1: seq<nat>, b2: nat, args2: seq<nat>)

  datatype TBlock = TBlock(params: seq<(nat, ClTy)>, body: seq<Inst>, term: Option<Term>)

  /** `heads` counts the blocks that stand for MIR blocks; later ones come from exception checks. */
  datatype TFunc = TFunc(varTypes: seq<ClTy>, heads: nat, blocks: seq<TBlock>)

  // ----- the machine -----

  /** The pending exception slot: a runtime diagnostic, or the marker for a forwarded signal. */
  datatype Exc = Coded(code: Code) | Marker

  datatype Tier = Tier(count: nat, published: bool)

  datatype Machine = Machine(
    globals: seq<Value>, scope: Scope, exc: Option<Exc>, sig: Option<Signal>, tiers: seq<Tier>)

  datatype Regs = Regs(env: map<nat, MVal>, vars: map<nat, MVal>, m: Machine)

  function ZeroOf(ty: ClTy): MVal {
    match ty
    case I8 => M8(0)
    case I64 => M64(Num(0))
    case F64 => MF(0)
  }

  function InitialVars(types: seq<ClTy>): map<nat, MVal> {
    map x | 0 <= x < |types| :: ZeroOf(types[x])
  }

  function And64(a: i64, b: i64): i64 {
    FromWord(ToWord(a) & ToWord(b))
  }

  function Or64(a: i64, b: i64): i64 {
    FromWord(ToWord(a) | ToWord(b))
  }

  // ----- runtime calls; None is undefined behaviour -----

  function CheckedResult(r: Checked, m: Machine): Option<(MVal, Machine)> {
    match r
    case Exact(n) => Some((M64(Num(n)), m))
    case Fails(code) => Some((M64(Num(0)), m.(exc := Some(Coded(code)))))
  }

  function BoxValue(v: Value, m: Machine): Option<(MVal, Machine)> {
    Some((M64(Ptr(m.scope.next)), m.(scope := Register(m.scope, v))))
  }

  function Borrow(m: Machine, w: Word): Option<Value> {
    if w.Ptr? && w.a in m.scope.heap then Some(m.scope.heap[w.a]) else None
  }

  function CallRuntime0(f: Rt, m: Machine): Option<(MVal, Machine)> {
    match f
    case HasException => Some((M8(if m.exc.Some? then 1 else 0), m))
    case BoxNothing => BoxValue(VNothing, m)
    case BoxStr(s) => BoxValue(VStr(s), m)
    case _ => None
  }

  function CallRuntime1(h: Host, f: Rt, a: MVal, m: Machine): Option<(MVal, Machine)> {
    match (f, a)
    case (BoxInt, M64(Num(n))) => BoxValue(VInt(n), m)
    case (BoxFloat, MF(bits)) => BoxValue(VFloat(bits), m)
    case (BoxBool, M8(n)) => BoxValue(VBool(n != 0), m)
    case (BoxHandle, M64(Num(n))) => BoxValue(VHandle(n), m)
    case (IntNeg, M64(Num(n))) => CheckedResult(Fit(0 - n), m)
    case (NotBool, M64(w)) =>
      (match Borrow(m, w)
       case Some(VBool(b)) => Some((M8(if b then 0 else 1), m))
       case Some(_) => Some((M8(0), m.(exc := Some(Coded(R0001)))))
       case None => None)
    case (IsTruthy, M64(w)) =>
      (match Borrow(m, w)
       case Some(v) => Some((M8(if Truthy(h, v) then 1 else 0), m))
       case None => None)
    case _ => None
  }

  function IntegerCall(f: Rt, a: i64, b: i64): Option<Checked> {
    match f
    case IntAdd => Some(Fit(a + b))
    case IntSub => Some(Fit(a - b))
    case IntMul => Some(Fit(a * b))
    case IntDiv => Some(CheckedDiv(a, b))
    case IntRem => Some(CheckedRem(a, b))
    case IntPow => Some(CheckedPow(a, b))
    case _ => None
  }

  function CallRuntime2(h: Host, f: Rt, a: MVal, b: MVal, m: Machine): Option<(MVal, Machine)> {
    match (a, b)
    case (M64(Num(x)), M64(Num(y))) =>
      (match IntegerCall(f, x, y)
       case Some(r) => CheckedResult(r, m)
       case None => None)
    case (MF(x), MF(y)) =>
      if f != FloatDiv then None
      else if h.compare(CEq, y, FLOAT_ZERO) then Some((MF(0), m.(exc := Some(Coded(R2001)))))
      else Some((MF(h.arith(FDiv, x, y)), m))
    case _ => None
  }

  function CallRuntime(h: Host, f: Rt, args: seq<MVal>, m: Machine): Option<(MVal, Machine)> {
    if |args| == 0 then CallRuntime0(f, m)
    else if |args| == 1 then CallRuntime1(h, f, args[0], m)
    else if |args| == 2 then CallRuntime2(h, f, args[0], args[1], m)
    else None
  }

  function GlobalTy(p: Program, g: nat): MirTy {
    if g < |p.globals| then p.globals[g] else TDynamic
  }

  function LoadRaw(p: Program, g: nat, m: Machine): (MVal, Machine) {
    var v := if g < |m.globals| then m.globals[g] else VNothing;
    var (scope, w) := Encode(m.scope, v, GlobalTy(p, g));
    (M64(w), m.(scope := scope))
  }

  function StoreRaw(p: Program, g: nat, w: Word, m: Machine): Option<Machine> {
    match Decode(m.scope, w, GlobalTy(p, g))
    case Some(v) => Some(if g < |m.globals| then m.(globals := m.globals[g := v]) else m)
    case None => None
  }

  // ----- instructions -----

  function Lookup(env: map<nat, MVal>, ids: seq<nat>): Option<seq<MVal>> {
    if forall i :: 0 <= i < |ids| ==> ids[i] in env
    then Some(seq(|ids|, i requires 0 <= i < |ids| && ids[i] in env => env[ids[i]]))
    else None
  }

  function Unary(op: Op, a: MVal, h: Host): Option<MVal> {
    match (op, a)
    case (FNeg(_), MF(x)) => Some(MF(h.negate(x)))
    case (IReduce(_), M64(Num(n))) => Some(M8(n % 256))
    case (UExtend(_), M8(n)) => Some(M64(Num(n)))
    case (BitsToFloat(_), M64(Num(n))) => Some(MF(n))
    case (FloatToBits(_), MF(x)) => Some(M64(Num(x)))
    case (FcvtFromSint(_), M64(Num(n))) => Some(MF(h.fromInt(n)))
    case (FcvtFromUint(_), M64(Num(n))) => Some(MF(h.fromInt(n)))
    case (FcvtToSint(_), MF(x)) => if h.convertible(x) then Some(M64(Num(h.toInt(x)))) else None
    case _ => None
  }

  function Binary(op: Op, a: MVal, b: MVal, h: Host): Option<MVal> {
    match (op, a, b)
    case (FArith(f, _, _), MF(x), MF(y)) => Some(MF(h.arith(f, x, y)))
    case (Fcmp(c, _, _), MF(x), MF(y)) => Some(M8(if h.compare(c, x, y) then 1 else 0))
    case (Icmp(c, _, _), M64(Num(x)), M64(Num(y))) => Some(M8(if IntCompare(c, x, y) then 1 else 0))
    case (Bxor(_, _), M64(Num(x)), M64(Num(y))) => Some(M64(Num(Xor64(x, y))))
    case (Band(_, _), M64(Num(x)), M64(Num(y))) => Some(M64(Num(And64(x, y))))
    case (Bor(_, _), M64(Num(x)), M64(Num(y))) => Some(M64(Num(Or64(x, y))))
    case _ => None
  }

  function Unary1(op: Op, a: nat, r: Regs, h: Host): Option<(MVal, Machine)> {
    if a !in r.env then None
    else
      match Unary(op, r.env[a], h)
      case Some(v) => Some((v, r.m))
      case None => None
  }

  function Binary2(op: Op, a: nat, b: nat, r: Regs, h: Host): Option<(MVal, Machine)> {
    if a !in r.env || b !in r.env then None
    else
      match Binary(op, r.env[a], r.env[b], h)
      case Some(v) => Some((v, r.m))
      case None => None
  }

  /** The value an operation produces. Converting a float that has no 64-bit integer part traps. */
  function EvalOp(p: Program, op: Op, r: Regs): Option<(MVal, Machine)> {
    match op
    case Iconst(I64, n) => Some((M64(Num(n)), r.m))
    case Iconst(I8, n) => if 0 <= n < 256 then Some((M8(n), r.m)) else None
    case Iconst(F64, n) => None
    case F64const(bits) => Some((MF(bits), r.m))
    case UseVar(x) => if x in r.vars then Some((r.vars[x], r.m)) else None
    case CallRt(f, args) =>
      (match Lookup(r.env, args)
       case Some(vals) => CallRuntime(p.host, f, vals, r.m)
       case None => None)
    case CallFn(_, _) => None
    case LoadGlobalRaw(g) => Some(LoadRaw(p, g, r.m))
    case FArith(_, a, b) => Binary2(op, a, b, r, p.host)
    case Fcmp(_, a, b) => Binary2(op, a, b, r, p.host)
    case Icmp(_, a, b) => Binary2(op, a, b, r, p.host)
    case Bxor(a, b) => Binary2(op, a, b, r, p.host)
    case Band(a, b) => Binary2(op, a, b, r, p.host)
    case Bor(a, b) => Binary2(op, a, b, r, p.host)
    case FNeg(a) => Unary1(op, a, r, p.host)
    case IReduce(a) => Unary1(op, a, r, p.host)
    case UExtend(a) => Unary1(op, a, r, p.host)
    case BitsToFloat(a) => Unary1(op, a, r, p.host)
    case FloatToBits(a) => Unary1(op, a, r, p.host)
    case FcvtFromSint(a) => Unary1(op, a, r, p.host)
    case FcvtFromUint(a) => Unary1(op, a, r, p.host)
    case FcvtToSint(a) => Unary1(op, a, r, p.host)
  }

  /** One instruction other than a Fidan call. A variable only takes values of its declared type. */
  function Step(p: Program, varTypes: seq<ClTy>, inst: Inst, r: Regs): Option<Regs> {
    match inst
    case Let(dst, op) =>
      (match EvalOp(p, op, r)
       case Some((v, m)) => Some(r.(env := r.env[dst := v], m := m))
       case None => None)
    case DefVar(x, v) =>
      if v in r.env && x < |varTypes| && TypeOf(r.env[v]) == varTypes[x]
      then Some(r.(vars := r.vars[x := r.env[v]]))
      else None
    case StoreGlobalRaw(g, v) =>
      if v in r.env && r.env[v].M64?
      then
        match StoreRaw(p, g, r.env[v].w, r.m)
        case Some(m) => Some(r.(m := m))
        case None => None
      else None
  }

  /** Straight-line code without Fidan calls. */
  function ExecCode(p: Program, varTypes: seq<ClTy>, code: seq<Inst>, r: Regs): Option<Regs> {
    if code == [] then Some(r)
    else
      match Step(p, varTypes, code[0], r)
      case Some(r1) => ExecCode(p, varTypes, code[1..], r1)
      case None => None
  }

  lemma {:induction false} ExecConcat(p: Program, varTypes: seq<ClTy>, c1: seq<Inst>, c2: seq<Inst>, r: Regs)
    requires ExecCode(p, varTypes, c1, r).Some?
    ensures ExecCode(p, varTypes, c1 + c2, r) == ExecCode(p, varTypes, c2, ExecCode(p, varTypes, c1, r).value)
    decreases |c1|
  {
    if c1 == [] {
      assert c1 + c2 == c2;
    } else {
      assert (c1 + c2)[1..] == c1[1..] + c2;
      ExecConcat(p, varTypes, c1[1..], c2, Step(p, varTypes, c1[0], r).value);
    }
  }

  lemma ExecOne(p: Program, varTypes: seq<ClTy>, inst: Inst, r: Regs)
    ensures ExecCode(p, varTypes, [inst], r) == Step(p, varTypes, inst, r)
  {
    if Step(p, varTypes, inst, r).Some? {
      assert [inst][1..] == [];
    }
  }

  /** A control transfer binds the target's parameters, each of its declared type. */
  function BindBlockParams(params: seq<(nat, ClTy)>, vals: seq<MVal>): Option<map<nat, MVal>> {
    if |params| != |vals| then None
    else if params == [] then Some(map[])
    else if TypeOf(vals[|vals| - 1]) != params[|params| - 1].1 then None
    else
      match BindBlockParams(params[..|params| - 1], vals[..|vals| - 1])
      case Some(env) => Some(env[params[|params| - 1].0 := vals[|vals| - 1]])
      case None => None
  }
}
