// MIR functions and the meaning the interpreter gives to them, instruction by instruction
// (crates/fidan-mir/src/mir.rs, crates/fidan-interp/src/mir_interp.rs).

module Mir {
  import opened Arithmetic
  import opened Options

  // ----- values -----

  /** A Fidan value. Floats are their 64-bit patterns, handles their 64-bit words. */
  datatype Value =
    | VInt(n: i64)
    | VFloat(bits: i64)
    | VBool(b: bool)
    | VHandle(h: i64)
    | VStr(s: string)
    | VNothing

  datatype FloatOp = FAdd | FSub | FMul | FDiv | FRem | FPow

  datatype Cmp = CEq | CNe | CLt | CLe | CGt | CGe

  /** What the host supplies: IEEE 754 arithmetic and comparison on bit patterns, truncation to integers and
      which floats it is defined for in machine code, string order and string rendering. Interpreter and
      compiled code run on the same host. */
  datatype Host = Host(
    arith: (FloatOp, i64, i64) -> i64,
    compare: (Cmp, i64, i64) -> bool,
    negate: i64 -> i64,
    fromInt: i64 -> i64,
    toInt: i64 -> i64,
    convertible: i64 -> bool,
    reciprocalPower: (i64, i64) -> i64,
    order: (Cmp, string, string) -> bool,
    display: Value -> string
  )

  /** The bit pattern of the float literal 0.0. */
  const FLOAT_ZERO: i64 := 0

  function Truthy(h: Host, v: Value): bool {
    match v
    case VBool(b) => b
    case VNothing => false
    case VInt(n) => n != 0
    case VFloat(bits) => h.compare(CNe, bits, FLOAT_ZERO)
    case VHandle(w) => w != 0
    case VStr(s) => s != ""
  }

  // ----- operators -----

  datatype BinOp = Add | Sub | Mul | Div | Rem | Pow | Eq | NotEq | Lt | LtEq | Gt | GtEq | And | Or | BitXor

  datatype UnOp = Pos | Neg | Not

  datatype EvalResult = Done(v: Value) | Raise(code: Code)

  function IsComparison(op: BinOp): bool {
    op in {Eq, NotEq, Lt, LtEq, Gt, GtEq}
  }

  function CmpOf(op: BinOp): Cmp
    requires IsComparison(op)
  {
    match op
    case Eq => CEq
    case NotEq => CNe
    case Lt => CLt
    case LtEq => CLe
    case Gt => CGt
    case _ => CGe
  }

  function IntCompare(c: Cmp, a: int, b: int): bool {
    match c
    case CEq => a == b
    case CNe => a != b
    case CLt => a < b
    case CLe => a <= b
    case CGt => a > b
    case CGe => a >= b
  }

  function ToWord(n: i64): bv64 {
    (if n < 0 then n + 0x1_0000_0000_0000_0000 else n) as bv64
  }

  function FromWord(w: bv64): i64 {
    var n := w as int;
    if n > MAX64 then n - 0x1_0000_0000_0000_0000 else n
  }

  function Xor64(a: i64, b: i64): i64 {
    FromWord(ToWord(a) ^ ToWord(b))
  }

  function FromChecked(r: Checked): EvalResult {
    match r
    case Exact(n) => Done(VInt(n))
    case Fails(code) => Raise(code)
  }

  /** Language exponentiation: a negative exponent leaves the integers unless the base is 1 or -1. */
  function IntPower(h: Host, a: i64, b: i64): EvalResult {
    if b >= 0 || a == 1 || a == -1 then FromChecked(CheckedPow(a, b))
    else if a == 0 then Raise(R2001)
    else Done(VFloat(h.reciprocalPower(a, b)))
  }

  function IntBinary(h: Host, op: BinOp, a: i64, b: i64): EvalResult {
    match op
    case Add => FromChecked(Fit(a + b))
    case Sub => FromChecked(Fit(a - b))
    case Mul => FromChecked(Fit(a * b))
    case Div => FromChecked(CheckedDiv(a, b))
    case Rem => FromChecked(CheckedRem(a, b))
    case Pow => IntPower(h, a, b)
    case BitXor => Done(VInt(Xor64(a, b)))
    case And | Or => Raise(R0001)
    case _ => Done(VBool(IntCompare(CmpOf(op), a, b)))
  }

  function FloatBinary(h: Host, op: BinOp, a: i64, b: i64): EvalResult {
    match op
    case Add => Done(VFloat(h.arith(FAdd, a, b)))
    case Sub => Done(VFloat(h.arith(FSub, a, b)))
    case Mul => Done(VFloat(h.arith(FMul, a, b)))
    case Div => Done(VFloat(h.arith(FDiv, a, b)))
    case Rem => Done(VFloat(h.arith(FRem, a, b)))
    case Pow => Done(VFloat(h.arith(FPow, a, b)))
    case And | Or | BitXor => Raise(R0001)
    case _ => Done(VBool(h.compare(CmpOf(op), a, b)))
  }

  function IsZero(h: Host, v: Value): bool {
    match v
    case VInt(n) => n == 0
    case VFloat(bits) => h.compare(CEq, bits, FLOAT_ZERO)
    case _ => false
  }

  function EvalBinary(h: Host, op: BinOp, l: Value, r: Value): EvalResult {
    if op in {Div, Rem} && IsZero(h, r) then Raise(R2001)
    else
      match (l, r)
      case (VInt(a), VInt(b)) => IntBinary(h, op, a, b)
      case (VFloat(a), VFloat(b)) => FloatBinary(h, op, a, b)
      case (VInt(a), VFloat(b)) => FloatBinary(h, op, h.fromInt(a), b)
      case (VFloat(a), VInt(b)) => FloatBinary(h, op, a, h.fromInt(b))
      case (VBool(a), VBool(b)) =>
        (match op
         case And => Done(VBool(a && b))
         case Or => Done(VBool(a || b))
         case Eq => Done(VBool(a == b))
         case NotEq => Done(VBool(a != b))
         case _ => Raise(R0001))
      case (VStr(a), VStr(b)) =>
        (match op
         case Add => Done(VStr(a + b))
         case Eq => Done(VBool(a == b))
         case NotEq => Done(VBool(a != b))
         case Lt | LtEq | Gt | GtEq => Done(VBool(h.order(CmpOf(op), a, b)))
         case _ => Raise(R0001))
      case _ =>
        if op == Add && l.VStr? then Done(VStr(l.s + h.display(r)))
        else if op == Add && r.VStr? then Done(VStr(h.display(l) + r.s))
        else if op == Eq && (l.VNothing? || r.VNothing?) then Done(VBool(l == r))
        else if op == NotEq && (l.VNothing? || r.VNothing?) then Done(VBool(l != r))
        else Raise(R0001)
  }

  function EvalUnary(h: Host, op: UnOp, v: Value): EvalResult {
    match (op, v)
    case (Pos, _) => Done(v)
    case (Neg, VInt(n)) => FromChecked(Fit(0 - n))
    case (Neg, VFloat(bits)) => Done(VFloat(h.negate(bits)))
    case (Not, VBool(b)) => Done(VBool(!b))
    case _ => Raise(R0001)
  }

  // ----- programs -----

  datatype MirTy = TInteger | TFloat | TBoolean | THandle | TString | TNothing | TDynamic

  /** Types whose raw ABI word is the value itself; every other type travels as a boxed pointer. */
  predicate IsScalar(ty: MirTy) {
    ty in {TInteger, TFloat, TBoolean, THandle}
  }

  datatype Lit = LInt(n: i64) | LFloat(bits: i64) | LBool(b: bool) | LStr(s: string) | LNothing

  datatype Operand = Local(l: nat) | Const(lit: Lit)

  datatype Rvalue =
    | Literal(lit: Lit)
    | Use(op: Operand)
    | Binary(bop: BinOp, lhs: Operand, rhs: Operand)
    | Unary(uop: UnOp, operand: Operand)

  datatype Instr =
    | Assign(dest: nat, rhs: Rvalue)
    | Call(res: Option<nat>, callee: nat, args: seq<Operand>)
    | LoadGlobal(dest: nat, global: nat)
    | StoreGlobal(global: nat, value: Operand)
    | CertainCheck(op: Operand)
    | Nop

  datatype Terminator =
    | Return(value: Option<Operand>)
    | Goto(target: nat)
    | Branch(cond: Operand, thenBb: nat, elseBb: nat)
    | Throw(thrown: Operand)

  datatype Phi = Phi(result: nat, incoming: seq<(nat, Operand)>)

  datatype Block = Block(phis: seq<Phi>, instrs: seq<Instr>, term: Terminator)

  datatype Param = Param(local: nat, ty: MirTy, certain: bool, default: Option<Lit>)

  /** `types` is the effective type of every local, as computed before code generation. */
  datatype Function = Function(params: seq<Param>, returnTy: MirTy, blocks: seq<Block>, types: seq<MirTy>)

  datatype Program = Program(functions: seq<Function>, globals: seq<MirTy>, host: Host)

  function LitValue(lit: Lit): Value {
    match lit
    case LInt(n) => VInt(n)
    case LFloat(bits) => VFloat(bits)
    case LBool(b) => VBool(b)
    case LStr(s) => VStr(s)
    case LNothing => VNothing
  }

  function LitTy(lit: Lit): MirTy {
    match lit
    case LInt(_) => TInteger
    case LFloat(_) => TFloat
    case LBool(_) => TBoolean
    case LStr(_) => TString
    case LNothing => TNothing
  }

  /** A nullable parameter keeps its tag: it crosses the call boundary boxed. */
  function AbiTy(p: Param): MirTy {
    if !p.certain && (p.default == None || p.default == Some(LNothing)) then TDynamic else p.ty
  }

  predicate HasTy(v: Value, ty: MirTy) {
    match ty
    case TInteger => v.VInt?
    case TFloat => v.VFloat?
    case TBoolean => v.VBool?
    case THandle => v.VHandle?
    case TNothing => v.VNothing?
    case _ => true
  }

  /** What a parameter's slot promises: a value of its ABI type, and not nothing if it is certain. */
  predicate Meets(v: Value, p: Param) {
    HasTy(v, AbiTy(p)) && (p.certain ==> !v.VNothing?)
  }

  // ----- argument preparation at a call boundary -----

  datatype Prepared = Ready(args: seq<Value>) | Refused

  predicate Accepts(v: Value, ty: MirTy) {
    v.VNothing? ||
    match ty
    case TDynamic => true
    case TInteger | TFloat => v.VInt? || v.VFloat?
    case TBoolean => v.VBool?
    case TString => v.VStr?
    case THandle => v.VHandle?
    case TNothing => false
  }

  function Coerce(h: Host, v: Value, ty: MirTy): Value {
    match (ty, v)
    case (TInteger, VFloat(bits)) => VInt(h.toInt(bits))
    case (TFloat, VInt(n)) => VFloat(h.fromInt(n))
    case _ => v
  }

  function PrepareOne(h: Host, p: Param, v: Value): Option<Value> {
    var supplied := if v.VNothing? && p.default.Some? then LitValue(p.default.value) else v;
    if p.certain && supplied.VNothing? then None
    else if !Accepts(supplied, p.ty) then None
    else Some(Coerce(h, supplied, p.ty))
  }

  function PrepareAll(h: Host, params: seq<Param>, args: seq<Value>): Prepared
    requires |params| == |args|
  {
    if params == [] then Ready([])
    else
      var first := PrepareOne(h, params[0], args[0]);
      var rest := PrepareAll(h, params[1..], args[1..]);
      if first.Some? && rest.Ready? then Ready([first.value] + rest.args) else Refused
  }

  /** One more than the position of the last parameter without a default. */
  function MinimumArgs(params: seq<Param>): nat {
    if params == [] then 0
    else if params[|params| - 1].default == None then |params|
    else MinimumArgs(params[..|params| - 1])
  }

  function Prepare(h: Host, params: seq<Param>, args: seq<Value>): Prepared {
    if |args| > |params| || |args| < MinimumArgs(params) then Refused
    else PrepareAll(h, params, args + seq(|params| - |args|, i => VNothing))
  }

  lemma {:induction false} PreparedAllFit(h: Host, params: seq<Param>, args: seq<Value>)
    requires |params| == |args| && PrepareAll(h, params, args).Ready?
    ensures |PrepareAll(h, params, args).args| == |params|
    ensures forall i :: 0 <= i < |params| ==> Meets(PrepareAll(h, params, args).args[i], params[i])
  {
    if params != [] {
      PreparedAllFit(h, params[1..], args[1..]);
      assert Meets(PrepareOne(h, params[0], args[0]).value, params[0]);
      forall i | 0 < i < |params|
        ensures Meets(PrepareAll(h, params, args).args[i], params[i])
      {
        assert params[i] == params[1..][i - 1];
      }
    }
  }

  /** Whatever a caller passes, a call that gets past argument preparation hands every parameter a
      value of the type its ABI slot promises, and a certain parameter never nothing. */
  lemma PreparedArgsFit(h: Host, params: seq<Param>, args: seq<Value>)
    requires Prepare(h, params, args).Ready?
    ensures |Prepare(h, params, args).args| == |params|
    ensures forall i :: 0 <= i < |params| ==> Meets(Prepare(h, params, args).args[i], params[i])
  {
    PreparedAllFit(h, params, args + seq(|params| - |args|, i => VNothing));
  }

  /** A value is of this kind as it stands; anything is of a flexible type. */
  predicate IsA(v: Value, ty: MirTy) {
    if ty == TString then v.VStr? else HasTy(v, ty)
  }

  /** What a parameter of type `ty` makes of a value: nothing, and a value of its own kind, stay as they are, and a
      number of the other kind is converted. No slot does for any other value. */
  ghost predicate PassedAs(h: Host, v: Value, ty: MirTy, slot: Value) {
    if v.VNothing? || IsA(v, ty) then slot == v
    else
      && IsA(slot, ty)
      && ((v.VFloat? && slot == VInt(h.toInt(v.bits))) || (v.VInt? && slot == VFloat(h.fromInt(v.n))))
  }

  lemma PreparedOne(h: Host, p: Param, v: Value)
    ensures var s := if v.VNothing? && p.default.Some? then LitValue(p.default.value) else v;
            && (PrepareOne(h, p, v).None? <==> (p.certain && s.VNothing?) || !exists slot :: PassedAs(h, s, p.ty, slot))
            && (PrepareOne(h, p, v).Some? ==> PassedAs(h, s, p.ty, PrepareOne(h, p, v).value))
  {
    var s := if v.VNothing? && p.default.Some? then LitValue(p.default.value) else v;
    assert Accepts(s, p.ty) ==> PassedAs(h, s, p.ty, Coerce(h, s, p.ty));
  }

  lemma {:induction false} PreparedAllAre(h: Host, params: seq<Param>, args: seq<Value>)
    requires |params| == |args|
    ensures PrepareAll(h, params, args).Ready? <==>
              forall i :: 0 <= i < |params| ==> PrepareOne(h, params[i], args[i]).Some?
    ensures PrepareAll(h, params, args).Ready? ==>
              && |PrepareAll(h, params, args).args| == |params|
              && forall i :: 0 <= i < |params| ==>
                   PrepareOne(h, params[i], args[i]) == Some(PrepareAll(h, params, args).args[i])
  {
    hide PrepareOne;
    if params != [] {
      PreparedAllAre(h, params[1..], args[1..]);
      forall i | 0 < i < |params|
        ensures params[i] == params[1..][i - 1] && args[i] == args[1..][i - 1]
      {
      }
      if forall i :: 0 <= i < |params| ==> PrepareOne(h, params[i], args[i]).Some? {
        forall i | 0 <= i < |params[1..]|
          ensures PrepareOne(h, params[1..][i], args[1..][i]).Some?
        {
          assert PrepareOne(h, params[i + 1], args[i + 1]).Some?;
        }
      }
    }
  }

  lemma {:induction false} MinimumExactly(params: seq<Param>, n: nat)
    ensures n < MinimumArgs(params) <==> exists i :: n <= i < |params| && params[i].default == None
  {
    if params != [] && params[|params| - 1].default != None {
      MinimumExactly(params[..|params| - 1], n);
      if i :| n <= i < |params| && params[i].default == None {
        assert params[..|params| - 1][i].default == None;
      }
    }
  }

  /** The value parameter `i` starts from: the caller's argument, or the default where that is missing or
      nothing. */
  ghost predicate StartsFrom(params: seq<Param>, args: seq<Value>, i: nat, v: Value)
    requires i < |params|
  {
    if i < |args| && !args[i].VNothing? then v == args[i]
    else if params[i].default.Some? then v == LitValue(params[i].default.value)
    else v == VNothing
  }

  /** Position by position: an argument reaches its own parameter, a missing one is replaced by the default,
      and a value of the other numeric type is converted. And a call is refused exactly if it passes too many
      arguments, or leaves out one without a default, or gives a parameter a value that no slot does for, nothing
      given to a certain parameter included. */
  lemma PreparedExactly(h: Host, params: seq<Param>, args: seq<Value>)
    ensures Prepare(h, params, args).Ready? ==>
              && |Prepare(h, params, args).args| == |params|
              && forall i, v :: 0 <= i < |params| && StartsFrom(params, args, i, v) ==>
                   PassedAs(h, v, params[i].ty, Prepare(h, params, args).args[i])
    ensures Prepare(h, params, args).Refused? <==>
              || |args| > |params|
              || (exists i :: |args| <= i < |params| && params[i].default == None)
              || exists i, v :: 0 <= i < |params| && StartsFrom(params, args, i, v) &&
                   ((params[i].certain && v.VNothing?) || !exists slot :: PassedAs(h, v, params[i].ty, slot))
  {
    hide PrepareOne, PassedAs, Accepts;
    MinimumExactly(params, |args|);
    if |args| <= |params| {
      var all := args + seq(|params| - |args|, i => VNothing);
      PreparedAllAre(h, params, all);
      forall i | 0 <= i < |params|
        ensures PrepareOne(h, params[i], all[i]).None? <==>
                  exists v :: StartsFrom(params, args, i, v) &&
                    ((params[i].certain && v.VNothing?) || !exists slot :: PassedAs(h, v, params[i].ty, slot))
        ensures forall v :: StartsFrom(params, args, i, v) && PrepareOne(h, params[i], all[i]).Some? ==>
                  PassedAs(h, v, params[i].ty, PrepareOne(h, params[i], all[i]).value)
      {
        PreparedOne(h, params[i], all[i]);
        var s := if all[i].VNothing? && params[i].default.Some? then LitValue(params[i].default.value) else all[i];
        assert forall v :: StartsFrom(params, args, i, v) <==> v == s;
      }
    }
  }

  /** The arguments of a call, made ready in place. */
  method PrepareCallArgs(h: Host, params: seq<Param>, args: seq<Value>) returns (r: Prepared)
    ensures r == Prepare(h, params, args)
  {
    hide PrepareAll;
    if |args| > |params| {
      return Refused;
    }
    var minimum := |params|;
    assert params[..minimum] == params;
    while minimum > 0 && params[minimum - 1].default != None
      invariant 0 <= minimum <= |params| && MinimumArgs(params[..minimum]) == MinimumArgs(params)
    {
      assert params[..minimum][..minimum - 1] == params[..minimum - 1];
      minimum := minimum - 1;
    }
    if |args| < minimum {
      return Refused;
    }
    ghost var given := args + seq(|params| - |args|, i => VNothing);
    var slots := args + seq(|params| - |args|, i => VNothing);
    PreparedAllAre(h, params, given);
    for i := 0 to |params|
      invariant |slots| == |params| && slots[i..] == given[i..]
      invariant forall k :: 0 <= k < i ==> PrepareOne(h, params[k], given[k]) == Some(slots[k])
    {
      assert slots[i..][0] == given[i..][0];
      if slots[i].VNothing? && params[i].default.Some? {
        slots := slots[i := LitValue(params[i].default.value)];
      }
      if params[i].certain && slots[i].VNothing? {
        return Refused;
      }
      if !Accepts(slots[i], params[i].ty) {
        return Refused;
      }
      slots := slots[i := Coerce(h, slots[i], params[i].ty)];
      assert slots[i + 1..] == given[i..][1..];
    }
    assert PrepareAll(h, params, given).args == slots;
    r := Ready(slots);
  }

  // ----- one instruction of the interpreter -----

  /** How an activation ends early. */
  datatype Signal = Error(code: Code) | Thrown(v: Value)

  type Frame = seq<Value>

  function Load(frame: Frame, l: nat): Value {
    if l < |frame| then frame[l] else VNothing
  }

  function Store(frame: Frame, l: nat, v: Value): Frame {
    if l < |frame| then frame[l := v] else frame
  }

  function EvalOperand(frame: Frame, op: Operand): Value {
    match op
    case Local(l) => Load(frame, l)
    case Const(lit) => LitValue(lit)
  }

  function EvalOperands(frame: Frame, ops: seq<Operand>): seq<Value> {
    seq(|ops|, i requires 0 <= i < |ops| => EvalOperand(frame, ops[i]))
  }

  function EvalRvalue(h: Host, frame: Frame, rhs: Rvalue): EvalResult {
    match rhs
    case Literal(lit) => Done(LitValue(lit))
    case Use(op) => Done(EvalOperand(frame, op))
    case Binary(op, l, r) => EvalBinary(h, op, EvalOperand(frame, l), EvalOperand(frame, r))
    case Unary(op, x) => EvalUnary(h, op, EvalOperand(frame, x))
  }

  datatype Progress = Next(frame: Frame, globals: seq<Value>) | Stop(signal: Signal)

  /** Every instruction but a call. */
  function ExecLocal(h: Host, frame: Frame, globals: seq<Value>, instr: Instr): Progress
    requires !instr.Call?
  {
    match instr
    case Assign(dest, rhs) =>
      (match EvalRvalue(h, frame, rhs)
       case Done(v) => Next(Store(frame, dest, v), globals)
       case Raise(code) => Stop(Error(code)))
    case LoadGlobal(dest, g) =>
      Next(Store(frame, dest, if g < |globals| then globals[g] else VNothing), globals)
    case StoreGlobal(g, op) =>
      Next(frame, if g < |globals| then globals[g := EvalOperand(frame, op)] else globals)
    case CertainCheck(op) =>
      if EvalOperand(frame, op).VNothing? then Stop(Error(R0001)) else Next(frame, globals)
    case Nop => Next(frame, globals)
  }

  // ----- phi nodes -----

  /** The operand a phi selects for the edge taken, if it lists that predecessor. */
  function Incoming(incoming: seq<(nat, Operand)>, pred: nat): Option<Operand> {
    if incoming == [] then None
    else if incoming[0].0 == pred then Some(incoming[0].1)
    else Incoming(incoming[1..], pred)
  }

  function PhiValue(frame: Frame, phi: Phi, pred: Option<nat>): Value {
    if pred.None? then VNothing
    else
      match Incoming(phi.incoming, pred.value)
      case Some(op) => EvalOperand(frame, op)
      case None => VNothing
  }

  function StorePhis(frame: Frame, phis: seq<Phi>, values: seq<Value>): Frame
    requires |phis| == |values|
    decreases |phis|
  {
    if phis == [] then frame
    else StorePhis(Store(frame, phis[0].result, values[0]), phis[1..], values[1..])
  }

  /** All phi values are read from the frame the edge was taken in, then stored. */
  function TakePhis(frame: Frame, phis: seq<Phi>, pred: Option<nat>): Frame {
    StorePhis(frame, phis, seq(|phis|, i requires 0 <= i < |phis| => PhiValue(frame, phis[i], pred)))
  }

  lemma {:induction false} StorePhisLength(frame: Frame, phis: seq<Phi>, values: seq<Value>)
    requires |phis| == |values|
    ensures |StorePhis(frame, phis, values)| == |frame|
    decreases |phis|
  {
    if phis != [] {
      StorePhisLength(Store(frame, phis[0].result, values[0]), phis[1..], values[1..]);
    }
  }

  function BindParams(frame: Frame, params: seq<Param>, args: seq<Value>): Frame
    requires |params| == |args|
    decreases |params|
  {
    if params == [] then frame
    else BindParams(Store(frame, params[0].local, args[0]), params[1..], args[1..])
  }
}
