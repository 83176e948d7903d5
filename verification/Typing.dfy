// What the compiler takes for granted about MIR: the effective local types are right, uses follow
// definitions, and the control-flow graph is closed. This is the contract of the earlier passes.

module Typing {
  import opened Arithmetic
  import opened Options
  import opened Mir
  import opened JitEmit

  function OperandTy(f: Function, op: Operand): MirTy {
    match op
    case Local(l) => if l < |f.types| then f.types[l] else TDynamic
    case Const(lit) => LitTy(lit)
  }

  predicate Boxed(ty: MirTy) {
    ty in {TString, TDynamic}
  }

  /** A value of type `from` is a value of type `to`. */
  predicate Fits(from: MirTy, to: MirTy) {
    Boxed(to) || from == to
  }

  /** As above, and the raw ABI word of `from` also reads as one of `to`. */
  predicate RawFits(from: MirTy, to: MirTy) {
    Fits(from, to) && (IsScalar(from) ==> from == to)
  }

  // ----- right-hand sides -----

  predicate Numeric(ty: MirTy) {
    ty in {TInteger, TFloat}
  }

  /** Integer powers are typed as integers only where that is certain before running. */
  predicate IntegerPower(l: Operand, r: Operand) {
    || (r.Const? && r.lit.LInt? && r.lit.n >= 0)
    || (l.Const? && l.lit.LInt? && l.lit.n in {1, -1})
  }

  predicate ReciprocalPower(l: Operand, r: Operand) {
    && r.Const? && r.lit.LInt? && r.lit.n < 0
    && l.Const? && l.lit.LInt? && l.lit.n !in {0, 1, -1}
  }

  predicate BinaryTyped(f: Function, op: BinOp, l: Operand, r: Operand, ty: MirTy) {
    var lt, rt := OperandTy(f, l), OperandTy(f, r);
    if IsComparison(op) || op in {And, Or} then ty == TBoolean
    else if lt == TInteger && rt == TInteger then
      match op
      case BitXor => ty == TInteger
      case Pow =>
        Boxed(ty) || (ty == TInteger && IntegerPower(l, r)) || (ty == TFloat && ReciprocalPower(l, r))
      case _ => Boxed(ty) || ty == TInteger
    else if op == BitXor then Boxed(ty) || ty == TInteger
    else if Numeric(lt) && Numeric(rt) then Boxed(ty) || ty == TFloat
    else Boxed(ty)
  }

  predicate RvalueTyped(f: Function, rhs: Rvalue, ty: MirTy) {
    match rhs
    case Literal(lit) => Fits(LitTy(lit), ty)
    case Use(op) => Fits(OperandTy(f, op), ty)
    case Binary(op, l, r) => BinaryTyped(f, op, l, r, ty)
    case Unary(Pos, x) => Fits(OperandTy(f, x), ty)
    case Unary(Neg, x) => if Numeric(OperandTy(f, x)) then ty == OperandTy(f, x) else Boxed(ty)
    case Unary(Not, x) => ty == TBoolean
  }

  // ----- definitions before uses -----

  predicate OpIn(f: Function, defined: set<nat>, op: Operand) {
    op.Local? ==> op.l in defined && op.l < |f.types|
  }

  predicate RvalueIn(f: Function, defined: set<nat>, rhs: Rvalue) {
    match rhs
    case Literal(_) => true
    case Use(op) => OpIn(f, defined, op)
    case Binary(_, l, r) => OpIn(f, defined, l) && OpIn(f, defined, r)
    case Unary(_, x) => OpIn(f, defined, x)
  }

  function DefOf(instr: Instr): set<nat> {
    match instr
    case Assign(dest, _) => {dest}
    case Call(Some(dest), _, _) => {dest}
    case LoadGlobal(dest, _) => {dest}
    case _ => {}
  }

  /** What inlining leaves of a call to a function that returns without a value at a scalar type: compiled
      code then holds 0 where the interpreter holds nothing, so the variable counts as undefined. */
  predicate Unset(f: Function, instr: Instr) {
    && instr.Assign? && instr.rhs == Use(Const(LNothing))
    && instr.dest < |f.types| && f.types[instr.dest] in {TInteger, THandle}
  }

  /** The local of a parameter that argument preparation keeps from being nothing. */
  predicate CertainLocal(f: Function, l: nat) {
    exists i :: 0 <= i < |f.params| && f.params[i].local == l && f.params[i].certain
  }

  function After(f: Function, defined: set<nat>, instr: Instr): set<nat> {
    if Unset(f, instr) then defined - {instr.dest} else defined + DefOf(instr)
  }

  /** What a call yields: a function of return type nothing that returns values may return any. */
  function ResultTy(f: Function): MirTy {
    if f.returnTy == TNothing && exists i :: 0 <= i < |f.blocks| && ReturnsValue(f.blocks[i]) then TDynamic
    else f.returnTy
  }

  predicate ReturnsValue(block: Block) {
    block.term.Return? && block.term.value.Some?
  }

  predicate InstrOk(p: Program, f: Function, defined: set<nat>, instr: Instr) {
    && (forall l :: l in DefOf(instr) ==> l < |f.types| && !CertainLocal(f, l))
    && match instr
       case Assign(dest, rhs) => Unset(f, instr) || (RvalueIn(f, defined, rhs) && RvalueTyped(f, rhs, f.types[dest]))
       case Call(res, callee, args) =>
         && callee < |p.functions|
         && (forall i :: 0 <= i < |args| ==> OpIn(f, defined, args[i]))
         && (res.Some? ==> RawFits(ResultTy(p.functions[callee]), f.types[res.value]))
       case LoadGlobal(dest, g) => g < |p.globals| && RawFits(p.globals[g], f.types[dest])
       case StoreGlobal(g, op) => g < |p.globals| && OpIn(f, defined, op) && Fits(OperandTy(f, op), p.globals[g])
       case CertainCheck(op) => OpIn(f, defined, op)
       case Nop => true
  }

  predicate InstrsOk(p: Program, f: Function, defined: set<nat>, instrs: seq<Instr>)
    decreases |instrs|
  {
    instrs == [] || (InstrOk(p, f, defined, instrs[0]) && InstrsOk(p, f, After(f, defined, instrs[0]), instrs[1..]))
  }

  function DefinedAfter(f: Function, defined: set<nat>, instrs: seq<Instr>): set<nat>
    decreases |instrs|
  {
    if instrs == [] then defined else DefinedAfter(f, After(f, defined, instrs[0]), instrs[1..])
  }

  function PhiResults(phis: seq<Phi>): set<nat> {
    if phis == [] then {} else {phis[0].result} + PhiResults(phis[1..])
  }

  /** Taking the edge from `src` with these locals defined supplies every phi of the target. */
  predicate EdgeOk(f: Function, avail: seq<set<nat>>, defined: set<nat>, src: nat, target: nat) {
    && 1 <= target < |f.blocks|
    && target < |avail|
    && avail[target] <= defined
    && forall i :: 0 <= i < |f.blocks[target].phis| ==> PhiOk(f, defined, src, f.blocks[target].phis[i])
  }

  predicate PhiOk(f: Function, defined: set<nat>, src: nat, phi: Phi) {
    && phi.result < |f.types| && !CertainLocal(f, phi.result)
    && var op := Incoming(phi.incoming, src);
       op.Some? && OpIn(f, defined, op.value) && Fits(OperandTy(f, op.value), f.types[phi.result])
  }

  predicate TermOk(f: Function, avail: seq<set<nat>>, defined: set<nat>, bi: nat, term: Terminator) {
    match term
    case Return(None) => !IsScalar(f.returnTy)
    case Return(Some(op)) => OpIn(f, defined, op) && Fits(OperandTy(f, op), ResultTy(f))
    case Throw(op) => OpIn(f, defined, op)
    case Goto(target) => EdgeOk(f, avail, defined, bi, target)
    case Branch(cond, thenBb, elseBb) =>
      && OpIn(f, defined, cond)
      && EdgeOk(f, avail, defined, bi, thenBb)
      && EdgeOk(f, avail, defined, bi, elseBb)
  }

  predicate BlockOk(p: Program, f: Function, avail: seq<set<nat>>, bi: nat)
    requires bi < |f.blocks| && bi < |avail|
  {
    var start := avail[bi] + PhiResults(f.blocks[bi].phis);
    && InstrsOk(p, f, start, f.blocks[bi].instrs)
    && TermOk(f, avail, DefinedAfter(f, start, f.blocks[bi].instrs), bi, f.blocks[bi].term)
  }

  function ParamLocals(params: seq<Param>): set<nat> {
    if params == [] then {} else {params[0].local} + ParamLocals(params[1..])
  }

  /** `avail` witnesses, for each block, locals defined on every path that reaches it. */
  ghost predicate Certified(p: Program, f: Function, avail: seq<set<nat>>) {
    && |f.blocks| > 0 && |avail| == |f.blocks|
    && f.blocks[0].phis == []
    && avail[0] == ParamLocals(f.params)
    && (forall i :: 0 <= i < |f.params| ==>
          && f.params[i].local < |f.types| && f.types[f.params[i].local] == AbiTy(f.params[i])
          && (CertainLocal(f, f.params[i].local) ==> f.params[i].certain))
    && (forall bi :: 0 <= bi < |f.blocks| ==> BlockOk(p, f, avail, bi))
  }

  /** A check of this operand can not fail. */
  predicate Sure(f: Function, op: Operand) {
    match op
    case Const(lit) => !lit.LNothing?
    case Local(l) => IsScalar(LocalTy(f, l)) || CertainLocal(f, l)
  }

  predicate ChecksSure(f: Function) {
    forall i, k :: 0 <= i < |f.blocks| && 0 <= k < |f.blocks[i].instrs| && f.blocks[i].instrs[k].CertainCheck? ==>
      Sure(f, f.blocks[i].instrs[k].op)
  }

  /** The same function with another type map, which the interpreter does not look at. */
  predicate SameBody(f: Function, g: Function) {
    |g.types| == |f.types| && g == f.(types := g.types)
  }

  /** A compiled function obeys its own type map, and the checks left out of it can not fail; for a function
      that stays interpreted any type map will do. */
  ghost predicate WellFormed(p: Program, f: Function) {
    if Compile(p, f).Some? then ChecksSure(f) && exists avail :: Certified(p, f, avail)
    else exists g, avail :: SameBody(f, g) && Certified(p, g, avail)
  }

  /** The one law of IEEE conversion relied on: only the integer 0 converts to zero. */
  ghost predicate HostOk(h: Host) {
    forall n: i64 :: n == 0 <==> h.compare(CEq, h.fromInt(n), FLOAT_ZERO)
  }

  ghost predicate WellFormedProgram(p: Program) {
    && HostOk(p.host)
    && forall i :: 0 <= i < |p.functions| ==> WellFormed(p, p.functions[i])
  }

  // ----- typed frames -----

  ghost predicate FrameOk(f: Function, defined: set<nat>, frame: Frame) {
    && |frame| == |f.types|
    && forall l :: l in defined ==> l < |f.types| && HasTy(frame[l], f.types[l])
  }

  lemma OperandHasTy(f: Function, defined: set<nat>, frame: Frame, op: Operand)
    requires FrameOk(f, defined, frame) && OpIn(f, defined, op)
    ensures HasTy(EvalOperand(frame, op), OperandTy(f, op))
  {
  }

  lemma PowerHasTy(h: Host, l: Operand, r: Operand, a: i64, b: i64, ty: MirTy)
    requires l.Const? && l.lit.LInt? ==> a == l.lit.n
    requires r.Const? && r.lit.LInt? ==> b == r.lit.n
    requires Boxed(ty) || (ty == TInteger && IntegerPower(l, r)) || (ty == TFloat && ReciprocalPower(l, r))
    requires IntPower(h, a, b).Done?
    ensures HasTy(IntPower(h, a, b).v, ty)
  {
  }

  /** A well-typed right-hand side evaluates to a value of its destination's type, or raises. */
  lemma RvalueHasTy(h: Host, f: Function, defined: set<nat>, frame: Frame, rhs: Rvalue, ty: MirTy)
    requires FrameOk(f, defined, frame) && RvalueIn(f, defined, rhs) && RvalueTyped(f, rhs, ty)
    requires EvalRvalue(h, frame, rhs).Done?
    ensures HasTy(EvalRvalue(h, frame, rhs).v, ty)
  {
    match rhs
    case Literal(lit) =>
    case Use(op) => OperandHasTy(f, defined, frame, op);
    case Unary(op, x) => OperandHasTy(f, defined, frame, x);
    case Binary(op, l, r) =>
      OperandHasTy(f, defined, frame, l);
      OperandHasTy(f, defined, frame, r);
      var a, b := EvalOperand(frame, l), EvalOperand(frame, r);
      if !Boxed(ty) {
        if op == Pow && a.VInt? && b.VInt? {
          PowerHasTy(h, l, r, a.n, b.n, ty);
        }
      }
  }
}
