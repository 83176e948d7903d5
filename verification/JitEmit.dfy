// The lowering itself: what code `try_compile_native` emits for a MIR function, or that it gives up
// (crates/fidan-codegen-cranelift/src/jit.rs).

module JitEmit {
  import opened Arithmetic
  import opened Options
  import opened Mir
  import opened Clif

  function ClTyOf(ty: MirTy): ClTy {
    match ty
    case TFloat => F64
    case TBoolean => I8
    case _ => I64
  }

  function LocalTy(f: Function, l: nat): MirTy {
    if l < |f.types| then f.types[l] else TDynamic
  }

  /** The type the raw ABI sees; a string constant has none, since loading cannot materialize it. */
  function JitOperandType(f: Function, op: Operand): Option<MirTy> {
    match op
    case Local(l) => if l < |f.types| then Some(f.types[l]) else None
    case Const(LStr(_)) => None
    case Const(lit) => Some(LitTy(lit))
  }

  datatype Kind = KInteger | KFloat | KBoolean

  function ScalarKind(f: Function, op: Operand): Option<Kind> {
    match JitOperandType(f, op)
    case Some(TInteger) => Some(KInteger)
    case Some(TFloat) => Some(KFloat)
    case Some(TBoolean) => Some(KBoolean)
    case _ => None
  }

  // ----- straight-line fragments -----

  /** Code that leaves its result in value `res` of type `ty`; `next` is the first unused value id. */
  datatype Frag = Frag(code: seq<Inst>, next: nat, res: nat, ty: ClTy)

  function One(n: nat, op: Op, ty: ClTy): Frag {
    Frag([Let(n, op)], n + 1, n, ty)
  }

  function Same(n: nat, v: nat, ty: ClTy): Frag {
    Frag([], n, v, ty)
  }

  /** `first`, then one more operation. */
  function Then(first: Frag, op: Op, ty: ClTy): Frag {
    Frag(first.code + [Let(first.next, op)], first.next + 1, first.next, ty)
  }

  function LoadLit(n: nat, lit: Lit): Frag {
    match lit
    case LInt(k) => One(n, Iconst(I64, k), I64)
    case LFloat(bits) => One(n, F64const(bits), F64)
    case LBool(b) => One(n, Iconst(I8, if b then 1 else 0), I8)
    case _ => One(n, Iconst(I64, 0), I64)
  }

  function LoadOperand(f: Function, n: nat, op: Operand): Frag {
    match op
    case Local(l) => One(n, UseVar(l), ClTyOf(LocalTy(f, l)))
    case Const(lit) => LoadLit(n, lit)
  }

  function EnsureI64(n: nat, v: nat, ty: ClTy): Frag {
    match ty
    case I64 => Same(n, v, I64)
    case I8 => One(n, UExtend(v), I64)
    case F64 => One(n, FcvtToSint(v), I64)
  }

  function EnsureF64(n: nat, v: nat, ty: ClTy): Frag {
    match ty
    case F64 => Same(n, v, F64)
    case I8 => Then(One(n, UExtend(v), I64), FcvtFromUint(n), F64)
    case I64 => One(n, FcvtFromSint(v), F64)
  }

  function AbiToNative(n: nat, raw: nat, ty: MirTy): Frag {
    match ty
    case TFloat => One(n, BitsToFloat(raw), F64)
    case TBoolean => One(n, IReduce(raw), I8)
    case _ => Same(n, raw, I64)
  }

  function NativeToAbi(n: nat, v: nat, vty: ClTy, ty: MirTy): Frag {
    match ty
    case TFloat => One(n, FloatToBits(v), I64)
    case TBoolean => One(n, UExtend(v), I64)
    case _ => EnsureI64(n, v, vty)
  }

  // ----- boxing -----

  function BoxLit(n: nat, lit: Lit): Frag {
    match lit
    case LInt(_) => Then(LoadLit(n, lit), CallRt(BoxInt, [n]), I64)
    case LFloat(_) => Then(LoadLit(n, lit), CallRt(BoxFloat, [n]), I64)
    case LBool(_) => Then(LoadLit(n, lit), CallRt(BoxBool, [n]), I64)
    case LStr(s) => One(n, CallRt(BoxStr(s), []), I64)
    case LNothing => One(n, CallRt(BoxNothing, []), I64)
  }

  /** The runtime call that boxes a value of this type; a boxed type needs none. */
  function BoxingOp(ty: MirTy, v: nat): Option<Op> {
    match ty
    case TInteger => Some(CallRt(BoxInt, [v]))
    case TFloat => Some(CallRt(BoxFloat, [v]))
    case TBoolean => Some(CallRt(BoxBool, [v]))
    case THandle => Some(CallRt(BoxHandle, [v]))
    case TNothing => Some(CallRt(BoxNothing, []))
    case _ => None
  }

  function BoxOperand(f: Function, n: nat, op: Operand): Frag {
    match op
    case Const(lit) => BoxLit(n, lit)
    case Local(l) =>
      var load := LoadOperand(f, n, op);
      match BoxingOp(LocalTy(f, l), load.res)
      case Some(boxing) => Then(load, boxing, I64)
      case None => load
  }

  // ----- operators -----

  function IntegerRuntime(op: BinOp): Option<Rt> {
    match op
    case Add => Some(IntAdd)
    case Sub => Some(IntSub)
    case Mul => Some(IntMul)
    case Div => Some(IntDiv)
    case Rem => Some(IntRem)
    case Pow => Some(IntPow)
    case _ => None
  }

  function FloatInstruction(op: BinOp): Option<FloatOp> {
    match op
    case Add => Some(FAdd)
    case Sub => Some(FSub)
    case Mul => Some(FMul)
    case _ => None
  }

  function CoerceToDest(n: nat, v: nat, ty: ClTy, destTy: MirTy): Frag {
    if destTy == TFloat then EnsureF64(n, v, ty)
    else if destTy == TInteger then EnsureI64(n, v, ty)
    else Same(n, v, ty)
  }

  /** Two coerced operands: the code for both, and where they end up. */
  datatype Pair = Pair(code: seq<Inst>, next: nat, a: nat, b: nat)

  function Both(a: Frag, b: Frag): Pair {
    Pair(a.code + b.code, b.next, a.res, b.res)
  }

  function PairThen(pair: Pair, op: Op, ty: ClTy): Frag {
    Frag(pair.code + [Let(pair.next, op)], pair.next + 1, pair.next, ty)
  }

  function EmitCompare(n: nat, c: Cmp, lv: nat, lty: ClTy, rv: nat, rty: ClTy): Frag {
    if lty == F64 || rty == F64 then
      var a := EnsureF64(n, lv, lty);
      var pair := Both(a, EnsureF64(a.next, rv, rty));
      PairThen(pair, Fcmp(c, pair.a, pair.b), I8)
    else
      var a := EnsureI64(n, lv, lty);
      var pair := Both(a, EnsureI64(a.next, rv, rty));
      PairThen(pair, Icmp(c, pair.a, pair.b), I8)
  }

  function EmitLogic(n: nat, op: BinOp, lv: nat, lty: ClTy, rv: nat, rty: ClTy): Frag {
    var a := EnsureI64(n, lv, lty);
    var pair := Both(a, EnsureI64(a.next, rv, rty));
    var wide := PairThen(pair, if op == And then Band(pair.a, pair.b) else Bor(pair.a, pair.b), I64);
    Then(wide, IReduce(wide.res), I8)
  }

  function EmitBinop(n: nat, op: BinOp, lv: nat, lty: ClTy, rv: nat, rty: ClTy, destTy: MirTy): Option<Frag> {
    var a := CoerceToDest(n, lv, lty, destTy);
    var pair := Both(a, CoerceToDest(a.next, rv, rty, destTy));
    if destTy == TInteger && IntegerRuntime(op).Some? then
      Some(PairThen(pair, CallRt(IntegerRuntime(op).value, [pair.a, pair.b]), I64))
    else if destTy == TFloat && FloatInstruction(op).Some? then
      Some(PairThen(pair, FArith(FloatInstruction(op).value, pair.a, pair.b), F64))
    else if destTy == TFloat && op == Div then
      Some(PairThen(pair, CallRt(FloatDiv, [pair.a, pair.b]), F64))
    else if IsComparison(op) then
      var cmp := EmitCompare(pair.next, CmpOf(op), lv, lty, rv, rty);
      Some(cmp.(code := pair.code + cmp.code))
    else if op == BitXor && lty == I64 && rty == I64 then
      Some(PairThen(pair, Bxor(lv, rv), I64))
    else if op in {And, Or} then
      var logic := EmitLogic(pair.next, op, lv, lty, rv, rty);
      Some(logic.(code := pair.code + logic.code))
    else None
  }

  function EmitUnop(n: nat, op: UnOp, v: nat, vty: ClTy): Option<Frag> {
    match op
    case Neg => if vty == F64 then Some(One(n, FNeg(v), F64)) else Some(One(n, CallRt(IntNeg, [v]), I64))
    case Not =>
      var wide := EnsureI64(n, v, vty);
      var zero := Then(wide, Iconst(I64, 0), I64);
      Some(Then(zero, Icmp(CEq, wide.res, zero.res), I8))
    case Pos => None
  }

  predicate ValidKinds(op: BinOp, left: Kind, right: Kind) {
    match op
    case BitXor => left == KInteger && right == KInteger
    case And | Or => left == KBoolean && right == KBoolean
    case _ =>
      if op in {Eq, NotEq} && left == KBoolean then right == KBoolean
      else left != KBoolean && right != KBoolean
  }

  /** The operator's code after the code that loaded its operands. */
  function Prefixed(pre: seq<Inst>, frag: Option<Frag>): Option<Frag> {
    match frag
    case Some(tail) => Some(tail.(code := pre + tail.code))
    case None => None
  }

  function EmitBinary(f: Function, n: nat, op: BinOp, lhs: Operand, rhs: Operand, destTy: MirTy): Option<Frag> {
    var left, right := ScalarKind(f, lhs), ScalarKind(f, rhs);
    if left.None? || right.None? || !ValidKinds(op, left.value, right.value) then None
    else
      var l := LoadOperand(f, n, lhs);
      var r := LoadOperand(f, l.next, rhs);
      Prefixed(l.code + r.code, EmitBinop(r.next, op, l.res, l.ty, r.res, r.ty, destTy))
  }

  function EmitUnary(f: Function, n: nat, op: UnOp, x: Operand): Option<Frag> {
    var ty := JitOperandType(f, x);
    if op == Not && ty.Some? && !IsScalar(ty.value) then
      var boxed := BoxOperand(f, n, x);
      Some(Then(boxed, CallRt(NotBool, [boxed.res]), I8))
    else
      var kind := ScalarKind(f, x);
      if kind.None? || (op == Not) != (kind.value == KBoolean) then None
      else
        var v := LoadOperand(f, n, x);
        Prefixed(v.code, EmitUnop(v.next, op, v.res, v.ty))
  }

  function EmitRvalue(f: Function, n: nat, rhs: Rvalue, destTy: MirTy): Option<Frag> {
    match rhs
    case Literal(lit) => Some(if IsScalar(destTy) then LoadLit(n, lit) else BoxLit(n, lit))
    case Use(op) => Some(if IsScalar(destTy) then LoadOperand(f, n, op) else BoxOperand(f, n, op))
    case Binary(op, lhs, rhs) => EmitBinary(f, n, op, lhs, rhs, destTy)
    case Unary(op, x) => EmitUnary(f, n, op, x)
  }

  predicate MayFail(rhs: Rvalue) {
    rhs.Binary? || (rhs.Unary? && rhs.uop != Pos)
  }

  // ----- operand lists -----

  datatype Args = Args(code: seq<Inst>, next: nat, ids: seq<nat>)

  function AbiOperandTy(f: Function, op: Operand): MirTy {
    match op
    case Local(l) => LocalTy(f, l)
    case Const(LInt(_)) => TInteger
    case Const(LFloat(_)) => TFloat
    case Const(LBool(_)) => TBoolean
    case _ => TDynamic
  }

  function OperandToAbi(f: Function, n: nat, op: Operand): Frag {
    var load := LoadOperand(f, n, op);
    var raw := NativeToAbi(load.next, load.res, load.ty, AbiOperandTy(f, op));
    raw.(code := load.code + raw.code)
  }

  /** The raw argument array of a call. */
  function EmitArgs(f: Function, n: nat, args: seq<Operand>): Args
    decreases |args|
  {
    if args == [] then Args([], n, [])
    else
      var before := EmitArgs(f, n, args[..|args| - 1]);
      var last := OperandToAbi(f, before.next, args[|args| - 1]);
      Args(before.code + last.code, last.next, before.ids + [last.res])
  }

  function CoercePhi(n: nat, v: nat, ty: ClTy, expected: ClTy): Frag {
    match (ty, expected)
    case (I8, F64) => EnsureF64(n, v, ty)
    case (I64, F64) => EnsureF64(n, v, ty)
    case (F64, I64) => One(n, FloatToBits(v), I64)
    case (I8, I64) => One(n, UExtend(v), I64)
    case (I64, I8) => One(n, IReduce(v), I8)
    case _ => Same(n, v, ty)
  }

  /** The block arguments for the edge from `src` into a block with these phis. */
  function CollectPhiArgs(f: Function, n: nat, src: nat, phis: seq<Phi>): Args
    decreases |phis|
  {
    if phis == [] then Args([], n, [])
    else
      var before := CollectPhiArgs(f, n, src, phis[..|phis| - 1]);
      var phi := phis[|phis| - 1];
      match Incoming(phi.incoming, src)
      case None => before
      case Some(op) =>
        var load := LoadOperand(f, before.next, op);
        var arg := CoercePhi(load.next, load.res, load.ty, ClTyOf(LocalTy(f, phi.result)));
        Args(before.code + load.code + arg.code, arg.next, before.ids + [arg.res])
  }

  // ----- the function builder -----

  datatype Builder = Builder(blocks: seq<TBlock>, cur: nat, next: nat)

  predicate CurOpen(b: Builder) {
    b.cur < |b.blocks| && b.blocks[b.cur].term.None?
  }

  function Append(b: Builder, code: seq<Inst>, next: nat): Builder
    requires CurOpen(b)
  {
    b.(blocks := b.blocks[b.cur := b.blocks[b.cur].(body := b.blocks[b.cur].body + code)], next := next)
  }

  function Terminate(b: Builder, term: Term): Builder
    requires CurOpen(b)
  {
    b.(blocks := b.blocks[b.cur := b.blocks[b.cur].(term := Some(term))])
  }

  /** Test the exception slot: on a pending exception return 0 at once, else continue in a new block. */
  function ExceptionCheck(b: Builder): Builder
    requires CurOpen(b)
  {
    var failure, success := |b.blocks|, |b.blocks| + 1;
    var tested := Terminate(Append(b, [Let(b.next, CallRt(HasException, []))], b.next + 1),
                            Brif(b.next, failure, [], success, []));
    Builder(
      tested.blocks
      + [TBlock([], [Let(b.next + 1, Iconst(I64, 0))], Some(Ret(b.next + 1)))]
      + [TBlock([], [], None)],
      success, b.next + 2)
  }

  function DefResult(b: Builder, frag: Frag, dest: Option<nat>): Builder
    requires CurOpen(b)
  {
    Append(b, frag.code + (if dest.Some? then [DefVar(dest.value, frag.res)] else []), frag.next)
  }

  function DestTy(f: Function, dest: Option<nat>): MirTy {
    if dest.Some? then LocalTy(f, dest.value) else TNothing
  }

  /** Arguments, the raw call, and the conversion of its result to the destination's type. */
  function EmitCall(f: Function, n: nat, callee: nat, args: seq<Operand>, destTy: MirTy): (seq<Inst>, Inst, Frag) {
    var raws := EmitArgs(f, n, args);
    (raws.code, Let(raws.next, CallFn(callee, raws.ids)), AbiToNative(raws.next + 1, raws.next, destTy))
  }

  function EmitInstr(p: Program, f: Function, b: Builder, instr: Instr): (r: Option<Builder>)
    requires CurOpen(b)
    ensures r.Some? ==> CurOpen(r.value)
  {
    match instr
    case Assign(dest, rhs) =>
      (match EmitRvalue(f, b.next, rhs, LocalTy(f, dest))
       case None => None
       case Some(frag) =>
         var stored := DefResult(b, frag, Some(dest));
         Some(if MayFail(rhs) then ExceptionCheck(stored) else stored))
    case Call(dest, callee, args) =>
      var (before, call, after) := EmitCall(f, b.next, callee, args, DestTy(f, dest));
      Some(ExceptionCheck(DefResult(Append(b, before + [call], call.dst + 1), after, dest)))
    case LoadGlobal(dest, g) =>
      var native := AbiToNative(b.next + 1, b.next, LocalTy(f, dest));
      Some(DefResult(b, native.(code := [Let(b.next, LoadGlobalRaw(g))] + native.code), Some(dest)))
    case StoreGlobal(g, op) =>
      var load := LoadOperand(f, b.next, op);
      var raw := NativeToAbi(load.next, load.res, load.ty, GlobalTy(p, g));
      Some(Append(b, load.code + raw.code + [StoreGlobalRaw(g, raw.res)], raw.next))
    case CertainCheck(_) => Some(b)
    case Nop => Some(b)
  }

  function EmitInstrs(p: Program, f: Function, b: Builder, instrs: seq<Instr>): (r: Option<Builder>)
    requires CurOpen(b)
    ensures r.Some? ==> CurOpen(r.value)
    decreases |instrs|
  {
    if instrs == [] then Some(b)
    else
      match EmitInstr(p, f, b, instrs[0])
      case None => None
      case Some(b1) => EmitInstrs(p, f, b1, instrs[1..])
  }

  function PhisOf(f: Function, target: nat): seq<Phi> {
    if target < |f.blocks| then f.blocks[target].phis else []
  }

  function CondFlag(f: Function, n: nat, cond: Operand): Frag {
    match JitOperandType(f, cond)
    case Some(TFloat) =>
      var v := LoadOperand(f, n, cond);
      var zero := Then(v, F64const(FLOAT_ZERO), F64);
      Then(zero, Fcmp(CNe, v.res, zero.res), I8)
    case Some(ty) =>
      if IsScalar(ty) then LoadOperand(f, n, cond)
      else
        var boxed := BoxOperand(f, n, cond);
        Then(boxed, CallRt(IsTruthy, [boxed.res]), I8)
    case None =>
      var boxed := BoxOperand(f, n, cond);
      Then(boxed, CallRt(IsTruthy, [boxed.res]), I8)
  }

  function EmitTerm(f: Function, b: Builder, bi: nat, term: Terminator): Option<Builder>
    requires CurOpen(b)
  {
    match term
    case Return(None) =>
      Some(Terminate(Append(b, [Let(b.next, Iconst(I64, 0))], b.next + 1), Ret(b.next)))
    case Return(Some(op)) =>
      var load := LoadOperand(f, b.next, op);
      var raw := NativeToAbi(load.next, load.res, load.ty, f.returnTy);
      Some(Terminate(Append(b, load.code + raw.code, raw.next), Ret(raw.res)))
    case Goto(target) =>
      var args := CollectPhiArgs(f, b.next, bi, PhisOf(f, target));
      Some(Terminate(Append(b, args.code, args.next), Jump(target, args.ids)))
    case Branch(cond, thenBb, elseBb) =>
      var flag := CondFlag(f, b.next, cond);
      var thenArgs := CollectPhiArgs(f, flag.next, bi, PhisOf(f, thenBb));
      var elseArgs := CollectPhiArgs(f, thenArgs.next, bi, PhisOf(f, elseBb));
      Some(Terminate(Append(b, flag.code + thenArgs.code + elseArgs.code, elseArgs.next),
                     Brif(flag.res, thenBb, thenArgs.ids, elseBb, elseArgs.ids)))
    case Throw(_) => None
  }

  /** Binding a block's parameters to the phi variables, in order. */
  function DefPhis(phis: seq<Phi>, params: seq<(nat, ClTy)>): seq<Inst>
    requires |phis| == |params|
  {
    seq(|phis|, i requires 0 <= i < |phis| => DefVar(phis[i].result, params[i].0))
  }

  /** Binding the entry block's raw arguments to the parameter variables. */
  function BindArgs(params: seq<Param>, n: nat): Args
    decreases |params|
  {
    if params == [] then Args([], n, [])
    else
      var k := |params| - 1;
      var before := BindArgs(params[..k], n);
      var native := AbiToNative(before.next, k, AbiTy(params[k]));
      Args(before.code + native.code + [DefVar(params[k].local, native.res)], native.next, [])
  }

  function PhiParams(f: Function, phis: seq<Phi>, n: nat): seq<(nat, ClTy)> {
    seq(|phis|, i requires 0 <= i < |phis| => (n + i, ClTyOf(LocalTy(f, phis[i].result))))
  }

  /** The blocks created up front, one for each MIR block. */
  function Heads(f: Function, k: nat): (r: (seq<TBlock>, nat))
    requires k <= |f.blocks|
    ensures |r.0| == k
    ensures forall i :: 0 <= i < k ==> r.0[i].body == [] && r.0[i].term.None?
    ensures forall i :: 1 <= i < k ==> |r.0[i].params| == |f.blocks[i].phis|
  {
    if k == 0 then ([], 0)
    else
      var (before, n) := Heads(f, k - 1);
      if k == 1 then
        ([TBlock(seq(|f.params|, i => (i, I64)), [], None)], |f.params|)
      else
        (before + [TBlock(PhiParams(f, f.blocks[k - 1].phis, n), [], None)], n + |f.blocks[k - 1].phis|)
  }

  /** Blocks not yet reached are still empty, and keep the parameters made for their phis. */
  predicate Pending(f: Function, b: Builder, bi: nat) {
    && |b.blocks| >= |f.blocks|
    && (forall i :: bi <= i < |f.blocks| ==> b.blocks[i].body == [] && b.blocks[i].term.None?)
    && (forall i :: bi <= i < |f.blocks| && 1 <= i ==> |b.blocks[i].params| == |f.blocks[i].phis|)
  }

  function StartBlock(f: Function, b: Builder, bi: nat): (r: Builder)
    requires bi < |f.blocks| && Pending(f, b, bi)
    ensures CurOpen(r)
  {
    var here := b.(cur := bi);
    if bi == 0 then
      var bind := BindArgs(f.params, b.next);
      Append(here, bind.code, bind.next)
    else
      Append(here, DefPhis(f.blocks[bi].phis, b.blocks[bi].params), b.next)
  }

  function EmitBlock(p: Program, f: Function, b: Builder, bi: nat): Option<Builder>
    requires bi < |f.blocks| && Pending(f, b, bi)
  {
    match EmitInstrs(p, f, StartBlock(f, b, bi), f.blocks[bi].instrs)
    case None => None
    case Some(b1) => EmitTerm(f, b1, bi, f.blocks[bi].term)
  }

  // Filling one block leaves the blocks still to come alone.

  predicate Untouched(b: Builder, b': Builder) {
    && |b.blocks| <= |b'.blocks|
    && (forall i :: 0 <= i < |b.blocks| && i != b.cur ==> b'.blocks[i] == b.blocks[i])
    && (b'.cur == b.cur || b'.cur >= |b.blocks|)
  }

  lemma InstrTouches(p: Program, f: Function, b: Builder, instr: Instr)
    requires CurOpen(b) && EmitInstr(p, f, b, instr).Some?
    ensures Untouched(b, EmitInstr(p, f, b, instr).value)
  {
  }

  lemma {:induction false} InstrsTouch(p: Program, f: Function, b: Builder, instrs: seq<Instr>)
    requires CurOpen(b) && EmitInstrs(p, f, b, instrs).Some?
    ensures Untouched(b, EmitInstrs(p, f, b, instrs).value)
    decreases |instrs|
  {
    if instrs != [] {
      InstrTouches(p, f, b, instrs[0]);
      InstrsTouch(p, f, EmitInstr(p, f, b, instrs[0]).value, instrs[1..]);
    }
  }

  lemma TermTouches(f: Function, b: Builder, bi: nat, term: Terminator)
    requires CurOpen(b) && EmitTerm(f, b, bi, term).Some?
    ensures Untouched(b, EmitTerm(f, b, bi, term).value)
  {
  }

  lemma StartTouches(f: Function, b: Builder, bi: nat)
    requires bi < |f.blocks| && Pending(f, b, bi)
    ensures Untouched(b.(cur := bi), StartBlock(f, b, bi)) && StartBlock(f, b, bi).cur == bi
  {
  }

  lemma BlockKeepsPending(p: Program, f: Function, b: Builder, bi: nat)
    requires bi < |f.blocks| && Pending(f, b, bi) && EmitBlock(p, f, b, bi).Some?
    ensures Pending(f, EmitBlock(p, f, b, bi).value, bi + 1)
  {
    hide StartBlock, EmitInstrs, EmitTerm;
    var start := StartBlock(f, b, bi);
    var filled := EmitInstrs(p, f, start, f.blocks[bi].instrs).value;
    StartTouches(f, b, bi);
    InstrsTouch(p, f, start, f.blocks[bi].instrs);
    TermTouches(f, filled, bi, f.blocks[bi].term);
  }

  function EmitBlocks(p: Program, f: Function, b: Builder, bi: nat): Option<Builder>
    requires bi <= |f.blocks| && Pending(f, b, bi)
    decreases |f.blocks| - bi
  {
    if bi == |f.blocks| then Some(b)
    else
      match EmitBlock(p, f, b, bi)
      case None => None
      case Some(b1) =>
        BlockKeepsPending(p, f, b, bi);
        EmitBlocks(p, f, b1, bi + 1)
  }

  // ----- eligibility -----

  predicate PhiEligible(f: Function, phi: Phi) {
    forall i :: 0 <= i < |phi.incoming| ==> JitOperandType(f, phi.incoming[i].1) == Some(LocalTy(f, phi.result))
  }

  predicate InstrEligible(p: Program, f: Function, instr: Instr) {
    match instr
    case Call(_, callee, args) =>
      && callee < |p.functions|
      && |args| == |p.functions[callee].params|
      && forall i :: 0 <= i < |args| ==> JitOperandType(f, args[i]) == Some(AbiTy(p.functions[callee].params[i]))
    case StoreGlobal(g, op) =>
      g < |p.globals| && JitOperandType(f, op) == Some(p.globals[g])
    case _ => true
  }

  predicate BlockEligible(p: Program, f: Function, block: Block) {
    && (forall i :: 0 <= i < |block.phis| ==> PhiEligible(f, block.phis[i]))
    && (forall i :: 0 <= i < |block.instrs| ==> InstrEligible(p, f, block.instrs[i]))
    && (block.term.Return? && block.term.value.Some? ==>
          JitOperandType(f, block.term.value.value) == Some(f.returnTy))
  }

  predicate Eligible(p: Program, f: Function) {
    forall i :: 0 <= i < |f.blocks| ==> BlockEligible(p, f, f.blocks[i])
  }

  function InitialBuilder(f: Function): (b: Builder)
    ensures Pending(f, b, 0)
  {
    var (blocks, n) := Heads(f, |f.blocks|);
    Builder(blocks, 0, n)
  }

  /** None means the function keeps running in the interpreter. */
  function Compile(p: Program, f: Function): Option<TFunc> {
    if !Eligible(p, f) then None
    else
      match EmitBlocks(p, f, InitialBuilder(f), 0)
      case None => None
      case Some(b) => Some(TFunc(seq(|f.types|, i requires 0 <= i < |f.types| => ClTyOf(f.types[i])), |f.blocks|,
          b.blocks))
  }
}
