// Small whole programs that the theorems leave out, and exactly when compiling them changes the outcome.

module Divergence {
  import opened Arithmetic
  import opened Options
  import opened Mir
  import opened AbiScope
  import opened Clif
  import opened JitEmit
  import opened Typing
  import opened Tiers
  import opened Fragments
  import opened Operators
  import opened Rvalues
  import opened States
  import opened Points
  import opened SafeRuns
  import opened NativeSteps
  import opened Edges
  import opened Preservation
  import opened Acceptance
  import opened Limits

  /** A program whose first function is called on a fresh machine and compiled at that call. */
  function Compiling(functions: seq<Function>, globals: seq<MirTy>, h: Host): Config {
    Config(Program(functions, globals, h), 2, 1)
  }

  function Fresh(functions: seq<Function>, globals: seq<Value>): Machine {
    Machine(globals, Scope(0, 0, [], map[], 1, []), None, None,
            seq(|functions|, i => Tier(if i == 0 then 1 else 0, false)))
  }

  /** Both tiers of the first function end alike. */
  ghost predicate TiersAgree(c: Config, args: seq<Value>, m: Machine) {
    CallFunction(c, 2, 0, args, m).0 == CallFunction(c.(threshold := 0), 2, 0, args, m).0
  }

  /** What a caller sees of a native run. */
  function OutcomeOf(end: NativeEnd, ty: MirTy): Outcome {
    match end
    case Stuck => Undefined
    case OutOfFuel => Timeout
    case Returned(w, m) =>
      match Decode(m.scope, w, ty)
      case None => Undefined
      case Some(v) => TakeException(v, m).0
  }

  lemma CompiledCall(functions: seq<Function>, globals: seq<MirTy>, h: Host, args: seq<Value>, m: Machine)
      returns (encoded: Machine, words: seq<Word>)
    requires functions != [] && m == Fresh(functions, m.globals).(tiers := m.tiers)
    requires |m.tiers| == |functions| && m.tiers[0] == Tier(1, false)
    requires var c := Compiling(functions, globals, h);
             Compile(c.program, functions[0]).Some? && Prepare(h, functions[0].params, args) == Ready(args)
    requires |args| <= |functions[0].params|
    requires forall i :: 0 <= i < |args| ==> HasTy(args[i], AbiTy(functions[0].params[i]))
    ensures var c := Compiling(functions, globals, h);
            && encoded.globals == m.globals && encoded.exc == None && encoded.sig == None
            && encoded.tiers == m.tiers[0 := Tier(2, true)]
            && Ok(encoded.scope) && encoded.scope.depth == 1
            && |words| == |args|
            && (forall i :: 0 <= i < |args| ==>
                  EncodedAs(encoded.scope, words[i], args[i], AbiTy(functions[0].params[i])))
            && CallFunction(c, 2, 0, args, m).0
                == OutcomeOf(RunNativeFunction(c, 1, Compile(c.program, functions[0]).value, words, encoded),
                    functions[0].returnTy)
            && CallFunction(c.(threshold := 0), 2, 0, args, m)
                == Interpret(c.(threshold := 0), 1, functions[0], args, m)
  {
    hide Compile, RunNativeFunction, EncodeArgs, Prepare, Interpret, EncodedAs, AbiTy;
    var c, f := Compiling(functions, globals, h), functions[0];
    var inScope := m.(scope := Enter(m.scope.(context := 1)), tiers := m.tiers[0 := Tier(2, true)]);
    assert ChooseTier(c, 0, m) == (true, m.(tiers := m.tiers[0 := Tier(2, true)]));
    ArgsEncoded(f.params, args, inScope);
    var done := EncodeArgs(f.params, args, inScope);
    encoded, words := done.0, done.1;
  }

  // ----- functions of one block -----

  /** The rest of the only block is emitted at `b`, and the finished code contains it. */
  ghost predicate Emits(p: Program, f: Function, code: TFunc, b: Builder, instrs: seq<Instr>, term: Terminator) {
    && CurOpen(b) && code.varTypes == VarTypes(f) && code.heads <= |b.blocks|
    && EmitInstrs(p, f, b, instrs).Some?
    && EmitTerm(f, EmitInstrs(p, f, b, instrs).value, 0, term).Some?
    && Grows(EmitTerm(f, EmitInstrs(p, f, b, instrs).value, 0, term).value.blocks, code.blocks)
  }

  lemma BlockStarts(c: Config, depth: nat, f: Function, code: TFunc, args: seq<Value>, words: seq<Word>, m: Machine)
      returns (b: Builder, r: Regs)
    requires Compile(c.program, f) == Some(code) && f.blocks != [] && |words| == |args| == |f.params|
    requires forall i :: 0 <= i < |f.params| ==>
        f.params[i].local < |f.types| && f.types[f.params[i].local] == AbiTy(f.params[i])
    requires forall i :: 0 <= i < |args| ==> EncodedAs(m.scope, words[i], args[i], AbiTy(f.params[i]))
    requires Ok(m.scope) && m.scope.depth > 0
    ensures Emits(c.program, f, code, b, f.blocks[0].instrs, f.blocks[0].term)
    ensures RunNativeFunction(c, depth, code, words, m) == At(c, depth, c.limit, code, b, r) && r.m == m
    ensures VarsRel(f, ParamLocals(f.params), EntryFrame(f, args), r.vars, m.scope.heap)
    ensures VarsSafe(f.types, r.vars, m.scope)
  {
    hide RunCode, EncodedAs, Compile, ExecCode, Grows, EmitBlock, Eligible, BindParams, AbiTy, HeadsOk, ParamLocals,
        VarsSafe, Ok, EmitInstrs, EmitTerm, RunNativeFunction, Represents;
    var p := c.program;
    var at := CompiledBlock(p, f, code, 0);
    b := StartBlock(f, at, 0);
    BlockParts(p, f, code, at);
    var env := EntryEnv(f, code.blocks[0].params, words);
    var r0 := Regs(env, InitialVars(code.varTypes), m);
    var empty := seq(|f.types|, i => VNothing);
    InitialSafe(f, m.scope);
    r := BindArgsRun(p, f, f.params, at.next, words, args, {}, empty, r0);
    var bind := BindArgs(f.params, at.next);
    RunAppended(c, depth, c.limit, code, at.(cur := 0), bind.code, bind.next, r0, r);
    CompiledEntryAt(c, depth, f, code, words, m, env);
    assert {} + ParamLocals(f.params) == ParamLocals(f.params);
  }

  lemma BlockParts(p: Program, f: Function, code: TFunc, at: Builder)
    requires f.blocks != [] && Pending(f, at, 0) && EmitBlock(p, f, at, 0).Some?
    requires Grows(EmitBlock(p, f, at, 0).value.blocks, code.blocks)
    requires code.varTypes == VarTypes(f) && HeadsOk(f, code)
    ensures Emits(p, f, code, StartBlock(f, at, 0), f.blocks[0].instrs, f.blocks[0].term)
    ensures Grows(StartBlock(f, at, 0).blocks, code.blocks) && code.blocks != []
  {
    hide EmitTerm, EmitInstrs, Grows, StartBlock;
    var start := StartBlock(f, at, 0);
    var filled := EmitInstrs(p, f, start, f.blocks[0].instrs).value;
    var last := EmitTerm(f, filled, 0, f.blocks[0].term).value;
    StartLength(f, at, 0);
    InstrsGrow(p, f, start, f.blocks[0].instrs);
    TermGrows(f, filled, 0, f.blocks[0].term);
    GrowsTrans(start.blocks, filled.blocks, last.blocks);
    GrowsTrans(start.blocks, last.blocks, code.blocks);
  }

  predicate NoCalls(code: seq<Inst>) {
    forall i :: 0 <= i < |code| ==> !(code[i].Let? && code[i].op.CallFn?)
  }

  lemma {:induction false} StraightStuck(c: Config, depth: nat, fuel: nat, code: TFunc, blk: nat, pos: nat,
      insts: seq<Inst>, r: Regs)
    requires blk < |code.blocks| && pos + |insts| <= |code.blocks[blk].body|
    requires code.blocks[blk].body[pos..pos + |insts|] == insts
    requires NoCalls(insts) && ExecCode(c.program, code.varTypes, insts, r) == None
    ensures RunCode(c, depth, fuel, code, blk, pos, r) == Stuck
    decreases |insts|
  {
    hide RunCode, Step;
    if insts != [] {
      var body := code.blocks[blk].body;
      assert body[pos] == insts[0];
      assert body[pos + 1..pos + |insts|] == insts[1..];
      if Step(c.program, code.varTypes, insts[0], r).Some? {
        RunOneStep(c, depth, fuel, code, blk, pos, insts[0], r);
        StraightStuck(c, depth, fuel, code, blk, pos + 1, insts[1..],
            Step(c.program, code.varTypes, insts[0], r).value);
      } else {
        StepStuck(c, depth, fuel, code, blk, pos, r);
      }
    }
  }

  lemma StepStuck(c: Config, depth: nat, fuel: nat, code: TFunc, blk: nat, pos: nat, r: Regs)
    requires blk < |code.blocks| && pos < |code.blocks[blk].body|
    requires !(code.blocks[blk].body[pos].Let? && code.blocks[blk].body[pos].op.CallFn?)
    requires Step(c.program, code.varTypes, code.blocks[blk].body[pos], r) == None
    ensures RunCode(c, depth, fuel, code, blk, pos, r) == Stuck
  {
    hide Step;
  }

  /** The raw word a native value is returned as. */
  function RawOf(mv: MVal): Word {
    match mv
    case M64(w) => w
    case MF(bits) => Num(bits)
    case M8(n) => Num(n)
  }

  /** Code that defines a variable, its exception check if it has one, and the return of the variable. */
  lemma DefinitionEnds(c: Config, depth: nat, fuel: nat, code: TFunc, f: Function, b: Builder, frag: Frag, dest: nat,
      check: bool, r: Regs)
    requires CurOpen(b) && dest < |f.types| && f.types[dest] == f.returnTy && Lets(frag.code)
    requires var stored := DefResult(b, frag, Some(dest));
             Emits(c.program, f, code, if check then ExceptionCheck(stored) else stored, [],
                 Return(Some(Local(dest))))
    requires code.heads <= |b.blocks|
    ensures At(c, depth, fuel, code, b, r) ==
      match Defined(c.program, f, frag.code, dest, frag.res, r)
      case None => Stuck
      case Some((mv, m)) => if check && m.exc.Some? then Returned(Num(0), m) else Returned(RawOf(mv), m)
  {
    hide At, ExecCode, Grows, EmitTerm;
    var stored := DefResult(b, frag, Some(dest));
    var insts := frag.code + [DefVar(dest, frag.res)];
    var b1 := if check then ExceptionCheck(stored) else stored;
    assert stored == Append(b, insts, frag.next);
    TermGrows(f, b1, 0, Return(Some(Local(dest))));
    CheckGrows(stored);
    GrowsSelf(stored.blocks);
    GrowsTrans(b1.blocks, EmitTerm(f, b1, 0, Return(Some(Local(dest)))).value.blocks, code.blocks);
    GrowsTrans(stored.blocks, b1.blocks, code.blocks);
    match ExecCode(c.program, VarTypes(f), insts, r)
    case None => AppendedStuck(c, depth, fuel, code, b, insts, frag.next, r);
    case Some(r1) =>
      DefinedLast(c.program, f, frag.code, dest, frag.res, r, r1);
      RunAppended(c, depth, fuel, code, b, insts, frag.next, r, r1);
      if check {
        RunCheck(c, depth, fuel, code, stored, r1);
      }
      ReturnLocal(c, depth, fuel, code, f, b1, dest, if check then r1.(env := map[]) else r1);
  }

  lemma DefinedLast(p: Program, f: Function, code: seq<Inst>, dest: nat, res: nat, r: Regs, r1: Regs)
    requires dest < |f.types| && ExecCode(p, VarTypes(f), code + [DefVar(dest, res)], r) == Some(r1)
    ensures dest in r1.vars && TypeOf(r1.vars[dest]) == ClTyOf(f.types[dest])
  {
    hide ExecCode;
    match ExecCode(p, VarTypes(f), code, r)
    case None => ExecStuck(p, VarTypes(f), code, [DefVar(dest, res)], r);
    case Some(r0) =>
      ExecConcat(p, VarTypes(f), code, [DefVar(dest, res)], r);
      ExecOne(p, VarTypes(f), DefVar(dest, res), r0);
  }

  lemma AppendedStuck(c: Config, depth: nat, fuel: nat, code: TFunc, b: Builder, insts: seq<Inst>, next: nat, r: Regs)
    requires CurOpen(b) && Grows(Append(b, insts, next).blocks, code.blocks) && NoCalls(insts)
    requires ExecCode(c.program, code.varTypes, insts, r) == None
    ensures At(c, depth, fuel, code, b, r) == Stuck
  {
    hide RunCode, ExecCode;
    var b1 := Append(b, insts, next);
    assert BlockGrows(b1.blocks[b.cur], code.blocks[b.cur]);
    PrefixSlice(b.blocks[b.cur].body, insts, code.blocks[b.cur].body);
    StraightStuck(c, depth, fuel, code, b.cur, |b.blocks[b.cur].body|, insts, r);
  }

  lemma ReturnLocal(c: Config, depth: nat, fuel: nat, code: TFunc, f: Function, b: Builder, dest: nat, r: Regs)
    requires CurOpen(b) && dest < |f.types| && f.types[dest] == f.returnTy
    requires dest in r.vars && TypeOf(r.vars[dest]) == ClTyOf(f.types[dest])
    requires Grows(EmitTerm(f, b, 0, Return(Some(Local(dest)))).value.blocks, code.blocks)
    ensures At(c, depth, fuel, code, b, r) == Returned(RawOf(r.vars[dest]), r.m)
  {
    hide At, Grows, ExecCode, Transfer;
    var mv := r.vars[dest];
    var load := LoadOperand(f, b.next, Local(dest));
    var raw := NativeToAbi(load.next, load.res, load.ty, f.returnTy);
    var r1 := r.(env := r.env[b.next := mv]);
    ExecOne(c.program, code.varTypes, load.code[0], r);
    ExecConcat(c.program, code.varTypes, load.code, raw.code, r);
    var r2;
    if raw.code == [] {
      assert load.code + raw.code == load.code;
      r2 := r1;
    } else {
      ExecOne(c.program, code.varTypes, raw.code[0], r1);
      r2 := r1.(env := r1.env[load.next := M64(RawOf(mv))]);
    }
    LastRuns(c, depth, fuel, code, b, load.code + raw.code, raw.next, Ret(raw.res), r, r2);
  }

  /** A function that defines a variable with its only instruction and returns it, interpreted. */
  lemma InterpretsOne(c: Config, depth: nat, f: Function, args: seq<Value>, dest: nat, m: Machine)
    requires |f.blocks| == 1 && f.blocks[0].phis == [] && |f.blocks[0].instrs| == 1
    requires !f.blocks[0].instrs[0].Call? && f.blocks[0].term == Return(Some(Local(dest)))
    ensures Interpret(c, depth, f, args, m).0 ==
      match ExecLocal(c.program.host, EntryFrame(f, args), m.globals, f.blocks[0].instrs[0])
      case Next(frame, _) => Finished(Load(frame, dest))
      case Stop(signal) => Failed(signal)
  {
    hide ExecLocal, EntryFrame;
    var instr, frame := f.blocks[0].instrs[0], EntryFrame(f, args);
    assert Interpret(c, depth, f, args, m) == RunInstrs(c, depth, c.limit, f, 0, 0, frame, m);
    match ExecLocal(c.program.host, frame, m.globals, instr)
    case Next(frame1, globals) =>
      assert RunInstrs(c, depth, c.limit, f, 0, 1, frame1, m.(globals := globals)).0 == Finished(Load(frame1, dest));
    case Stop(_) =>
  }

  lemma OneInstr(p: Program, f: Function, code: TFunc, b: Builder, instr: Instr, term: Terminator) returns (b1: Builder)
    requires Emits(p, f, code, b, [instr], term)
    ensures EmitInstr(p, f, b, instr) == Some(b1) && |b.blocks| <= |b1.blocks|
    ensures Emits(p, f, code, b1, [], term)
  {
    hide EmitInstr, EmitTerm, Grows;
    b1 := EmitInstr(p, f, b, instr).value;
    assert [instr][1..] == [];
    assert EmitInstrs(p, f, b, [instr]) == EmitInstrs(p, f, b1, []);
    InstrGrows(p, f, b, instr);
    GrowsLength(b.blocks, b1.blocks);
  }

  /** A function of one instruction that defines the variable it returns. */
  predicate Defines(f: Function, instr: Instr, dest: nat) {
    && f.blocks == [Block([], [instr], Return(Some(Local(dest))))]
    && dest < |f.types| && f.types[dest] == f.returnTy
    && forall i :: 0 <= i < |f.params| ==>
         f.params[i].local < |f.types| && f.types[f.params[i].local] == AbiTy(f.params[i])
  }

  /** What its caller sees, compiled: the variable as left by the emitted code, or the error it reports. */
  function Seen(end: Option<(MVal, Machine)>, mayFail: bool, ty: MirTy): Outcome {
    match end
    case None => Undefined
    case Some((mv, m)) => OutcomeOf(Returned(if mayFail && m.exc.Some? then Num(0) else RawOf(mv), m), ty)
  }

  lemma AssignOutcome(f: Function, dest: nat, rhs: Rvalue, h: Host, args: seq<Value>) returns (n: nat, r: Regs)
    requires Defines(f, Assign(dest, rhs), dest) && Compile(Program([f], [], h), f).Some?
    requires Prepare(h, f.params, args) == Ready(args) && |args| == |f.params|
    requires forall i :: 0 <= i < |args| ==> HasTy(args[i], AbiTy(f.params[i]))
    ensures var c, m := Compiling([f], [], h), Fresh([f], []);
            && EmitRvalue(f, n, rhs, f.returnTy).Some?
            && var frag := EmitRvalue(f, n, rhs, f.returnTy).value;
               CallFunction(c, 2, 0, args, m).0
                   == Seen(Defined(c.program, f, frag.code, dest, frag.res, r), MayFail(rhs), f.returnTy)
    ensures CallFunction(Compiling([f], [], h).(threshold := 0), 2, 0, args, Fresh([f], [])).0 ==
              match EvalRvalue(h, EntryFrame(f, args), rhs)
              case Done(v) => Finished(v)
              case Raise(code) => Failed(Error(code))
    ensures r.m.exc == None && r.m.sig == None && Ok(r.m.scope) && r.m.scope.depth > 0
    ensures VarsRel(f, ParamLocals(f.params), EntryFrame(f, args), r.vars, r.m.scope.heap)
  {
    hide Compile, RunNativeFunction, RunCode, At, Prepare, Interpret, EncodedAs, AbiTy, EmitRvalue, EvalRvalue, Defined,
        EmitTerm, ExecCode, VarsRel, Ok, CallFunction, Grows, EntryFrame, Lets, ParamLocals, HasTy;
    var c, m := Compiling([f], [], h), Fresh([f], []);
    var code := Compile(c.program, f).value;
    var encoded, words := CompiledCall([f], [], h, args, m);
    var b;
    b, r := BlockStarts(c, 1, f, code, args, words, encoded);
    n := b.next;
    var b1 := OneInstr(c.program, f, code, b, Assign(dest, rhs), Return(Some(Local(dest))));
    var frag := EmitRvalue(f, n, rhs, f.returnTy).value;
    RvalueLets(f, n, rhs, f.returnTy);
    DefinitionEnds(c, 1, 1, code, f, b, frag, dest, MayFail(rhs), r);
    InterpretsOne(c.(threshold := 0), 1, f, args, dest, m);
    FrameLength(f, args);
  }

  lemma FrameLength(f: Function, args: seq<Value>)
    ensures |EntryFrame(f, args)| == |f.types|
  {
    if |args| == |f.params| {
      BindLength(seq(|f.types|, i => VNothing), f.params, args);
    }
  }

  // ----- a variable assigned a value of another type -----

  /** Assigns a variable of type `ty` and returns it. */
  function ReturnOf(ty: MirTy, rhs: Rvalue): Function {
    Function([], ty, [Block([], [Assign(0, rhs)], Return(Some(Local(0))))], [ty])
  }

  lemma ReturnOfCompiles(ty: MirTy, rhs: Rvalue, h: Host)
    requires Supported(ReturnOf(ty, rhs), rhs, ty)
    ensures Compile(Program([ReturnOf(ty, rhs)], [], h), ReturnOf(ty, rhs)).Some?
  {
    hide Compile, Supported;
    var p, f := Program([ReturnOf(ty, rhs)], [], h), ReturnOf(ty, rhs);
    CompilesExactly(p, f);
    assert BlockSupported(f, f.blocks[0]);
    assert BlockEligible(p, f, f.blocks[0]);
  }

  /** A constant of another type assigned to a scalar variable is lost: compiled, the function returns
      something else or runs into undefined behaviour. */
  lemma AssignedConstantExactly(ty: MirTy, lit: Lit, h: Host)
    requires IsScalar(ty)
    ensures var f := ReturnOf(ty, Use(Const(lit)));
            TiersAgree(Compiling([f], [], h), [], Fresh([f], [])) <==> LitTy(lit) == ty
  {
    hide Compile, CallFunction, ExecCode;
    var f, rhs := ReturnOf(ty, Use(Const(lit))), Use(Const(lit));
    ReturnOfCompiles(ty, rhs, h);
    var n, r := AssignOutcome(f, 0, rhs, h, []);
    var frag := LoadLit(n, lit);
    DefinedOne(Program([f], [], h), f, n, frag.code[0].op, 0, r);
  }

  /** A flexible argument moved into a variable of type `ty`. */
  function MoveOf(ty: MirTy): Function {
    Function([Param(0, TDynamic, false, None)], ty,
             [Block([], [Assign(1, Use(Local(0)))], Return(Some(Local(1))))], [TDynamic, ty])
  }

  lemma MoveOfCompiles(ty: MirTy, h: Host)
    ensures Compile(Program([MoveOf(ty)], [], h), MoveOf(ty)).Some?
  {
    hide Compile;
    var p, f := Program([MoveOf(ty)], [], h), MoveOf(ty);
    CompilesExactly(p, f);
    assert BlockSupported(f, f.blocks[0]);
    assert BlockEligible(p, f, f.blocks[0]);
  }

  /** A box moved into a scalar variable never comes out again, whatever it holds; any other variable hands
      it on unread. */
  lemma FlexibleMoveExactly(ty: MirTy, v: Value, h: Host)
    ensures var f := MoveOf(ty); TiersAgree(Compiling([f], [], h), [v], Fresh([f], [])) <==> !IsScalar(ty)
  {
    hide Compile, CallFunction, ExecCode, ParamLocals, Ok;
    var f := MoveOf(ty);
    MoveOfCompiles(ty, h);
    OneFlexible(h, f.params[0], v);
    var n, r := AssignOutcome(f, 1, Use(Local(0)), h, [v]);
    assert ParamLocals(f.params) == {0} by {
      OneLocal(f.params);
    }
    assert EntryFrame(f, [v]) == [v, VNothing] by {
      OneFrame(f, v);
    }
    assert LiveBox(r.m.scope.heap, r.vars[0], v);
    DefinedOne(Program([f], [], h), f, n, UseVar(0), 1, r);
  }

  lemma OneFlexible(h: Host, param: Param, v: Value)
    requires param == Param(0, TDynamic, false, None)
    ensures Prepare(h, [param], [v]) == Ready([v])
  {
    assert [param][1..] == [] && [v][1..] == [];
    assert PrepareOne(h, param, v) == Some(v);
    assert PrepareAll(h, [], []) == Ready([]);
    assert PrepareAll(h, [param], [v]) == Ready([v] + []);
    assert [v] + seq(|[param]| - |[v]|, i => VNothing) == [v];
  }

  lemma OneLocal(params: seq<Param>)
    requires |params| == 1
    ensures ParamLocals(params) == {params[0].local}
  {
    assert params[1..] == [];
  }

  lemma OneFrame(f: Function, v: Value)
    requires |f.params| == 1 && f.params[0].local == 0 && |f.types| > 0
    ensures EntryFrame(f, [v]) == seq(|f.types|, i => if i == 0 then v else VNothing)
  {
    var empty := seq(|f.types|, i => VNothing);
    assert f.params[1..] == [] && [v][1..] == [];
    assert BindParams(empty, f.params, [v]) == Store(empty, 0, v);
  }

  // ----- arithmetic on mixed numbers -----

  lemma OperandsLoaded(f: Function, n: nat, op: BinOp, a: Lit, b: Lit, ty: MirTy)
    requires EmitRvalue(f, n, Binary(op, Const(a), Const(b)), ty).Some?
    requires LitTy(a) in {TInteger, TFloat} && LitTy(b) in {TInteger, TFloat}
    ensures var (l, r) := (LoadLit(n, a), LoadLit(n + 1, b));
            && EmitBinop(n + 2, op, n, l.ty, n + 1, r.ty, ty).Some?
            && var tail := EmitBinop(n + 2, op, n, l.ty, n + 1, r.ty, ty).value;
               EmitRvalue(f, n, Binary(op, Const(a), Const(b)), ty).value
                   == tail.(code := l.code + r.code + tail.code)
  {
    hide EmitBinop;
    var frag := BinaryShape(f, n, op, Const(a), Const(b), ty);
  }

  /** The operands, then the operator. */
  lemma ArithmeticLoads(p: Program, f: Function, n: nat, a: Lit, b: Lit, r: Regs) returns (r1: Regs)
    requires LitTy(a) in {TInteger, TFloat} && LitTy(b) in {TInteger, TFloat}
    ensures ExecCode(p, VarTypes(f), LoadLit(n, a).code + LoadLit(n + 1, b).code, r) == Some(r1)
    ensures r1.m == r.m && r1.vars == r.vars && n in r1.env && n + 1 in r1.env
    ensures r1.env[n] == Native(LitValue(a)) && r1.env[n + 1] == Native(LitValue(b))
    ensures TypeOf(r1.env[n]) == LoadLit(n, a).ty && TypeOf(r1.env[n + 1]) == LoadLit(n + 1, b).ty
  {
    hide ExecCode;
    var r0 := r.(env := r.env[n := Native(LitValue(a))]);
    r1 := r0.(env := r0.env[n + 1 := Native(LitValue(b))]);
    ExecOne(p, VarTypes(f), LoadLit(n, a).code[0], r);
    ExecOne(p, VarTypes(f), LoadLit(n + 1, b).code[0], r0);
    ExecConcat(p, VarTypes(f), LoadLit(n, a).code, LoadLit(n + 1, b).code, r);
  }

  /** What is defined after code that has run, or got stuck. */
  lemma DefinedBehind(p: Program, f: Function, pre: seq<Inst>, code: seq<Inst>, dest: nat, res: nat, r: Regs, r1: Regs)
    requires dest < |f.types| && ExecCode(p, VarTypes(f), pre, r) == Some(r1)
    ensures Defined(p, f, pre + code, dest, res, r) == Defined(p, f, code, dest, res, r1)
  {
    hide ExecCode;
    assert pre + code + [DefVar(dest, res)] == pre + (code + [DefVar(dest, res)]);
    ExecConcat(p, VarTypes(f), pre, code + [DefVar(dest, res)], r);
  }

  lemma DefinedFrom(p: Program, f: Function, code: seq<Inst>, dest: nat, res: nat, r: Regs)
    requires dest < |f.types|
    ensures match ExecCode(p, VarTypes(f), code, r)
            case None => Defined(p, f, code, dest, res, r) == None
            case Some(r1) =>
              res in r1.env && TypeOf(r1.env[res]) == ClTyOf(f.types[dest]) ==>
                Defined(p, f, code, dest, res, r) == Some((r1.env[res], r1.m))
  {
    hide ExecCode;
    match ExecCode(p, VarTypes(f), code, r)
    case None => ExecStuck(p, VarTypes(f), code, [DefVar(dest, res)], r);
    case Some(r1) =>
      ExecConcat(p, VarTypes(f), code, [DefVar(dest, res)], r);
      ExecOne(p, VarTypes(f), DefVar(dest, res), r1);
  }

  function OutcomeFor(result: EvalResult): Outcome {
    match result
    case Done(v) => Finished(v)
    case Raise(code) => Failed(Error(code))
  }

  /** A reported result is what the caller sees. */
  lemma ReportSeen(result: EvalResult, mv: MVal, m: Machine, m': Machine, ty: MirTy)
    requires ty in {TInteger, TFloat} && TypeOf(mv) == ClTyOf(ty) && Reports(result, mv, m, m')
    requires m.exc == None && m.sig == None
    ensures Seen(Some((mv, m')), true, ty) == OutcomeFor(result)
  {
  }

  /** Arithmetic assigned to an integer variable keeps its meaning exactly if both operands are integers and
      a power stays in range, or if both tiers report the division by zero. */
  lemma IntegerAssignedExactly(op: BinOp, a: Lit, b: Lit, h: Host)
    requires IntegerRuntime(op).Some? && LitTy(a) in {TInteger, TFloat} && LitTy(b) in {TInteger, TFloat}
    ensures var f := ReturnOf(TInteger, Binary(op, Const(a), Const(b)));
            TiersAgree(Compiling([f], [], h), [], Fresh([f], [])) <==>
              IntegersSuffice(h, op, LitValue(a), LitValue(b))
  {
    hide Compile, CallFunction, ExecCode, EmitBinop, EmitRvalue, Defined, Seen, EvalBinary, LoadLit, IntegersSuffice,
        IntegerArithmetic, VarsRel, Reports;
    var rhs := Binary(op, Const(a), Const(b));
    var f := ReturnOf(TInteger, rhs);
    var p := Program([f], [], h);
    ReturnOfCompiles(TInteger, rhs, h);
    var n, r := AssignOutcome(f, 0, rhs, h, []);
    OperandsLoaded(f, n, op, a, b, TInteger);
    var r1 := ArithmeticLoads(p, f, n, a, b, r);
    var r2 := IntegerDestRuns(p, VarTypes(f), n + 2, op, n, LitValue(a), n + 1, LitValue(b), r1);
    var tail := EmitBinop(n + 2, op, n, LoadLit(n, a).ty, n + 1, LoadLit(n + 1, b).ty, TInteger).value;
    DefinedBehind(p, f, LoadLit(n, a).code + LoadLit(n + 1, b).code, tail.code, 0, tail.res, r, r1);
    DefinedFrom(p, f, tail.code, 0, tail.res, r1);
    IntegerArithmeticExactly(h, op, LitValue(a), LitValue(b));
    match IntegerArithmetic(h, op, LitValue(a), LitValue(b))
    case Some(result) => ReportSeen(result, r2.env[tail.res], r1.m, r2.m, TInteger);
    case None => StuckSeen(true, TInteger);
  }

  lemma StuckSeen(mayFail: bool, ty: MirTy)
    ensures Seen(None, mayFail, ty) == Undefined
  {
  }

  /** Arithmetic assigned to a float variable keeps its meaning exactly if an operand is a float, or if both
      tiers report the division by zero. */
  lemma FloatAssignedExactly(op: BinOp, a: Lit, b: Lit, h: Host)
    requires HostOk(h) && (FloatInstruction(op).Some? || op == Div)
    requires LitTy(a) in {TInteger, TFloat} && LitTy(b) in {TInteger, TFloat}
    ensures var f := ReturnOf(TFloat, Binary(op, Const(a), Const(b)));
            TiersAgree(Compiling([f], [], h), [], Fresh([f], [])) <==>
              LitTy(a) == TFloat || LitTy(b) == TFloat || (op == Div && IsZero(h, LitValue(b)))
  {
    hide Compile, CallFunction, ExecCode, EmitBinop, EmitRvalue, Defined, Seen, EvalBinary, LoadLit, FloatArithmetic,
        VarsRel, HostOk, Reports;
    var rhs := Binary(op, Const(a), Const(b));
    var f := ReturnOf(TFloat, rhs);
    var p := Program([f], [], h);
    ReturnOfCompiles(TFloat, rhs, h);
    var n, r := AssignOutcome(f, 0, rhs, h, []);
    OperandsLoaded(f, n, op, a, b, TFloat);
    var r1 := ArithmeticLoads(p, f, n, a, b, r);
    var r2 := FloatRuns(p, VarTypes(f), n + 2, op, n, LitValue(a), n + 1, LitValue(b), r1);
    var tail := EmitBinop(n + 2, op, n, LoadLit(n, a).ty, n + 1, LoadLit(n + 1, b).ty, TFloat).value;
    DefinedBehind(p, f, LoadLit(n, a).code + LoadLit(n + 1, b).code, tail.code, 0, tail.res, r, r1);
    DefinedFrom(p, f, tail.code, 0, tail.res, r1);
    ReportSeen(FloatArithmetic(h, op, LitValue(a), LitValue(b)), r2.env[tail.res], r1.m, r2.m, TFloat);
    FloatArithmeticExactly(h, op, LitValue(a), LitValue(b));
  }

  // ----- a global that does not hold what its type says -----

  /** Loads the only global and returns it. */
  function ReadOf(ty: MirTy): Function {
    Function([], ty, [Block([], [LoadGlobal(0, 0)], Return(Some(Local(0))))], [ty])
  }

  lemma ReadOfCompiles(ty: MirTy, h: Host)
    ensures Compile(Program([ReadOf(ty)], [ty], h), ReadOf(ty)).Some?
  {
    hide Compile;
    var p, f := Program([ReadOf(ty)], [ty], h), ReadOf(ty);
    CompilesExactly(p, f);
    assert BlockSupported(f, f.blocks[0]);
    assert BlockEligible(p, f, f.blocks[0]);
  }

  /** A module variable that is flexible in the source may hold a value of another type than its slot's:
      compiled code that loads and returns it gets it back exactly if it does not, or if the slot is not
      scalar; a slot of type nothing hands the word on unread. */
  lemma GlobalReadExactly(ty: MirTy, v: Value, h: Host)
    ensures var f := ReadOf(ty);
            TiersAgree(Compiling([f], [ty], h), [], Fresh([f], [v])) <==> (IsScalar(ty) ==> HasTy(v, ty))
  {
    hide Compile, CallFunction, ExecCode, RunNativeFunction, At, Interpret, Ok, Defined, Grows, EmitTerm;
    var f := ReadOf(ty);
    var c, m := Compiling([f], [ty], h), Fresh([f], [v]);
    ReadOfCompiles(ty, h);
    var code := Compile(c.program, f).value;
    assert Prepare(h, [], []) == Ready([]);
    var encoded, words := CompiledCall([f], [ty], h, [], m);
    var b, r := BlockStarts(c, 1, f, code, [], words, encoded);
    var b1 := OneInstr(c.program, f, code, b, LoadGlobal(0, 0), Return(Some(Local(0))));
    var native := AbiToNative(b.next + 1, b.next, ty);
    var frag := native.(code := [Let(b.next, LoadGlobalRaw(0))] + native.code);
    OperandLets(f, b.next + 1, Local(0), b.next, I64, ty);
    DefinitionEnds(c, 1, 1, code, f, b, frag, 0, false, r);
    InterpretsOne(c.(threshold := 0), 1, f, [], 0, m);
    if HasTy(v, ty) {
      GlobalSeen(c.program, f, b.next, v, r);
    } else {
      BadGlobalLoad(c.program, f, b.next, 0, 0, r);
    }
  }

  /** A global of its type is seen as it is. */
  lemma GlobalSeen(p: Program, f: Function, n: nat, v: Value, r: Regs)
    requires |f.types| == 1 && |p.globals| == 1 && f.types[0] == p.globals[0] == f.returnTy
    requires r.m.globals == [v] && HasTy(v, f.types[0]) && Ok(r.m.scope) && r.m.scope.depth > 0
    requires r.m.exc == None
    ensures var native := AbiToNative(n + 1, n, f.types[0]);
            Seen(Defined(p, f, [Let(n, LoadGlobalRaw(0))] + native.code, 0, native.res, r), false, f.returnTy)
                == Finished(v)
  {
    hide ExecCode, Ok;
    var native := AbiToNative(n + 1, n, f.types[0]);
    var r2 := GlobalLoaded(p, f, n, 0, 0, r);
    RepresentsType(r2.m.scope.heap, r2.env[native.res], v, f.types[0]);
    DefinedFrom(p, f, [Let(n, LoadGlobalRaw(0))] + native.code, 0, native.res, r);
  }

  // ----- a certainty check behind an inlined call -----

  /** A flexible argument checked as the certain parameter of a callee that was inlined. */
  const INLINED_CHECK := Function([Param(0, TDynamic, false, None)], TDynamic,
    [Block([], [CertainCheck(Local(0))], Return(Some(Local(0))))], [TDynamic])

  lemma InlinedCheckCompiles(h: Host)
    ensures Compile(Program([INLINED_CHECK], [], h), INLINED_CHECK).Some?
  {
    hide Compile;
    var p, f := Program([INLINED_CHECK], [], h), INLINED_CHECK;
    CompilesExactly(p, f);
    assert BlockSupported(f, f.blocks[0]);
    assert BlockEligible(p, f, f.blocks[0]);
  }

  /** The check is not compiled, so nothing gets through: the tiers agree exactly on other arguments. */
  lemma InlinedCheckExactly(v: Value, h: Host)
    ensures var f := INLINED_CHECK; TiersAgree(Compiling([f], [], h), [v], Fresh([f], [])) <==> !v.VNothing?
  {
    hide Compile, CallFunction, ExecCode, RunNativeFunction, At, Interpret, Ok, Grows, EmitTerm, ParamLocals, Prepare;
    var f := INLINED_CHECK;
    var c, m := Compiling([f], [], h), Fresh([f], []);
    InlinedCheckCompiles(h);
    var code := Compile(c.program, f).value;
    OneFlexible(h, f.params[0], v);
    assert Prepare(h, f.params, [v]) == Ready([v]);
    var encoded, words := CompiledCall([f], [], h, [v], m);
    var b, r := BlockStarts(c, 1, f, code, [v], words, encoded);
    var b1 := OneInstr(c.program, f, code, b, CertainCheck(Local(0)), Return(Some(Local(0))));
    assert ParamLocals(f.params) == {0} by {
      OneLocal(f.params);
    }
    assert EntryFrame(f, [v]) == [v] by {
      OneFrame(f, v);
    }
    assert LiveBox(r.m.scope.heap, r.vars[0], v);
    ReturnLocal(c, 1, 1, code, f, b1, 0, r);
    InterpretsOne(c.(threshold := 0), 1, f, [v], 0, m);
  }
}
