// What a function returns when that is not of its return type, and exactly when its callers notice.

module Returns {
  import opened Arithmetic
  import opened Options
  import opened Mir
  import opened AbiScope
  import opened Clif
  import opened JitEmit
  import opened Typing
  import opened Tiers
  import opened Fragments
  import opened States
  import opened Points
  import opened SafeRuns
  import opened NativeSteps
  import opened Edges
  import opened Preservation
  import opened Acceptance
  import opened Limits
  import opened Divergence

  // ----- returning without a value -----

  /** `return` without a value from a function declared to return this type. */
  function BareReturn(ty: MirTy): Function {
    Function([], ty, [Block([], [], Return(None))], [])
  }

  lemma BareReturnCompiles(ty: MirTy, h: Host)
    ensures Compile(Program([BareReturn(ty)], [], h), BareReturn(ty)).Some?
  {
    hide Compile;
    var p, f := Program([BareReturn(ty)], [], h), BareReturn(ty);
    CompilesExactly(p, f);
    assert BlockSupported(f, f.blocks[0]);
    assert BlockEligible(p, f, f.blocks[0]);
  }

  lemma BareReturnInterprets(c: Config, depth: nat, ty: MirTy, m: Machine)
    ensures Interpret(c, depth, BareReturn(ty), [], m) == (Finished(VNothing), m)
  {
    var f := BareReturn(ty);
    assert RunInstrs(c, depth, c.limit, f, 0, 0, EntryFrame(f, []), m) == (Finished(VNothing), m);
  }

  /** A bare return keeps its meaning under compilation exactly when the return type is boxed: otherwise the
      caller gets 0, false or 0.0. */
  lemma BareReturnExactly(ty: MirTy, h: Host)
    ensures var f := BareReturn(ty); TiersAgree(Compiling([f], [], h), [], Fresh([f], [])) <==> !IsScalar(ty)
  {
    hide Compile, CallFunction, ExecCode, RunNativeFunction, At, Interpret, Ok, Grows, Reads;
    var f := BareReturn(ty);
    var c, m := Compiling([f], [], h), Fresh([f], []);
    BareReturnCompiles(ty, h);
    var code := Compile(c.program, f).value;
    assert Prepare(h, [], []) == Ready([]);
    var encoded, words := CompiledCall([f], [], h, [], m);
    var b, r := BlockStarts(c, 1, f, code, [], words, encoded);
    ReturnNothingRuns(c, 1, 1, code, f, b, 0, r);
    BareReturnInterprets(c.(threshold := 0), 1, ty, m);
  }

  // ----- results between tiers -----

  /** Returns this operand, or nothing at all, from a function declared to return `ty`. */
  function CalleeOf(ty: MirTy, value: Option<Operand>): Function {
    Function([Param(0, TDynamic, false, None)], ty, [Block([], [], Return(value))], [TDynamic])
  }

  /** Passes its flexible argument on to the callee and returns what it got. */
  function CallerOf(ty: MirTy): Function {
    Function([Param(0, TDynamic, false, None)], ty,
             [Block([], [Call(Some(1), 1, [Local(0)])], Return(Some(Local(1))))], [TDynamic, ty])
  }

  function CallPair(ty: MirTy, value: Option<Operand>): seq<Function> {
    [CallerOf(ty), CalleeOf(ty, value)]
  }

  /** What the callee returns for this argument. */
  function ResultOf(value: Option<Operand>, v: Value): Value {
    match value
    case None => VNothing
    case Some(op) => EvalOperand([v], op)
  }

  /** The caller is about to be compiled, the callee's counter is in any state. */
  function PairMachine(ty: MirTy, value: Option<Operand>, tier: Tier): Machine {
    Fresh(CallPair(ty, value), []).(tiers := [Tier(1, false), tier])
  }

  /** A callee that returns an operand of another type than it declares is never compiled. */
  lemma CalleeCompilesExactly(ty: MirTy, value: Option<Operand>, h: Host)
    ensures Compile(Program(CallPair(ty, value), [], h), CalleeOf(ty, value)).Some? <==>
              value.None? || JitOperandType(CalleeOf(ty, value), value.value) == Some(ty)
  {
    hide Compile;
    var p, f := Program(CallPair(ty, value), [], h), CalleeOf(ty, value);
    CompilesExactly(p, f);
    assert BlockSupported(f, f.blocks[0]);
    if Compile(p, f).Some? {
      assert BlockEligible(p, f, f.blocks[0]);
    } else {
      assert !BlockEligible(p, f, f.blocks[0]);
    }
  }

  lemma CallerCompiles(ty: MirTy, value: Option<Operand>, h: Host)
    ensures Compile(Program(CallPair(ty, value), [], h), CallerOf(ty)).Some?
  {
    hide Compile;
    var p, f := Program(CallPair(ty, value), [], h), CallerOf(ty);
    CompilesExactly(p, f);
    assert BlockSupported(f, f.blocks[0]);
    assert BlockEligible(p, f, f.blocks[0]);
  }

  /** The callee, interpreted. */
  lemma CalleeInterprets(c: Config, depth: nat, ty: MirTy, value: Option<Operand>, v: Value, m: Machine)
    ensures Interpret(c, depth, CalleeOf(ty, value), [v], m) == (Finished(ResultOf(value, v)), m)
  {
    var f := CalleeOf(ty, value);
    OneFrame(f, v);
    assert EntryFrame(f, [v]) == [v];
    assert RunInstrs(c, depth, c.limit, f, 0, 0, [v], m) == (Finished(ResultOf(value, v)), m);
  }

  lemma CalleeCalled(c: Config, ty: MirTy, value: Option<Operand>, v: Value, m: Machine)
    requires c.program.functions == CallPair(ty, value) && !ChooseTier(c, 1, m).0
    ensures CallFunction(c, 1, 1, [v], m) == (Finished(ResultOf(value, v)), ChooseTier(c, 1, m).1)
  {
    hide Compile, Interpret, ChooseTier, Prepare;
    OneFlexible(c.program.host, CalleeOf(ty, value).params[0], v);
    CalleeInterprets(c, 0, ty, value, v, ChooseTier(c, 1, m).1);
  }

  /** The caller, interpreted. */
  lemma CallerInterprets(c: Config, ty: MirTy, v: Value, result: Value, m: Machine)
    requires CallFunction(c, 1, 1, [v], m) == (Finished(result), m)
    ensures Interpret(c, 1, CallerOf(ty), [v], m).0 == Finished(result)
  {
    hide CallFunction;
    var f := CallerOf(ty);
    OneFrame(f, v);
    var frame := [v, VNothing];
    assert EntryFrame(f, [v]) == frame;
    assert f.blocks[0].instrs[0] == Call(Some(1), 1, [Local(0)]);
    assert EvalOperands(frame, [Local(0)]) == [v];
    assert Store(frame, 1, result) == [v, result];
    assert Interpret(c, 1, f, [v], m) == RunInstrs(c, 1, c.limit, f, 0, 0, frame, m);
    assert RunInstrs(c, 1, c.limit, f, 0, 1, [v, result], m).0 == Finished(result);
  }

  /** A result crosses between tiers exactly if it is of the declared type, or if that is boxed: otherwise
      the compiled caller takes the address of a box for its number. It holds for whatever the callee
      returns, without a value included, and for every state of its counter in which it is interpreted. */
  lemma ResultPassedExactly(ty: MirTy, value: Option<Operand>, v: Value, tier: Tier, h: Host)
    requires !ChooseTier(Compiling(CallPair(ty, value), [], h), 1, PairMachine(ty, value, tier)).0
    ensures TiersAgree(Compiling(CallPair(ty, value), [], h), [v], PairMachine(ty, value, tier)) <==>
              (IsScalar(ty) ==> HasTy(ResultOf(value, v), ty))
  {
    hide Compile, CallFunction, ExecCode, RunNativeFunction, RunCode, At, Interpret, Ok, Defined, Grows, EmitTerm,
        CallRaw, Emits, Prepare, ParamLocals, Represents, VarsSafe;
    var f, functions := CallerOf(ty), CallPair(ty, value);
    var c, m := Compiling(functions, [], h), PairMachine(ty, value, tier);
    CallerCompiles(ty, value, h);
    var code := Compile(c.program, f).value;
    OneFlexible(h, f.params[0], v);
    assert Prepare(h, f.params, [v]) == Ready([v]);
    var encoded, words := CompiledCall(functions, [], h, [v], m);
    var b, r := BlockStarts(c, 1, f, code, [v], words, encoded);
    StillInterpreted(c, m, r.m);
    CallerEnds(c, code, ty, value, v, b, r);
    CalleeCalled(c.(threshold := 0), ty, value, v, m);
    CallerInterprets(c.(threshold := 0), ty, v, ResultOf(value, v), m);
  }

  /** The tier choice of the callee does not depend on the caller's counter. */
  lemma StillInterpreted(c: Config, m: Machine, m1: Machine)
    requires |c.program.functions| == |m.tiers| == |m1.tiers| == 2 && m1.tiers[1] == m.tiers[1]
    ensures ChooseTier(c, 1, m1).0 == ChooseTier(c, 1, m).0
  {
    hide Compile;
  }

  lemma CallShape(p: Program, f: Function, b: Builder, dest: Option<nat>, callee: nat, args: seq<Operand>)
    requires CurOpen(b)
    ensures var (before, call, after) := EmitCall(f, b.next, callee, args, DestTy(f, dest));
            EmitInstr(p, f, b, Call(dest, callee, args))
                == Some(ExceptionCheck(DefResult(Append(b, before + [call], call.dst + 1), after, dest)))
  {
  }

  lemma CodeGrows(p: Program, f: Function, code: TFunc, b: Builder, dest: nat)
    requires Emits(p, f, code, b, [], Return(Some(Local(dest))))
    ensures Grows(b.blocks, code.blocks)
  {
    hide Grows, EmitTerm;
    TermGrows(f, b, 0, Return(Some(Local(dest))));
    GrowsTrans(b.blocks, EmitTerm(f, b, 0, Return(Some(Local(dest)))).value.blocks, code.blocks);
  }

  lemma FrameOfCaller(ty: MirTy, v: Value)
    ensures EntryFrame(CallerOf(ty), [v]) == [v, VNothing] && ParamLocals(CallerOf(ty).params) == {0}
  {
    OneFrame(CallerOf(ty), v);
    OneLocal(CallerOf(ty).params);
  }

  lemma CallerInStep(p: Program, ty: MirTy, v: Value, r: Regs)
    requires p.globals == [] && r.m.globals == [] && r.m.exc == None && r.m.sig == None
    requires Ok(r.m.scope) && VarsSafe([TDynamic, ty], r.vars, r.m.scope)
    requires VarsRel(CallerOf(ty), {0}, [v, VNothing], r.vars, r.m.scope.heap)
    ensures InStep(p, CallerOf(ty), {0}, [v, VNothing], r)
  {
    hide Ok;
  }

  lemma CallerEligible(p: Program, ty: MirTy, value: Option<Operand>)
    requires p.functions == CallPair(ty, value)
    ensures InstrEligible(p, CallerOf(ty), Call(None, 1, [Local(0)]))
  {
  }

  lemma TieredScope(c: Config, m: Machine)
    requires |c.program.functions| == 2
    ensures ChooseTier(c, 1, m).1 == m.(tiers := ChooseTier(c, 1, m).1.tiers)
  {
    hide Compile;
  }

  /** The result's word, converted to the variable's type and returned again. */
  lemma ResultSeen(p: Program, f: Function, n: nat, raw: nat, s: Scope, v: Value, r: Regs)
    requires |f.types| == 2 && f.types[1] == f.returnTy && raw in r.env && raw < n
    requires r.env[raw] == M64(Encode(s, v, f.returnTy).1) && r.m.scope == Encode(s, v, f.returnTy).0
    requires r.m.exc == None
    ensures Seen(Defined(p, f, AbiToNative(n, raw, f.returnTy).code, 1, AbiToNative(n, raw, f.returnTy).res, r),
                 true, f.returnTy)
         == if IsScalar(f.returnTy) && !HasTy(v, f.returnTy) then Undefined else Finished(v)
  {
    hide ExecCode, Register;
    var ty := f.returnTy;
    var native := AbiToNative(n, raw, ty);
    if HasTy(v, ty) {
      var r1 := AbiToNativeRuns(p, VarTypes(f), n, raw, s, v, ty, ty, r);
      RepresentsType(r.m.scope.heap, r1.env[native.res], v, ty);
      DefinedFrom(p, f, native.code, 1, native.res, r);
    } else {
      BoxConverted(p, f, n, raw, s.next, r);
      assert v == r.m.scope.heap[s.next] by {
        RegisteredHere(s, v);
      }
    }
  }

  lemma RegisteredHere(s: Scope, v: Value)
    ensures s.next in Register(s, v).heap && Register(s, v).heap[s.next] == v
  {
  }

  /** A box where a word of this type is expected. */
  lemma BoxConverted(p: Program, f: Function, n: nat, raw: nat, a: nat, r: Regs)
    requires |f.types| == 2 && f.types[1] == f.returnTy && raw in r.env && raw < n && r.env[raw] == M64(Ptr(a))
    ensures var native := AbiToNative(n, raw, f.returnTy);
            Defined(p, f, native.code, 1, native.res, r)
                == if f.returnTy in {TFloat, TBoolean} then None else Some((M64(Ptr(a)), r.m))
  {
    var native := AbiToNative(n, raw, f.returnTy);
    if f.returnTy in {TFloat, TBoolean} {
      DefinedOne(p, f, n, native.code[0].op, 1, r);
    } else {
      DefinedFrom(p, f, native.code, 1, native.res, r);
    }
  }

  lemma CallerEnds(c: Config, code: TFunc, ty: MirTy, value: Option<Operand>, v: Value, b: Builder, r: Regs)
    requires c == Compiling(CallPair(ty, value), [], c.program.host) && |r.m.tiers| == 2 && !ChooseTier(c, 1, r.m).0
    requires r.m.exc == None && r.m.sig == None && r.m.globals == [] && Ok(r.m.scope) && r.m.scope.depth > 0
    requires VarsSafe([TDynamic, ty], r.vars, r.m.scope)
    requires VarsRel(CallerOf(ty), ParamLocals(CallerOf(ty).params), EntryFrame(CallerOf(ty), [v]), r.vars,
        r.m.scope.heap)
    requires Emits(c.program, CallerOf(ty), code, b, [Call(Some(1), 1, [Local(0)])], Return(Some(Local(1))))
    ensures OutcomeOf(At(c, 1, 1, code, b, r), ty)
         == if IsScalar(ty) && !HasTy(ResultOf(value, v), ty) then Undefined else Finished(ResultOf(value, v))
  {
    hide ExecCode, RunCode, At, Defined, Grows, EmitTerm, CallFunction, EmitInstr, ChooseTier, VarsRel, VarsSafe, Ok,
        Encode, SafeAt, SafeFrom, Activation, EmitArgs, AbiToNative, ParamLocals;
    var f := CallerOf(ty);
    var dest, args := Some(1), [Local(0)];
    var b1 := OneInstr(c.program, f, code, b, Call(dest, 1, args), Return(Some(Local(1))));
    var (before, call, after) := EmitCall(f, b.next, 1, args, DestTy(f, dest));
    var at := Append(b, before + [call], call.dst + 1);
    CallShape(c.program, f, b, dest, 1, args);
    CodeGrows(c.program, f, code, b1, 1);
    CallCodeGrows(at, after, dest, code);
    CalleeCalled(c, ty, value, v, r.m);
    FrameOfCaller(ty, v);
    CallerInStep(c.program, ty, v, r);
    CallerEligible(c.program, ty, value);
    assert EvalOperands([v, VNothing], args) == [v];
    var r1 := CallReached(c, 1, 1, code, f, {0}, b, dest, 1, args, [v, VNothing], r);
    var res := CallFunction(c, 1, 1, [v], r.m);
    var r2 := Resumed(c.program.functions[1], call.dst, r1, res);
    OperandLets(f, call.dst + 1, Local(0), call.dst, I64, ty);
    DefinitionEnds(c, 1, 1, code, f, at, after, 1, true, r2);
    TieredScope(c, r.m);
    ResultSeen(c.program, f, call.dst + 1, call.dst, res.1.scope, ResultOf(value, v), r2);
  }
}
