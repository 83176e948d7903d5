// What tiering and the JIT promise a caller: results, errors and globals do not depend on which
// functions happen to be compiled, no run reaches undefined behaviour, and no box outlives its scope.

module Tiering {
  import opened Arithmetic
  import opened Options
  import opened Mir
  import opened AbiScope
  import opened Clif
  import opened JitEmit
  import opened Typing
  import opened Tiers
  import opened Fragments
  import opened Points
  import opened States
  import opened SafeRuns
  import opened NativeSteps
  import opened Edges
  import opened Calls
  import opened Preservation

  /** For every well-formed program, threshold, call counters, call budget and argument list: a call
      ends with the interpreter's result or error and the interpreter's globals, never in undefined
      behaviour, and leaves no exception pending. */
  lemma TieringIsInvisible(c: Config, depth: nat, callee: nat, args: seq<Value>, m: Machine, m0: Machine)
    requires WellFormedProgram(c.program) && callee < |c.program.functions|
    requires Quiet(c.program, m) && m.globals == m0.globals
    ensures var (outcome, after) := CallFunction(c, depth, callee, args, m);
            var (reference, after0) := CallFunction(c.(threshold := 0), depth, callee, args, m0);
            && outcome == reference && !outcome.Undefined?
            && (!outcome.Timeout? ==>
                  after.globals == after0.globals && after.exc == None && after.sig == None &&
                      GlobalsTyped(c.program, after.globals))
  {
    hide WellFormedProgram, CallFunction;
    CallAgrees(c, depth, callee, args, m, m0);
  }

  /** A call from outside leaves no box alive and none unfreed: each one ever made is freed once. A
      call made inside a scope leaves that scope open with every earlier box intact. */
  lemma NoBoxOutlivesItsScope(c: Config, depth: nat, callee: nat, args: seq<Value>, m: Machine)
    requires WellFormedProgram(c.program) && callee < |c.program.functions| && Quiet(c.program, m)
    ensures var (outcome, after) := CallFunction(c, depth, callee, args, m);
            !outcome.Timeout? ==>
              && after.scope.depth == m.scope.depth && after.scope.context == m.scope.context
              && (m.scope.depth > 0 ==> forall a :: a in m.scope.heap ==>
                  a in after.scope.heap && after.scope.heap[a] == m.scope.heap[a])
              && (m.scope.depth == 0 ==>
                    && after.scope.heap == map[] && after.scope.ptrs == []
                    && forall a: nat :: 0 < a < after.scope.next ==> multiset(after.scope.freed)[a] == 1)
  {
    hide WellFormedProgram, CallFunction;
    CallAgrees(c, depth, callee, args, m, m);
    var (outcome, after) := CallFunction(c, depth, callee, args, m);
    if !outcome.Timeout? && m.scope.depth == 0 {
      ClosedScope(after.scope);
    }
  }

  lemma ClosedScope(s: Scope)
    requires Ok(s) && s.depth == 0
    ensures s.heap == map[] && s.ptrs == []
    ensures forall a: nat :: 0 < a < s.next ==> multiset(s.freed)[a] == 1
  {
    assert forall a: nat :: a !in s.heap;
    forall a: nat | 0 < a < s.next
      ensures multiset(s.freed)[a] == 1
    {
      assert multiset(s.freed)[a] + multiset(s.ptrs)[a] == if 0 < a < s.next then 1 else 0;
    }
  }

  // ----- the call budget -----

  /** The function begins with this call, which passes nothing. */
  predicate CallsFirst(f: Function, callee: nat) {
    && f.params == [] && f.blocks != [] && f.blocks[0].instrs != []
    && f.blocks[0].instrs[0].Call? && f.blocks[0].instrs[0].callee == callee && f.blocks[0].instrs[0].args == []
  }

  lemma CallingInterprets(c: Config, depth: nat, callee: nat, next: nat, m: Machine, s: Signal)
    requires c.threshold == 0 && depth > 0 && callee < |c.program.functions|
    requires CallsFirst(c.program.functions[callee], next) && CallFunction(c, depth - 1, next, [], m).0 == Failed(s)
    ensures CallFunction(c, depth, callee, [], m).0 == Failed(s)
  {
    hide Compile, CallNative;
    var f := c.program.functions[callee];
    assert Prepare(c.program.host, f.params, []) == Ready([]);
    var frame := TakePhis(EntryFrame(f, []), f.blocks[0].phis, None);
    assert EvalOperands(frame, f.blocks[0].instrs[0].args) == [];
    assert RunInstrs(c, depth - 1, c.limit, f, 0, 0, frame, m).0 == Failed(s);
    assert Interpret(c, depth - 1, f, [], m).0 == Failed(s) by {
      assert RunBlock(c, depth - 1, c.limit, f, 0, None, EntryFrame(f, []), m)
          == RunInstrs(c, depth - 1, c.limit, f, 0, 0, frame, m);
    }
    assert CallFunction(c, depth, callee, [], m) == Interpret(c, depth - 1, f, [], m);
  }

  lemma {:induction false} EndlessInterpretation(c: Config, depth: nat, callee: nat, m: Machine)
    requires c.threshold == 0 && callee < |c.program.functions| && CallsFirst(c.program.functions[callee], callee)
    ensures CallFunction(c, depth, callee, [], m).0 == Failed(Error(R1001))
    decreases depth
  {
    if depth > 0 {
      EndlessInterpretation(c, depth - 1, callee, m);
      CallingInterprets(c, depth, callee, callee, m, Error(R1001));
    }
  }

  /** Recursion without end uses up the call budget, in whatever tiers the activations run, and is reported as that
      and not as undefined behaviour. */
  lemma EndlessRecursionFails(c: Config, depth: nat, callee: nat, m: Machine)
    requires WellFormedProgram(c.program) && Quiet(c.program, m)
    requires callee < |c.program.functions| && CallsFirst(c.program.functions[callee], callee)
    ensures CallFunction(c, depth, callee, [], m).0 == Failed(Error(R1001))
  {
    hide WellFormedProgram, CallFunction;
    EndlessInterpretation(c.(threshold := 0), depth, callee, m);
    TieringIsInvisible(c, depth, callee, [], m, m);
  }

  /** Each of these functions begins by calling the next one, and the last one throws a constant. */
  ghost predicate ThrowingChain(p: Program, chain: seq<nat>, lit: Lit) {
    && chain != [] && (forall k :: 0 <= k < |chain| ==> chain[k] < |p.functions|)
    && (forall k :: 0 <= k < |chain| - 1 ==> CallsFirst(p.functions[chain[k]], chain[k + 1]))
    && var last := p.functions[chain[|chain| - 1]];
       last.params == [] && last.blocks != [] && last.blocks[0].instrs == [] && last.blocks[0].term == Throw(Const(lit))
  }

  lemma {:induction false} ChainInterpretation(c: Config, depth: nat, chain: seq<nat>, lit: Lit, m: Machine)
    requires c.threshold == 0 && ThrowingChain(c.program, chain, lit)
    ensures CallFunction(c, depth, chain[0], [], m).0
        == Failed(if depth >= |chain| then Thrown(LitValue(lit)) else Error(R1001))
    decreases depth
  {
    hide Compile, CallNative;
    if depth > 0 {
      if |chain| > 1 {
        assert CallsFirst(c.program.functions[chain[0]], chain[0 + 1]);
        forall k | 0 <= k < |chain[1..]| - 1
          ensures CallsFirst(c.program.functions[chain[1..][k]], chain[1..][k + 1])
        {
          assert CallsFirst(c.program.functions[chain[k + 1]], chain[k + 1 + 1]);
        }
        ChainInterpretation(c, depth - 1, chain[1..], lit, m);
        CallingInterprets(c, depth, chain[0], chain[1], m,
            if depth >= |chain| then Thrown(LitValue(lit)) else Error(R1001));
      } else {
        ThrowInterprets(c, depth, chain[0], lit, m);
      }
    }
  }

  lemma ThrowInterprets(c: Config, depth: nat, callee: nat, lit: Lit, m: Machine)
    requires c.threshold == 0 && depth > 0 && ThrowingChain(c.program, [callee], lit)
    ensures CallFunction(c, depth, callee, [], m).0 == Failed(Thrown(LitValue(lit)))
  {
    hide Compile, CallNative;
    assert [callee][|[callee]| - 1] == callee == [callee][0];
    var f := c.program.functions[callee];
    assert Prepare(c.program.host, f.params, []) == Ready([]);
    var frame := TakePhis(EntryFrame(f, []), f.blocks[0].phis, None);
    assert RunInstrs(c, depth - 1, c.limit, f, 0, 0, frame, m) == RunTerm(c, depth - 1, c.limit, f, 0, frame, m);
    assert RunBlock(c, depth - 1, c.limit, f, 0, None, EntryFrame(f, []), m)
        == RunInstrs(c, depth - 1, c.limit, f, 0, 0, frame, m);
    assert CallFunction(c, depth, callee, [], m) == Interpret(c, depth - 1, f, [], m);
  }

  /** A thrown value reaches the outermost caller unchanged through any number of activations, compiled or not, as
      long as the call budget lasts; one activation more than it allows is R1001. */
  lemma ThrownReachesCaller(c: Config, depth: nat, chain: seq<nat>, lit: Lit, m: Machine)
    requires WellFormedProgram(c.program) && Quiet(c.program, m) && ThrowingChain(c.program, chain, lit)
    ensures CallFunction(c, depth, chain[0], [], m).0
        == Failed(if depth >= |chain| then Thrown(LitValue(lit)) else Error(R1001))
  {
    hide WellFormedProgram, CallFunction;
    ChainInterpretation(c.(threshold := 0), depth, chain, lit, m);
    TieringIsInvisible(c, depth, chain[0], [], m, m);
  }

  /** A call with too many arguments, or one left out or unfit, fails with R0001 in either tier and leaves the
      machine, call counters included, alone. */
  lemma RefusedCallFails(c: Config, depth: nat, callee: nat, args: seq<Value>, m: Machine)
    requires depth > 0 && callee < |c.program.functions|
    requires var params := c.program.functions[callee].params;
             || |args| > |params|
             || (exists i :: |args| <= i < |params| && params[i].default == None)
             || exists i, v :: 0 <= i < |params| && StartsFrom(params, args, i, v) &&
                  ((params[i].certain && v.VNothing?) ||
                      !exists slot :: PassedAs(c.program.host, v, params[i].ty, slot))
    ensures CallFunction(c, depth, callee, args, m) == (Failed(Error(R0001)), m)
  {
    hide Prepare, PassedAs, StartsFrom;
    PreparedExactly(c.program.host, c.program.functions[callee].params, args);
  }

  // ----- a whole session of calls -----

  /** Calls made one after another; a run out of fuel ends the session. */
  function Session(c: Config, calls: seq<(nat, seq<Value>)>, m: Machine): (seq<Outcome>, Machine)
    decreases |calls|
  {
    if calls == [] then ([], m)
    else
      var (outcome, m1) := CallFunction(c, MAX_CALL_DEPTH, calls[0].0, calls[0].1, m);
      if outcome.Timeout? || outcome.Undefined? then ([outcome], m1)
      else
        var (rest, m2) := Session(c, calls[1..], m1);
        ([outcome] + rest, m2)
  }

  /** Over a whole session the counters keep moving and functions get compiled along the way; any two
      thresholds still produce the same list of outcomes and, unless fuel runs out, the same globals. */
  lemma {:induction false} SessionsAgree(c: Config, other: nat, calls: seq<(nat, seq<Value>)>, m: Machine, m': Machine)
    requires WellFormedProgram(c.program) && forall i :: 0 <= i < |calls| ==> calls[i].0 < |c.program.functions|
    requires Quiet(c.program, m) && Quiet(c.program, m') && m.globals == m'.globals
    ensures var (outcomes, after) := Session(c, calls, m);
            var (outcomes', after') := Session(c.(threshold := other), calls, m');
            && outcomes == outcomes' && Undefined !in outcomes
            && (Timeout !in outcomes ==> after.globals == after'.globals)
    decreases |calls|
  {
    if calls != [] {
      hide WellFormedProgram, CallFunction, GlobalsTyped, ScopeKept;
      CallAgrees(c, MAX_CALL_DEPTH, calls[0].0, calls[0].1, m, m);
      CallAgrees(c.(threshold := other), MAX_CALL_DEPTH, calls[0].0, calls[0].1, m', m);
      var res := CallFunction(c, MAX_CALL_DEPTH, calls[0].0, calls[0].1, m);
      var res' := CallFunction(c.(threshold := other), MAX_CALL_DEPTH, calls[0].0, calls[0].1, m');
      assert res.0 == res'.0;
      if !res.0.Timeout? {
        SessionsAgree(c, other, calls[1..], res.1, res'.1);
      }
    }
  }

  // ----- the first failure -----

  /** Compiled code entered with these arguments gets to this point. */
  ghost predicate Reaches(c: Config, depth: nat, fuel: nat, f: Function, code: TFunc, args: seq<Value>, m: Machine,
      b: Builder, r: Regs)
    requires CurOpen(b)
  {
    var (encoded, words) := EncodeArgs(f.params, args, m.(scope := Enter(m.scope.(context := 1))));
    RunNativeFunction(c, depth, code, words, encoded) == At(c, depth, fuel, code, b, r)
  }

  /** An activation that returned early with an error pending is a failed call: the error is the call's
      outcome, and the globals are those at the moment of failure. */
  lemma FailureReachesCaller(c: Config, depth: nat, fuel: nat, f: Function, code: TFunc, args: seq<Value>, m: Machine,
      signal: Signal, b: Builder, r: Regs)
    requires CurOpen(b) && Reaches(c, depth, fuel, f, code, args, m, b, r)
    requires At(c, depth, fuel, code, b, r).Returned? && At(c, depth, fuel, code, b, r).w == Num(0)
    requires Failing(At(c, depth, fuel, code, b, r).m, signal)
    ensures var (outcome, after) := CallNative(c, depth, f, code, args, m);
            && outcome == Failed(signal) && after.globals == At(c, depth, fuel, code, b, r).m.globals
            && after.exc == None && after.sig == None
  {
    hide RunNativeFunction, EncodeArgs, At;
  }

  /** A failing callee ends the calling activation at once: nothing is stored, called or assigned after it,
      the machine is left exactly as the callee left it with the error pending, and the call that this
      activation serves fails with the callee's error in turn. */
  lemma FailedCallStops(c: Config, depth: nat, fuel: nat, code: TFunc, f: Function, avail: seq<set<nat>>, bb: nat,
      k: nat, defined: set<nat>, b: Builder, frame: Frame, r: Regs, args: seq<Value>, m: Machine)
    requires bb < |f.blocks| && k < |f.blocks[bb].instrs| && f.blocks[bb].instrs[k].Call?
    requires Emitting(c, f, code, avail, bb, k, defined, b) && InStep(c.program, f, defined, frame, r)
    requires f.blocks[bb].instrs[k].callee < |c.program.functions|
    requires CallFunction(c, depth, f.blocks[bb].instrs[k].callee, EvalOperands(frame, f.blocks[bb].instrs[k].args),
        r.m).0.Failed?
    ensures CurOpen(b)
    ensures var (outcome, after) := CallFunction(c, depth, f.blocks[bb].instrs[k].callee,
        EvalOperands(frame, f.blocks[bb].instrs[k].args), r.m);
            && At(c, depth, fuel, code, b, r) == Returned(Num(0), after.(sig := Some(outcome.s), exc := Some(Marker)))
            && (Reaches(c, depth, fuel, f, code, args, m, b, r) ==>
                  && CallNative(c, depth, f, code, args, m).0 == outcome
                  && CallNative(c, depth, f, code, args, m).1.globals == after.globals)
  {
    hide Emitting, At, CallFunction, EmitArgs, Grows, AbiToNative, Encode, EvalOperands, InStep, Reaches, CallNative,
        EmitInstr, InstrEligible, InstrOk, SafeFrom, SafeAt;
    var instr := f.blocks[bb].instrs[k];
    EmittingOpen(c, f, code, avail, bb, k, defined, b);
    var b1 := EmittingStep(c, f, code, avail, bb, k, defined, b);
    FailedCallRuns(c, depth, fuel, code, f, defined, b, b1, instr.res, instr.callee, instr.args, frame, r);
    var (outcome, after) := CallFunction(c, depth, instr.callee, EvalOperands(frame, instr.args), r.m);
    if Reaches(c, depth, fuel, f, code, args, m, b, r) {
      FailureReachesCaller(c, depth, fuel, f, code, args, m, outcome.s, b, r);
    }
  }

  lemma FailedCallRuns(c: Config, depth: nat, fuel: nat, code: TFunc, f: Function, defined: set<nat>, b: Builder,
      b1: Builder, dest: Option<nat>, callee: nat, args: seq<Operand>, frame: Frame, r: Regs)
    requires CurOpen(b) && |f.blocks| <= |b.blocks| && callee < |c.program.functions|
    requires EmitInstr(c.program, f, b, Call(dest, callee, args)) == Some(b1) && Within(f, b1, code)
    requires InstrOk(c.program, f, defined, Call(dest, callee, args))
    requires InstrEligible(c.program, f, Call(dest, callee, args))
    requires InStep(c.program, f, defined, frame, r)
    requires CallFunction(c, depth, callee, EvalOperands(frame, args), r.m).0.Failed?
    ensures var (outcome, after) := CallFunction(c, depth, callee, EvalOperands(frame, args), r.m);
            At(c, depth, fuel, code, b, r) == Returned(Num(0), after.(sig := Some(outcome.s), exc := Some(Marker)))
  {
    hide At, VarsRel, CallFunction, GlobalsTyped, EmitArgs, Grows, AbiToNative, Encode, OpIn, RawFits, EvalOperands,
        VarsSafe, CertainKept, SafeFrom, SafeAt, AllSafe, Ok, Activation;
    assert dest.Some? ==> dest.value in DefOf(Call(dest, callee, args));
    var (before, call, after) := EmitCall(f, b.next, callee, args, DestTy(f, dest));
    var atCall := Append(b, before + [call], call.dst + 1);
    assert b1 == ExceptionCheck(DefResult(atCall, after, dest));
    CallCodeGrows(atCall, after, dest, code);
    var r1 := CallReached(c, depth, fuel, code, f, defined, b, dest, callee, args, frame, r);
    var res := CallFunction(c, depth, callee, EvalOperands(frame, args), r.m);
    FailureRuns(c, depth, fuel, code, f, atCall, dest, call.dst,
        Resumed(c.program.functions[callee], call.dst, r1, res));
  }

  /** A failing operation ends its activation at its own check: the result is the raw 0, the error is
      pending, no global has changed, and the call that this activation serves fails with that error. */
  lemma FailedOperationStops(c: Config, depth: nat, fuel: nat, code: TFunc, f: Function, avail: seq<set<nat>>,
      bb: nat, k: nat, defined: set<nat>, b: Builder, frame: Frame, r: Regs, args: seq<Value>, m: Machine)
    requires HostOk(c.program.host) && bb < |f.blocks| && k < |f.blocks[bb].instrs| && f.blocks[bb].instrs[k].Assign?
    requires Emitting(c, f, code, avail, bb, k, defined, b) && InStep(c.program, f, defined, frame, r)
    requires EvalRvalue(c.program.host, frame, f.blocks[bb].instrs[k].rhs).Raise?
    ensures CurOpen(b)
    ensures var end := At(c, depth, fuel, code, b, r);
            var error := Error(EvalRvalue(c.program.host, frame, f.blocks[bb].instrs[k].rhs).code);
            && end.Returned? && end.w == Num(0) && end.m.globals == r.m.globals && Failing(end.m, error)
            && (Reaches(c, depth, fuel, f, code, args, m, b, r) ==>
                  && CallNative(c, depth, f, code, args, m).0 == Failed(error)
                  && CallNative(c, depth, f, code, args, m).1.globals == r.m.globals)
  {
    hide Emitting, At, InStep, GlobalsTyped, EvalRvalue, EmitInstr, InstrOk, InstrEligible, Within, HostOk, Reaches,
        CallNative, Failing, SafeAt, Continues;
    EmittingOpen(c, f, code, avail, bb, k, defined, b);
    var b1 := EmittingStep(c, f, code, avail, bb, k, defined, b);
    var _ := LocalFollows(c, depth, fuel, code, f, defined, b, b1, f.blocks[bb].instrs[k], frame, r);
    if Reaches(c, depth, fuel, f, code, args, m, b, r) {
      FailureReachesCaller(c, depth, fuel, f, code, args, m,
          Error(EvalRvalue(c.program.host, frame, f.blocks[bb].instrs[k].rhs).code), b, r);
    }
  }

  // ----- phi nodes as parallel assignment -----

  /** The last phi that assigns this local. */
  function PhiFor(phis: seq<Phi>, l: nat): Option<nat>
    decreases |phis|
  {
    if phis == [] then None
    else if phis[|phis| - 1].result == l then Some(|phis| - 1)
    else PhiFor(phis[..|phis| - 1], l)
  }

  /** Every local at once: its phi's operand read in the frame before the edge, or its old value. */
  function Parallel(frame: Frame, phis: seq<Phi>, pred: nat): Frame {
    seq(|frame|, l requires 0 <= l < |frame| =>
      var i := PhiFor(phis, l);
      if i.Some? && i.value < |phis| then PhiValue(frame, phis[i.value], Some(pred)) else frame[l])
  }

  lemma {:induction false} StorePhisSnoc(frame: Frame, phis: seq<Phi>, values: seq<Value>)
    requires |phis| == |values| > 0
    ensures var k := |phis| - 1;
            StorePhis(frame, phis, values) == Store(StorePhis(frame, phis[..k], values[..k]), phis[k].result, values[k])
    decreases |phis|
  {
    var k := |phis| - 1;
    if k > 0 {
      assert phis[1..][..k - 1] == phis[..k][1..] && values[1..][..k - 1] == values[..k][1..];
      StorePhisSnoc(Store(frame, phis[0].result, values[0]), phis[1..], values[1..]);
    }
  }

  lemma {:induction false} StoredAt(frame: Frame, phis: seq<Phi>, values: seq<Value>, l: nat)
    requires |phis| == |values| && l < |frame|
    ensures |StorePhis(frame, phis, values)| == |frame|
    ensures PhiFor(phis, l).Some? ==> PhiFor(phis, l).value < |phis|
    ensures StorePhis(frame, phis, values)[l] == if PhiFor(phis, l).Some? then values[PhiFor(phis, l).value]
        else frame[l]
    decreases |phis|
  {
    StorePhisLength(frame, phis, values);
    if phis != [] {
      var k := |phis| - 1;
      StorePhisSnoc(frame, phis, values);
      StoredAt(frame, phis[..k], values[..k], l);
      StorePhisLength(frame, phis[..k], values[..k]);
    }
  }

  /** The interpreter's buffered stores are one simultaneous assignment, swaps and cycles included. */
  lemma PhisAreParallel(frame: Frame, phis: seq<Phi>, pred: nat)
    ensures TakePhis(frame, phis, Some(pred)) == Parallel(frame, phis, pred)
  {
    hide StorePhis, PhiValue;
    var values := seq(|phis|, i requires 0 <= i < |phis| => PhiValue(frame, phis[i], Some(pred)));
    StorePhisLength(frame, phis, values);
    forall l | 0 <= l < |frame|
      ensures TakePhis(frame, phis, Some(pred))[l] == Parallel(frame, phis, pred)[l]
    {
      StoredAt(frame, phis, values, l);
    }
  }

  /** Taking an unconditional edge in emitted code - operands loaded, block arguments passed, then one
      variable definition after another - is the simultaneous assignment, from whatever exception-check
      block the MIR block happens to end in. */
  lemma EdgeIsParallel(c: Config, depth: nat, fuel: nat, f: Function, code: TFunc, avail: seq<set<nat>>, src: nat,
      target: nat, defined: set<nat>, b: Builder, frame: Frame, r: Regs) returns (b': Builder, r': Regs)
    requires Sized(f, code, avail) && Setting(c, f, code, avail) && fuel > 0
    requires src < |f.blocks| && f.blocks[src].term == Goto(target)
    requires Emitting(c, f, code, avail, src, |f.blocks[src].instrs|, defined, b)
    requires InStep(c.program, f, defined, frame, r)
    ensures CurOpen(b) && target < |f.blocks|
    ensures Emitting(c, f, code, avail, target, 0, avail[target] + PhiResults(f.blocks[target].phis), b')
    ensures At(c, depth, fuel, code, b, r) == At(c, depth, fuel - 1, code, b', r')
    ensures r'.m == r.m
    ensures InStep(c.program, f, avail[target] + PhiResults(f.blocks[target].phis),
        Parallel(frame, f.blocks[target].phis, src), r')
  {
    hide Setting, At, GlobalsTyped, RunCode, Arrived, Emitting, Grows, Eligible, HeadsOk, PhiValues, Parallel, TakePhis,
        VarsSafe, CertainKept, Represents, AllSafe, SafeAt, PhisFree, Certified;
    EmittingEnd(c, f, code, avail, src, defined, b);
    var env := GotoRuns(c, depth, fuel, code, f, avail, defined, b, src, target, frame, r);
    EdgePhisFree(f, avail, defined, src, target);
    b', r' := EdgeBinds(c, depth, fuel - 1, f, code, avail, src, target, frame, r.(env := env));
    PhisAreParallel(frame, f.blocks[target].phis, src);
  }

  lemma StillInStep(p: Program, f: Function, defined: set<nat>, fewer: set<nat>, frame: Frame, r: Regs, r': Regs)
    requires InStep(p, f, defined, frame, r) && fewer <= defined
    requires r'.vars == r.vars && r'.m == r.m.(scope := r'.m.scope) && ScopeGrows(r.m.scope, r'.m.scope)
    ensures InStep(p, f, fewer, frame, r')
  {
    hide Represents, VarsSafe, CertainKept, GlobalsTyped;
    VarsLater(f, defined, frame, r.vars, r.m.scope.heap, r'.m.scope.heap);
    VarsSafeLater(f.types, r.vars, r.m.scope, r'.m.scope);
  }

  /** The same for a conditional edge: the side the interpreter takes, with all its phis at once; only
      boxes were added on the way. */
  lemma ConditionalEdgeIsParallel(c: Config, depth: nat, fuel: nat, f: Function, code: TFunc, avail: seq<set<nat>>,
      src: nat, cond: Operand, thenBb: nat, elseBb: nat, defined: set<nat>, b: Builder, frame: Frame, r: Regs)
      returns (b': Builder, r': Regs)
    requires Sized(f, code, avail) && Setting(c, f, code, avail) && fuel > 0
    requires src < |f.blocks| && f.blocks[src].term == Branch(cond, thenBb, elseBb)
    requires Emitting(c, f, code, avail, src, |f.blocks[src].instrs|, defined, b)
    requires InStep(c.program, f, defined, frame, r)
    ensures CurOpen(b) && thenBb < |f.blocks| && elseBb < |f.blocks|
    ensures var target := if Truthy(c.program.host, EvalOperand(frame, cond)) then thenBb else elseBb;
            && Emitting(c, f, code, avail, target, 0, avail[target] + PhiResults(f.blocks[target].phis), b')
            && At(c, depth, fuel, code, b, r) == At(c, depth, fuel - 1, code, b', r')
            && r'.m.globals == r.m.globals && ScopeGrows(r.m.scope, r'.m.scope)
            && InStep(c.program, f, avail[target] + PhiResults(f.blocks[target].phis),
                Parallel(frame, f.blocks[target].phis, src), r')
  {
    hide Setting, At, GlobalsTyped, RunCode, Arrived, Emitting, Grows, Eligible, HeadsOk, PhiValues, Parallel,
        TakePhis, Truthy, Represents, Certified, VarsRel, HeapGrows, VarsSafe, CertainKept, AllSafe, SafeAt, PhisFree;
    EmittingEnd(c, f, code, avail, src, defined, b);
    var target := if Truthy(c.program.host, EvalOperand(frame, cond)) then thenBb else elseBb;
    var env, m := BranchRuns(c, depth, fuel, code, f, avail, defined, b, src, cond, thenBb, elseBb, frame, r);
    StillInStep(c.program, f, defined, avail[target], frame, r, Regs(env, r.vars, m));
    EdgePhisFree(f, avail, defined, src, target);
    b', r' := EdgeBinds(c, depth, fuel - 1, f, code, avail, src, target, frame, Regs(env, r.vars, m));
    PhisAreParallel(frame, f.blocks[target].phis, src);
  }

  // ----- what holds in every state of emitted code -----

  /** Follow a call through any tiers, however deep: whenever an activation is in compiled code, at any
      instruction, a scope is open; every variable has its Cranelift type; Boolean variables are 0 or 1;
      integer and handle variables hold no pointer; boxed ones hold 0 or a box that is alive in that scope;
      and a Boolean about to be passed, stored in a global or returned is the word 0 or 1. */
  lemma EveryStateIsSafe(c: Config, depth: nat, callee: nat, args: seq<Value>, m: Machine, path: seq<State>)
    requires WellFormedProgram(c.program) && callee < |c.program.functions| && Quiet(c.program, m)
    requires Path(c, path) && Activation(c, depth, callee, args, m) == Some(path[0])
    ensures var s := path[|path| - 1];
            s.AtCode? ==>
              && s.r.m.scope.depth > 0
              && (forall x :: 0 <= x < |s.f.types| ==>
                  x in s.r.vars && Safe(s.r.m.scope.heap, s.r.vars[x], s.f.types[x]))
              && (s.blk < |s.code.blocks| ==>
                    var block := s.code.blocks[s.blk];
                    if s.pos < |block.body| then WordsOut(c.program, block.body[s.pos], s.r.env)
                    else WordBack(s.f, block.term, s.r.env))
  {
    hide WellFormedProgram, Activation, Callee, Successor, Safe, WordsOut, WordBack, CallFunction, Agree;
    CallAgrees(c, depth, callee, args, m, m);
    assert AllSafe(c, path[0]);
  }

  /** Converting an encoded raw word to a native value and back gives the same word. */
  lemma RawWordsRoundTrip(p: Program, vt: seq<ClTy>, n: nat, raw: nat, s: Scope, v: Value, ty: MirTy, r: Regs)
    requires raw in r.env && raw < n && HasTy(v, ty) && r.env[raw] == M64(Encode(s, v, ty).1)
    ensures var native := AbiToNative(n, raw, ty);
            var back := NativeToAbi(native.next, native.res, native.ty, ty);
            var end := ExecCode(p, vt, native.code + back.code, r);
            end.Some? && back.res in end.value.env && end.value.env[back.res] == r.env[raw]
  {
    var native := AbiToNative(n, raw, ty);
    var back := NativeToAbi(native.next, native.res, native.ty, ty);
    if native.code == [] {
      assert native.code + back.code == [];
    } else {
      var mv := EvalOp(p, native.code[0].op, r).value.0;
      var r1 := r.(env := r.env[n := mv]);
      ExecOne(p, vt, native.code[0], r);
      ExecOne(p, vt, back.code[0], r1);
      ExecConcat(p, vt, native.code, back.code, r);
    }
  }
}
