// Tiering is invisible: whatever the threshold and the counters, a call ends with the same result,
// the same error and the same globals as in the interpreter alone, and never in undefined behaviour.

module Preservation {
  import opened Arithmetic
  import opened Options
  import opened Mir
  import opened AbiScope
  import opened Clif
  import opened JitEmit
  import opened Typing
  import opened Tiers
  import opened Fragments
  import opened Points
  import opened States
  import opened SafeRuns
  import opened NativeSteps
  import opened Edges
  import opened Calls

  function Interpreted(c: Config): Config {
    c.(threshold := 0)
  }

  /** The ABI scope is as deep as before; while one is open, its boxes are all still there. */
  ghost predicate ScopeKept(s1: Scope, s2: Scope) {
    && Ok(s2) && s2.depth == s1.depth && s2.context == s1.context
    && (s1.depth > 0 ==> HeapGrows(s1.heap, s2.heap))
  }

  /** Two runs of one call agree: same outcome, same globals, machine quiet again. */
  ghost predicate Agree(p: Program, f: Function, m: Machine, res1: (Outcome, Machine), res0: (Outcome, Machine)) {
    && res1.0 == res0.0 && !res1.0.Undefined?
    && (res1.0.Finished? ==> HasTy(res1.0.v, ResultTy(f)))
    && (!res1.0.Timeout? ==>
          && res1.1.globals == res0.1.globals
          && Quiet(p, res1.1) && ScopeKept(m.scope, res1.1.scope))
  }

  /** Native code against the interpreter: its end encodes the interpreter's outcome. */
  ghost predicate Matches(p: Program, f: Function, m: Machine, end: NativeEnd, res0: (Outcome, Machine)) {
    match res0.0
    case Undefined => false
    case Timeout => end.OutOfFuel?
    case Finished(v) =>
      && end.Returned? && HasTy(v, ResultTy(f))
      && Reads(end.m.scope, end.w, f.returnTy, v)
      && Quiet(p, end.m) && end.m.globals == res0.1.globals
      && ScopeGrows(m.scope, end.m.scope)
    case Failed(signal) =>
      Stopped(p, end, m, signal) && end.m.globals == res0.1.globals
  }

  lemma MatchesLater(p: Program, f: Function, m: Machine, m1: Machine, end: NativeEnd, res0: (Outcome, Machine))
    requires ScopeGrows(m.scope, m1.scope) && Matches(p, f, m1, end, res0)
    ensures Matches(p, f, m, end, res0)
  {
  }

  // ----- typed interpretation -----

  lemma NothingEvaluates(h: Host, frame: Frame)
    ensures EvalRvalue(h, frame, Use(Const(LNothing))) == Done(VNothing)
  {
  }

  lemma LocalStep(p: Program, f: Function, defined: set<nat>, frame: Frame, globals: seq<Value>, instr: Instr)
    requires !instr.Call? && InstrOk(p, f, defined, instr)
    requires FrameOk(f, defined, frame) && GlobalsTyped(p, globals)
    ensures var step := ExecLocal(p.host, frame, globals, instr);
            step.Next? ==> FrameOk(f, After(f, defined, instr), step.frame) && GlobalsTyped(p, step.globals)
  {
    hide EvalRvalue, RvalueTyped, RvalueIn;
    match instr
    case Assign(dest, rhs) =>
      assert dest in DefOf(instr);
      if Unset(f, instr) {
        assert ExecLocal(p.host, frame, globals, instr) == Next(Store(frame, dest, VNothing), globals) by {
          NothingEvaluates(p.host, frame);
        }
      } else if EvalRvalue(p.host, frame, rhs).Done? {
        RvalueHasTy(p.host, f, defined, frame, rhs, f.types[dest]);
      }
    case StoreGlobal(g, op) => OperandHasTy(f, defined, frame, op);
    case _ =>
  }

  lemma {:induction false} StorePhisOk(f: Function, defined: set<nat>, frame: Frame, phis: seq<Phi>, values: seq<Value>)
    requires FrameOk(f, defined, frame) && |phis| == |values|
    requires forall i :: 0 <= i < |phis| ==> phis[i].result < |f.types| && HasTy(values[i], f.types[phis[i].result])
    ensures FrameOk(f, defined + PhiResults(phis), StorePhis(frame, phis, values))
    decreases |phis|
  {
    if phis == [] {
      assert defined + PhiResults(phis) == defined;
    } else {
      StorePhisOk(f, defined + {phis[0].result}, Store(frame, phis[0].result, values[0]), phis[1..], values[1..]);
      assert defined + PhiResults(phis) == defined + {phis[0].result} + PhiResults(phis[1..]);
    }
  }

  lemma TakePhisOk(p: Program, f: Function, avail: seq<set<nat>>, defined: set<nat>, frame: Frame, src: nat,
      target: nat)
    requires EdgeOk(f, avail, defined, src, target) && FrameOk(f, defined, frame)
    ensures FrameOk(f, avail[target] + PhiResults(f.blocks[target].phis),
        TakePhis(frame, f.blocks[target].phis, Some(src)))
    ensures TakePhis(frame, f.blocks[target].phis, Some(src))
         == StorePhis(frame, f.blocks[target].phis, PhiValues(frame, f.blocks[target].phis, src))
  {
    var phis := f.blocks[target].phis;
    var values := PhiValues(frame, phis, src);
    forall i | 0 <= i < |phis|
      ensures phis[i].result < |f.types| && HasTy(values[i], f.types[phis[i].result])
    {
      assert PhiOk(f, defined, src, phis[i]);
      OperandHasTy(f, defined, frame, Incoming(phis[i].incoming, src).value);
    }
    StorePhisOk(f, avail[target], frame, phis, values);
  }

  lemma {:induction false} BindParamsOk(f: Function, defined: set<nat>, frame: Frame, params: seq<Param>,
      values: seq<Value>)
    requires FrameOk(f, defined, frame) && |params| == |values|
    requires forall i :: 0 <= i < |params| ==>
        params[i].local < |f.types| && f.types[params[i].local] == AbiTy(params[i])
    requires forall i :: 0 <= i < |params| ==> HasTy(values[i], AbiTy(params[i]))
    ensures FrameOk(f, defined + ParamLocals(params), BindParams(frame, params, values))
    decreases |params|
  {
    if params == [] {
      assert defined + ParamLocals(params) == defined;
    } else {
      BindParamsOk(f, defined + {params[0].local}, Store(frame, params[0].local, values[0]), params[1..], values[1..]);
      assert defined + ParamLocals(params) == defined + {params[0].local} + ParamLocals(params[1..]);
    }
  }

  // ----- finished code, block by block -----

  lemma {:induction false} HeadsParams(f: Function, k: nat)
    requires 1 <= k <= |f.blocks|
    ensures var (blocks, n) := Heads(f, k);
            && blocks[0].params == seq(|f.params|, i => (i, I64)) && n >= |f.params|
            && forall t :: 1 <= t < k ==> PhiParamsOk(f, f.blocks[t].phis, blocks[t].params)
  {
    if k > 1 {
      HeadsParams(f, k - 1);
    }
  }

  /** What compiling a function produced, as seen from one of its blocks. */
  lemma CompiledBlock(p: Program, f: Function, code: TFunc, bi: nat) returns (at: Builder)
    requires Compile(p, f) == Some(code) && bi < |f.blocks|
    ensures Eligible(p, f) && code.varTypes == VarTypes(f) && HeadsOk(f, code)
    ensures Pending(f, at, bi) && EmitBlock(p, f, at, bi).Some?
    ensures Grows(EmitBlock(p, f, at, bi).value.blocks, code.blocks)
    ensures at.blocks[bi].params == code.blocks[bi].params
    ensures bi == 0 ==> at == InitialBuilder(f)
    ensures code.blocks[0].params == seq(|f.params|, i => (i, I64)) && InitialBuilder(f).next >= |f.params|
  {
    hide EmitBlock, EmitBlocks, Heads, Eligible;
    var b := InitialBuilder(f);
    HeadsParams(f, |f.blocks|);
    BlocksGrow(p, f, b, 0);
    at := BuilderBefore(p, f, b, 0, bi);
    forall t | 0 <= t < |f.blocks|
      ensures code.blocks[t].params == b.blocks[t].params
    {
      assert BlockGrows(b.blocks[t], code.blocks[t]);
    }
  }

  // ----- arguments across the trampoline -----

  lemma EncodeOne(s: Scope, v: Value, ty: MirTy)
    requires Ok(s) && s.depth > 0 && HasTy(v, ty)
    ensures var (t, w) := Encode(s, v, ty); EncodedAs(t, w, v, ty) && ScopeGrows(s, t)
  {
    RegisterKeepsOk(s, v);
  }

  lemma EncodedLater(s: Scope, t: Scope, w: Word, v: Value, ty: MirTy)
    requires EncodedAs(s, w, v, ty) && HeapGrows(s.heap, t.heap)
    ensures EncodedAs(t, w, v, ty)
  {
  }

  lemma {:induction false} ArgsEncoded(params: seq<Param>, args: seq<Value>, m: Machine)
    requires |args| <= |params| && Ok(m.scope) && m.scope.depth > 0
    requires forall i :: 0 <= i < |args| ==> HasTy(args[i], AbiTy(params[i]))
    ensures var (m1, words) := EncodeArgs(params, args, m);
            && |words| == |args| && m1 == m.(scope := m1.scope) && ScopeGrows(m.scope, m1.scope)
            && forall i :: 0 <= i < |args| ==> EncodedAs(m1.scope, words[i], args[i], AbiTy(params[i]))
    decreases |args|
  {
    if args != [] {
      hide EncodedAs, HasTy, Encode, AbiTy;
      var k := |args| - 1;
      ArgsEncoded(params, args[..k], m);
      var (m1, words) := EncodeArgs(params, args[..k], m);
      EncodeOne(m1.scope, args[k], AbiTy(params[k]));
      var (scope, w) := Encode(m1.scope, args[k], AbiTy(params[k]));
      forall i | 0 <= i < k
        ensures EncodedAs(scope, words[i], args[i], AbiTy(params[i]))
      {
        EncodedLater(m1.scope, scope, words[i], args[..k][i], AbiTy(params[i]));
      }
    }
  }

  // ----- one emitted instruction -----

  /** Instructions from `k` on are still to be emitted at `b`, and the finished code contains them. */
  ghost predicate Emitting(c: Config, f: Function, code: TFunc, avail: seq<set<nat>>, bb: nat, k: nat,
      defined: set<nat>, b: Builder) {
    && bb < |f.blocks| && k <= |f.blocks[bb].instrs| && CurOpen(b) && |f.blocks| <= |b.blocks|
    && HeadsOk(f, code) && code.varTypes == VarTypes(f) && Eligible(c.program, f)
    && var rest := EmitInstrs(c.program, f, b, f.blocks[bb].instrs[k..]);
    && rest.Some?
    && EmitTerm(f, rest.value, bb, f.blocks[bb].term).Some?
    && Grows(EmitTerm(f, rest.value, bb, f.blocks[bb].term).value.blocks, code.blocks)
    && InstrsOk(c.program, f, defined, f.blocks[bb].instrs[k..])
    && TermOk(f, avail, DefinedAfter(f, defined, f.blocks[bb].instrs[k..]), bb, f.blocks[bb].term)
  }

  lemma EmittingStep(c: Config, f: Function, code: TFunc, avail: seq<set<nat>>, bb: nat, k: nat, defined: set<nat>,
      b: Builder) returns (b1: Builder)
    requires Emitting(c, f, code, avail, bb, k, defined, b) && k < |f.blocks[bb].instrs|
    ensures var instr := f.blocks[bb].instrs[k];
            && EmitInstr(c.program, f, b, instr) == Some(b1) && Within(f, b1, code)
            && InstrOk(c.program, f, defined, instr) && InstrEligible(c.program, f, instr)
            && Emitting(c, f, code, avail, bb, k + 1, After(f, defined, instr), b1)
  {
    hide EmitInstr, EmitTerm, InstrOk, InstrEligible, TermOk, PhiParamsOk, Grows;
    var instrs := f.blocks[bb].instrs;
    assert instrs[k..][0] == instrs[k] && instrs[k..][1..] == instrs[k + 1..];
    b1 := EmitInstr(c.program, f, b, instrs[k]).value;
    InstrsGrow(c.program, f, b1, instrs[k + 1..]);
    var last := EmitInstrs(c.program, f, b1, instrs[k + 1..]).value;
    TermGrows(f, last, bb, f.blocks[bb].term);
    InstrGrows(c.program, f, b, instrs[k]);
    GrowsTrans(b1.blocks, last.blocks, EmitTerm(f, last, bb, f.blocks[bb].term).value.blocks);
    GrowsTrans(b1.blocks, EmitTerm(f, last, bb, f.blocks[bb].term).value.blocks, code.blocks);
    GrowsLength(b.blocks, b1.blocks);
    assert BlockEligible(c.program, f, f.blocks[bb]);
  }

  lemma GrowsLength(xs: seq<TBlock>, ys: seq<TBlock>)
    requires Grows(xs, ys)
    ensures |xs| <= |ys|
  {
  }

  /** The code emitted for an instruction other than a call does what the interpreter does. */
  ghost predicate Follows(c: Config, depth: nat, fuel: nat, code: TFunc, f: Function, defined: set<nat>, b: Builder,
      b1: Builder, instr: Instr, frame: Frame, r: Regs, r': Regs)
    requires CurOpen(b) && CurOpen(b1) && !instr.Call?
  {
    match ExecLocal(c.program.host, frame, r.m.globals, instr)
    case Next(frame1, globals) =>
      && Continues(c, depth, fuel, f, code, b, r, b1, r')
      && InStep(c.program, f, After(f, defined, instr), frame1, r')
      && r'.m.globals == globals && ScopeGrows(r.m.scope, r'.m.scope)
    case Stop(signal) =>
      && Stopped(c.program, At(c, depth, fuel, code, b, r), r.m, signal)
      && At(c, depth, fuel, code, b, r).m.globals == r.m.globals
      && SafeAt(c, depth, fuel, f, code, b, r)
  }

  lemma LocalFollows(c: Config, depth: nat, fuel: nat, code: TFunc, f: Function, defined: set<nat>, b: Builder,
      b1: Builder, instr: Instr, frame: Frame, r: Regs) returns (r': Regs)
    requires HostOk(c.program.host) && !instr.Call? && CurOpen(b) && |f.blocks| <= |b.blocks|
    requires EmitInstr(c.program, f, b, instr) == Some(b1) && Within(f, b1, code)
    requires InstrOk(c.program, f, defined, instr) && InstrEligible(c.program, f, instr)
    requires instr.CertainCheck? ==> Sure(f, instr.op)
    requires InStep(c.program, f, defined, frame, r)
    ensures Follows(c, depth, fuel, code, f, defined, b, b1, instr, frame, r, r')
  {
    hide At, SafeAt, EvalRvalue, RvalueIn, RvalueTyped, HostOk, EmitRvalue, VarsRel, VarsSafe, CertainKept;
    match instr
    case Assign(dest, rhs) =>
      assert dest in DefOf(instr);
      if Unset(f, instr) {
        NothingEvaluates(c.program.host, frame);
        r' := UnsetRuns(c, depth, fuel, code, f, defined, b, dest, frame, r);
        return;
      }
      r' := AssignRuns(c, depth, fuel, code, f, defined, b, dest, rhs, frame, r);
    case LoadGlobal(dest, g) =>
      assert dest in DefOf(instr);
      r' := LoadGlobalRuns(c, depth, fuel, code, f, defined, b, dest, g, frame, r);
    case StoreGlobal(g, op) =>
      r' := StoreGlobalRuns(c, depth, fuel, code, f, defined, b, g, op, frame, r);
      assert After(f, defined, instr) == defined;
    case CertainCheck(op) =>
      r' := r;
      CertainNeverFails(c.program, f, defined, frame, op, r.vars, r.m.scope.heap);
      assert After(f, defined, instr) == defined;
    case Nop =>
      r' := r;
      assert After(f, defined, instr) == defined;
  }

  /** Leaving a certainty check out loses nothing: its operand is a number, a constant, or a parameter that
      argument preparation let through. */
  lemma CertainNeverFails(p: Program, f: Function, defined: set<nat>, frame: Frame, op: Operand, vars: map<nat, MVal>,
      heap: map<nat, Value>)
    requires OpIn(f, defined, op) && Sure(f, op)
    requires VarsRel(f, defined, frame, vars, heap) && CertainKept(f, frame)
    ensures !EvalOperand(frame, op).VNothing?
  {
    VarsFrameOk(f, defined, frame, vars, heap);
    OperandHasTy(f, defined, frame, op);
  }

  // ----- an emitted call, given that the callee agrees -----

  function AfterResult(frame: Frame, dest: Option<nat>, v: Value): Frame {
    if dest.Some? then Store(frame, dest.value, v) else frame
  }

  function AfterDest(defined: set<nat>, dest: Option<nat>): set<nat> {
    if dest.Some? then defined + {dest.value} else defined
  }

  /** The code emitted for a call does what the interpreter does with the callee's outcome. */
  ghost predicate FollowsCall(c: Config, depth: nat, fuel: nat, code: TFunc, f: Function, defined: set<nat>,
      b: Builder, b1: Builder, dest: Option<nat>, frame: Frame, r: Regs, r': Regs, res0: (Outcome, Machine))
    requires CurOpen(b) && CurOpen(b1)
  {
    match res0.0
    case Finished(v) =>
      && Continues(c, depth, fuel, f, code, b, r, b1, r')
      && InStep(c.program, f, AfterDest(defined, dest), AfterResult(frame, dest, v), r')
      && r'.m.globals == res0.1.globals && ScopeGrows(r.m.scope, r'.m.scope)
    case Failed(signal) =>
      && Stopped(c.program, At(c, depth, fuel, code, b, r), r.m, signal)
      && At(c, depth, fuel, code, b, r).m.globals == res0.1.globals
      && SafeAt(c, depth, fuel, f, code, b, r)
    case Timeout => At(c, depth, fuel, code, b, r).OutOfFuel? && SafeAt(c, depth, fuel, f, code, b, r)
    case Undefined => false
  }

  /** The registers in which native code goes on once its callee is back. */
  function Resumed(callee: Function, dst: nat, r: Regs, res: (Outcome, Machine)): Regs
    requires res.0.Finished? || res.0.Failed?
  {
    match res.0
    case Failed(signal) =>
      r.(env := r.env[dst := M64(Num(0))], m := res.1.(sig := Some(signal), exc := Some(Marker)))
    case Finished(v) =>
      var (scope, w) := Encode(res.1.scope, v, callee.returnTy);
      r.(env := r.env[dst := M64(w)], m := res.1.(scope := scope))
  }

  lemma CallReachedSafe(c: Config, depth: nat, fuel: nat, f: Function, code: TFunc, b: Builder, before: seq<Inst>,
      call: Inst, callee: nat, values: seq<Value>, r: Regs, r1: Regs)
    requires call.Let? && call.op.CallFn? && call.op.callee == callee < |c.program.functions|
    requires CurOpen(b) && Grows(Append(b, before + [call], call.dst + 1).blocks, code.blocks)
    requires ExecCode(c.program, code.varTypes, before, r) == Some(r1)
    requires Careful(c.program, code.varTypes, f.types, before, r) && VarsSafe(f.types, r1.vars, r1.m.scope)
    requires Lookup(r1.env, call.op.fnArgs).Some?
    requires DecodeArgs(c.program.functions[callee].params, Lookup(r1.env, call.op.fnArgs).value, r1.m) == Some(values)
    requires BitsOut(c.program.functions[callee].params, call.op.fnArgs, r1.env)
    requires SafeFrom(c, Activation(c, depth, callee, values, r1.m))
    requires var res := CallFunction(c, depth, callee, values, r1.m);
             res.0.Finished? || res.0.Failed? ==>
               SafeAt(c, depth, fuel, f, code, Append(b, before + [call], call.dst + 1),
                      Resumed(c.program.functions[callee], call.dst, r1, res))
    ensures SafeAt(c, depth, fuel, f, code, b, r)
  {
    hide RunCode, CallFunction, ExecCode, Grows, Encode, SafeAt, AllSafe, VarsSafe, Careful, BitsOut, Activation,
        DecodeArgs, Lookup;
    var body := b.blocks[b.cur].body;
    var b1 := Append(b, before + [call], call.dst + 1);
    GrowsHere(b1.blocks, code.blocks, b.cur);
    assert body + (before + [call]) == (body + before) + [call];
    PrefixSlice(body + before, [call], code.blocks[b.cur].body);
    var s := AtCode(f, code, depth, fuel, b.cur, |body + before|, r1);
    assert CallAt(s) == Some(call) by {
      assert code.blocks[b.cur].body[s.pos] == call;
    }
    CallSafe(c, depth, fuel, f, code, b, before, call, call.dst + 1, r, r1);
  }

  lemma GrowsHere(xs: seq<TBlock>, ys: seq<TBlock>, i: nat)
    requires Grows(xs, ys) && i < |xs|
    ensures |xs| <= |ys| && BlockGrows(xs[i], ys[i])
  {
  }

  lemma CallReached(c: Config, depth: nat, fuel: nat, code: TFunc, f: Function, defined: set<nat>, b: Builder,
      dest: Option<nat>, callee: nat, args: seq<Operand>, frame: Frame, r: Regs) returns (r1: Regs)
    requires CurOpen(b) && callee < |c.program.functions| && code.varTypes == VarTypes(f)
    requires InstrEligible(c.program, f, Call(None, callee, args))
    requires forall i :: 0 <= i < |args| ==> OpIn(f, defined, args[i])
    requires InStep(c.program, f, defined, frame, r)
    requires var (before, call, after) := EmitCall(f, b.next, callee, args, DestTy(f, dest));
             Grows(Append(b, before + [call], call.dst + 1).blocks, code.blocks)
    ensures r1.m == r.m && r1.vars == r.vars
    ensures var (before, call, after) := EmitCall(f, b.next, callee, args, DestTy(f, dest));
            var res := CallFunction(c, depth, callee, EvalOperands(frame, args), r.m);
            && (res.0.Timeout? ==> At(c, depth, fuel, code, b, r) == OutOfFuel)
            && (res.0.Finished? || res.0.Failed? ==>
                  At(c, depth, fuel, code, b, r)
                  == At(c, depth, fuel, code, Append(b, before + [call], call.dst + 1),
                      Resumed(c.program.functions[callee], call.dst, r1, res)))
            && (SafeFrom(c, Activation(c, depth, callee, EvalOperands(frame, args), r.m)) ==>
                  && (res.0.Timeout? ==> SafeAt(c, depth, fuel, f, code, b, r))
                  && (res.0.Finished? || res.0.Failed? ==>
                        SafeAt(c, depth, fuel, f, code, Append(b, before + [call], call.dst + 1),
                            Resumed(c.program.functions[callee], call.dst, r1, res)) ==>
                          SafeAt(c, depth, fuel, f, code, b, r)))
  {
    hide RunCode, VarsRel, CallFunction, ExecCode, Grows, Encode, EmitArgs, InstrEligible, OpIn, SafeAt, AllSafe,
        VarsSafe, CertainKept, GlobalsTyped, Careful, Lets, BitsOut, Activation, Carries;
    var (before, call, after) := EmitCall(f, b.next, callee, args, DestTy(f, dest));
    r1 := ArgumentsReach(c, depth, f, callee, args, b.next, defined, frame, r);
    RunToCall(c, depth, fuel, code, b, before, call, call.dst + 1, r, r1);
    ArgsLets(f, b.next, args);
    LetsCareful(c.program, code.varTypes, f.types, before, r);
    var res := CallFunction(c, depth, callee, EvalOperands(frame, args), r.m);
    var b1 := Append(b, before + [call], call.dst + 1);
    if SafeFrom(c, Activation(c, depth, callee, EvalOperands(frame, args), r.m)) &&
      (res.0.Finished? || res.0.Failed? ==>
        SafeAt(c, depth, fuel, f, code, b1, Resumed(c.program.functions[callee], call.dst, r1, res)))
    {
      CallReachedSafe(c, depth, fuel, f, code, b, before, call, callee, EvalOperands(frame, args), r, r1);
    }
  }

  /** Nothing and flexible results cross the boundary alike. */
  lemma ResultEncoded(s: Scope, v: Value, fn: Function)
    ensures Encode(s, v, ResultTy(fn)) == Encode(s, v, fn.returnTy)
  {
  }

  lemma CallFollows(c: Config, depth: nat, fuel: nat, code: TFunc, f: Function, defined: set<nat>, b: Builder,
      b1: Builder, dest: Option<nat>, callee: nat, args: seq<Operand>, frame: Frame, r: Regs, res0: (Outcome,
      Machine)) returns (r': Regs)
    requires CurOpen(b) && |f.blocks| <= |b.blocks| && callee < |c.program.functions|
    requires EmitInstr(c.program, f, b, Call(dest, callee, args)) == Some(b1) && Within(f, b1, code)
    requires InstrOk(c.program, f, defined, Call(dest, callee, args)) &&
        InstrEligible(c.program, f, Call(dest, callee, args))
    requires InStep(c.program, f, defined, frame, r)
    requires Agree(c.program, c.program.functions[callee], r.m,
        CallFunction(c, depth, callee, EvalOperands(frame, args), r.m), res0)
    requires SafeFrom(c, Activation(c, depth, callee, EvalOperands(frame, args), r.m))
    ensures FollowsCall(c, depth, fuel, code, f, defined, b, b1, dest, frame, r, r', res0)
  {
    hide At, VarsRel, CallFunction, ExecCode, Grows, Encode, EmitArgs, AbiToNative, RawFits, OpIn, EvalOperands, Store,
        SafeAt, AllSafe, VarsSafe, CertainKept, Activation, ResultTy, HasTy, Ok;
    var fn := c.program.functions[callee];
    assert dest.Some? ==> dest.value in DefOf(Call(dest, callee, args));
    var (before, call, after) := EmitCall(f, b.next, callee, args, DestTy(f, dest));
    var atCall := Append(b, before + [call], call.dst + 1);
    var stored := DefResult(atCall, after, dest);
    assert b1 == ExceptionCheck(stored);
    CallCodeGrows(atCall, after, dest, code);
    var r1 := CallReached(c, depth, fuel, code, f, defined, b, dest, callee, args, frame, r);
    var res := CallFunction(c, depth, callee, EvalOperands(frame, args), r.m);
    match res.0
    case Timeout =>
      r' := r;
    case Failed(signal) =>
      r' := Resumed(fn, call.dst, r1, res);
      VarsSafeLater(f.types, r.vars, r.m.scope, res.1.scope);
      FailureRuns(c, depth, fuel, code, f, atCall, dest, call.dst, r');
    case Finished(v) =>
      var (scope, w) := Encode(res.1.scope, v, fn.returnTy);
      EncodeGrows(res.1.scope, v, fn.returnTy);
      ResultEncoded(res.1.scope, v, fn);
      VarsLater(f, defined, frame, r1.vars, r.m.scope.heap, scope.heap);
      VarsSafeLater(f.types, r.vars, r.m.scope, scope);
      r' := ResultRuns(c, depth, fuel, code, f, defined, atCall, dest, call.dst, res.1.scope, v, ResultTy(fn), frame,
          Resumed(fn, call.dst, r1, res));
  }

  lemma CallCodeGrows(b: Builder, frag: Frag, dest: Option<nat>, code: TFunc)
    requires CurOpen(b) && Grows(ExceptionCheck(DefResult(b, frag, dest)).blocks, code.blocks)
    ensures Grows(b.blocks, code.blocks)
  {
    hide Grows;
    var stored := DefResult(b, frag, dest);
    AppendGrows(b, frag.code + (if dest.Some? then [DefVar(dest.value, frag.res)] else []), frag.next);
    CheckGrows(stored);
    GrowsTrans(b.blocks, stored.blocks, ExceptionCheck(stored).blocks);
    GrowsTrans(b.blocks, ExceptionCheck(stored).blocks, code.blocks);
  }

  // ----- whole activations, by induction on the run -----

  /** What the type checker established about the rest of a block. */
  ghost predicate Remaining(p: Program, f: Function, avail: seq<set<nat>>, bb: nat, k: nat, defined: set<nat>) {
    && Certified(p, f, avail) && bb < |f.blocks| && k <= |f.blocks[bb].instrs|
    && InstrsOk(p, f, defined, f.blocks[bb].instrs[k..])
    && TermOk(f, avail, DefinedAfter(f, defined, f.blocks[bb].instrs[k..]), bb, f.blocks[bb].term)
  }

  lemma RemainingStep(p: Program, f: Function, avail: seq<set<nat>>, bb: nat, k: nat, defined: set<nat>)
    requires Remaining(p, f, avail, bb, k, defined) && k < |f.blocks[bb].instrs|
    ensures var instr := f.blocks[bb].instrs[k];
            InstrOk(p, f, defined, instr) && Remaining(p, f, avail, bb, k + 1, After(f, defined, instr))
  {
    hide InstrOk, TermOk, Certified;
    var instrs := f.blocks[bb].instrs;
    assert instrs[k..][0] == instrs[k] && instrs[k..][1..] == instrs[k + 1..];
  }

  lemma RemainingEnd(p: Program, f: Function, avail: seq<set<nat>>, bb: nat, defined: set<nat>)
    requires bb < |f.blocks| && Remaining(p, f, avail, bb, |f.blocks[bb].instrs|, defined)
    ensures TermOk(f, avail, defined, bb, f.blocks[bb].term)
  {
    hide TermOk, Certified;
    assert f.blocks[bb].instrs[|f.blocks[bb].instrs|..] == [];
  }

  lemma BlockRemaining(p: Program, f: Function, avail: seq<set<nat>>, bb: nat)
    requires Certified(p, f, avail) && bb < |f.blocks|
    ensures Remaining(p, f, avail, bb, 0, avail[bb] + PhiResults(f.blocks[bb].phis))
  {
    hide InstrsOk, TermOk, DefinedAfter;
    assert BlockOk(p, f, avail, bb);
    assert f.blocks[bb].instrs[0..] == f.blocks[bb].instrs;
  }

  /** A well-formed program on a quiet machine: any tier state against the interpreter alone. */
  lemma {:induction false} CallAgrees(c: Config, depth: nat, callee: nat, args: seq<Value>, m1: Machine, m0: Machine)
    requires WellFormedProgram(c.program) && callee < |c.program.functions|
    requires Quiet(c.program, m1) && m1.globals == m0.globals
    ensures Agree(c.program, c.program.functions[callee], m1,
                  CallFunction(c, depth, callee, args, m1), CallFunction(Interpreted(c), depth, callee, args, m0))
    ensures SafeFrom(c, Activation(c, depth, callee, args, m1))
    decreases depth, 0, 0, 0, 0
  {
    hide Interpret, CallNative, Compile, Certified, PrepareAll, HasTy, GlobalsTyped, CompiledEntry, Arrival, AllSafe,
        EncodeArgs, ChecksSure, Meets;
    var p, f := c.program, c.program.functions[callee];
    assert WellFormed(p, f);
    if depth > 0 && Prepare(p.host, f.params, args).Ready? {
      PreparedArgsFit(p.host, f.params, args);
      var prepared := Prepare(p.host, f.params, args).args;
      var (native, tiered) := ChooseTier(c, callee, m1);
      assert Quiet(p, tiered) && tiered.scope == m1.scope && tiered.globals == m1.globals;
      if native && Compile(p, f).Some? {
        NativeAgrees(c, depth - 1, f, prepared, tiered, m0);
      } else {
        InterpretAgrees(c, depth - 1, f, prepared, tiered, m0);
      }
    }
  }

  lemma {:induction false} InterpretAgrees(c: Config, depth: nat, f: Function, args: seq<Value>, m1: Machine,
      m0: Machine)
    requires WellFormedProgram(c.program) && WellFormed(c.program, f)
    requires |args| == |f.params| && forall i :: 0 <= i < |args| ==> Meets(args[i], f.params[i])
    requires Quiet(c.program, m1) && m1.globals == m0.globals
    ensures Agree(c.program, f, m1, Interpret(c, depth, f, args, m1), Interpret(Interpreted(c), depth, f, args, m0))
    ensures SafeFrom(c, Arrival(f, depth, c.limit, 0, None, EntryFrame(f, args), m1))
    decreases depth, 3, 0, 0, 0
  {
    hide BlockOk, AbiTy, HasTy, WellFormedProgram, GlobalsTyped, RunInstrs, Agree, AllSafe, ChecksSure, Compile;
    var g, avail := TypeMap(c.program, f);
    var frame := EntryFrame(f, args);
    BindParamsOk(g, {}, seq(|f.types|, i => VNothing), f.params, args);
    assert {} + ParamLocals(f.params) == avail[0] + PhiResults(f.blocks[0].phis);
    BlockRemaining(c.program, g, avail, 0);
    InstrsAgree(c, depth, c.limit, f, g, avail, 0, 0, avail[0] + PhiResults(f.blocks[0].phis), frame, m1, m0);
  }

  /** Some type map that the function obeys. */
  lemma TypeMap(p: Program, f: Function) returns (g: Function, avail: seq<set<nat>>)
    requires WellFormed(p, f)
    ensures SameBody(f, g) && Certified(p, g, avail)
  {
    hide Compile, Certified;
    if Compile(p, f).Some? {
      g := f;
      avail :| Certified(p, f, avail);
    } else {
      g, avail :| SameBody(f, g) && Certified(p, g, avail);
    }
  }

  lemma ResultFits(f: Function, defined: set<nat>, frame: Frame, dest: Option<nat>, v: Value, from: MirTy)
    requires FrameOk(f, defined, frame) && HasTy(v, from)
    requires dest.Some? ==> dest.value < |f.types| && RawFits(from, f.types[dest.value])
    ensures FrameOk(f, AfterDest(defined, dest), AfterResult(frame, dest, v))
  {
  }

  lemma {:induction false} InstrsAgree(c: Config, depth: nat, fuel: nat, f: Function, g: Function,
      avail: seq<set<nat>>, bb: nat, k: nat, defined: set<nat>, frame: Frame, m1: Machine, m0: Machine)
    requires WellFormedProgram(c.program) && SameBody(f, g) && Remaining(c.program, g, avail, bb, k, defined)
    requires FrameOk(g, defined, frame) && Quiet(c.program, m1) && m1.globals == m0.globals
    ensures Agree(c.program, f, m1, RunInstrs(c, depth, fuel, f, bb, k, frame, m1),
                  RunInstrs(Interpreted(c), depth, fuel, f, bb, k, frame, m0))
    ensures AllSafe(c, AtInstr(f, depth, fuel, bb, k, frame, m1))
    decreases depth, 2, fuel, 1, |f.blocks[bb].instrs| - k
  {
    hide FrameOk, WellFormedProgram, CallFunction, HasTy, GlobalsTyped, RunTerm, Certified, InstrsOk, TermOk,
        DefinedAfter, EvalRvalue, RvalueIn, RvalueTyped, Store, RawFits, Fits, AllSafe, Activation, AfterInstrs,
        EvalOperands;
    if k == |f.blocks[bb].instrs| {
      RemainingEnd(c.program, g, avail, bb, defined);
      TermAgrees(c, depth, fuel, f, g, avail, bb, defined, frame, m1, m0);
    } else {
      RemainingStep(c.program, g, avail, bb, k, defined);
      match f.blocks[bb].instrs[k]
      case Call(dest, callee, args) =>
        var values := EvalOperands(frame, args);
        CallAgrees(c, depth, callee, values, m1, m0);
        var res1 := CallFunction(c, depth, callee, values, m1);
        var res0 := CallFunction(Interpreted(c), depth, callee, values, m0);
        if res1.0.Finished? {
          ResultFits(g, defined, frame, dest, res1.0.v, ResultTy(c.program.functions[callee]));
          assert AfterDest(defined, dest) == After(g, defined, f.blocks[bb].instrs[k]);
          InstrsAgree(c, depth, fuel, f, g, avail, bb, k + 1, AfterDest(defined, dest),
              AfterResult(frame, dest, res1.0.v), res1.1, res0.1);
        }
      case instr =>
        LocalStep(c.program, g, defined, frame, m1.globals, instr);
        var step := ExecLocal(c.program.host, frame, m1.globals, instr);
        if step.Next? {
          InstrsAgree(c, depth, fuel, f, g, avail, bb, k + 1, After(g, defined, instr), step.frame,
              m1.(globals := step.globals), m0.(globals := step.globals));
        }
    }
    SafeBefore(c, AtInstr(f, depth, fuel, bb, k, frame, m1));
  }

  lemma {:induction false} TermAgrees(c: Config, depth: nat, fuel: nat, f: Function, g: Function,
      avail: seq<set<nat>>, bb: nat, defined: set<nat>, frame: Frame, m1: Machine, m0: Machine)
    requires WellFormedProgram(c.program) && SameBody(f, g) && Certified(c.program, g, avail) && bb < |f.blocks|
    requires TermOk(g, avail, defined, bb, f.blocks[bb].term)
    requires FrameOk(g, defined, frame) && Quiet(c.program, m1) && m1.globals == m0.globals
    ensures Agree(c.program, f, m1, RunTerm(c, depth, fuel, f, bb, frame, m1),
        RunTerm(Interpreted(c), depth, fuel, f, bb, frame, m0))
    ensures SafeFrom(c, AfterInstrs(c, AtInstr(f, depth, fuel, bb, |f.blocks[bb].instrs|, frame, m1)))
    decreases depth, 2, fuel, 0, 0
  {
    hide FrameOk, WellFormedProgram, RunBlock, GlobalsTyped, Certified, EdgeOk, AllSafe, Arrival;
    match f.blocks[bb].term
    case Return(None) =>
    case Return(Some(op)) => OperandHasTy(g, defined, frame, op);
    case Throw(_) =>
    case Goto(target) =>
      if fuel > 0 {
        EdgeAgrees(c, depth, fuel - 1, f, g, avail, bb, target, defined, frame, m1, m0);
      }
    case Branch(cond, thenBb, elseBb) =>
      if fuel > 0 {
        var target := if Truthy(c.program.host, EvalOperand(frame, cond)) then thenBb else elseBb;
        EdgeAgrees(c, depth, fuel - 1, f, g, avail, bb, target, defined, frame, m1, m0);
      }
  }

  lemma {:induction false} EdgeAgrees(c: Config, depth: nat, fuel: nat, f: Function, g: Function,
      avail: seq<set<nat>>, src: nat, target: nat, defined: set<nat>, frame: Frame, m1: Machine, m0: Machine)
    requires WellFormedProgram(c.program) && SameBody(f, g) && Certified(c.program, g, avail)
    requires EdgeOk(g, avail, defined, src, target)
    requires FrameOk(g, defined, frame) && Quiet(c.program, m1) && m1.globals == m0.globals
    ensures Agree(c.program, f, m1, RunBlock(c, depth, fuel, f, target, Some(src), frame, m1),
                  RunBlock(Interpreted(c), depth, fuel, f, target, Some(src), frame, m0))
    ensures SafeFrom(c, Arrival(f, depth, fuel, target, Some(src), frame, m1))
    decreases depth, 2, fuel, 2, 0
  {
    hide FrameOk, WellFormedProgram, RunInstrs, GlobalsTyped, Agree, PhiOk, AllSafe;
    TakePhisOk(c.program, g, avail, defined, frame, src, target);
    BlockRemaining(c.program, g, avail, target);
    InstrsAgree(c, depth, fuel, f, g, avail, target, 0, avail[target] + PhiResults(f.blocks[target].phis),
                TakePhis(frame, f.blocks[target].phis, Some(src)), m1, m0);
  }

  // ----- native activations -----

  /** A certified function of a well-formed program, and the code compiled for it. */
  ghost predicate Setting(c: Config, f: Function, code: TFunc, avail: seq<set<nat>>) {
    && WellFormedProgram(c.program) && Certified(c.program, f, avail)
    && Compile(c.program, f) == Some(code) && HeadsOk(f, code) && ChecksSure(f)
  }

  predicate Sized(f: Function, code: TFunc, avail: seq<set<nat>>) {
    |avail| == |f.blocks| && 0 < |f.blocks| <= |code.blocks|
  }

  lemma SettingHolds(c: Config, f: Function) returns (avail: seq<set<nat>>)
    requires WellFormedProgram(c.program) && WellFormed(c.program, f) && Compile(c.program, f).Some?
    ensures Setting(c, f, Compile(c.program, f).value, avail) && Sized(f, Compile(c.program, f).value, avail)
  {
    hide WellFormedProgram, Compile, BlockOk, ChecksSure;
    avail :| Certified(c.program, f, avail);
    var _ := CompiledBlock(c.program, f, Compile(c.program, f).value, 0);
  }

  lemma {:induction false} NativeAgrees(c: Config, depth: nat, f: Function, args: seq<Value>, m1: Machine, m0: Machine)
    requires WellFormedProgram(c.program) && WellFormed(c.program, f) && Compile(c.program, f).Some?
    requires |args| == |f.params| && forall i :: 0 <= i < |args| ==> Meets(args[i], f.params[i])
    requires Quiet(c.program, m1) && m1.globals == m0.globals
    ensures Agree(c.program, f, m1, CallNative(c, depth, f, Compile(c.program, f).value, args, m1),
                  Interpret(Interpreted(c), depth, f, args, m0))
    ensures var (encoded, words) := EncodeArgs(f.params, args, m1.(scope := Enter(m1.scope.(context := 1))));
            SafeFrom(c, CompiledEntry(c, depth, f, Compile(c.program, f).value, words, encoded))
    decreases depth, 3, 0, 0, 0
  {
    hide WellFormedProgram, Compile, RunNativeFunction, Interpret, EncodeArgs, HasTy, GlobalsTyped, Decode, AbiTy,
        Encode, AllSafe, CompiledEntry;
    var p, code := c.program, Compile(c.program, f).value;
    EnterKeepsOk(m1.scope.(context := 1));
    var inScope := m1.(scope := Enter(m1.scope.(context := 1)));
    ArgsEncoded(f.params, args, inScope);
    var (encoded, words) := EncodeArgs(f.params, args, inScope);
    var avail := SettingHolds(c, f);
    EntryMatches(c, depth, f, code, avail, args, words, encoded, m0);
    CloseAgrees(c, depth, f, code, args, m1, RunNativeFunction(c, depth, code, words, encoded),
        Interpret(Interpreted(c), depth, f, args, m0));
  }

  /** Leaving the scope: the raw result, or the pending exception, is the call's outcome. */
  lemma CloseAgrees(c: Config, depth: nat, f: Function, code: TFunc, args: seq<Value>, m: Machine, end: NativeEnd,
      res0: (Outcome, Machine))
    requires Quiet(c.program, m)
    requires var inScope := m.(scope := Enter(m.scope.(context := 1)));
             var (encoded, words) := EncodeArgs(f.params, args, inScope);
             && ScopeGrows(inScope.scope, encoded.scope)
             && end == RunNativeFunction(c, depth, code, words, encoded)
             && Matches(c.program, f, encoded, end, res0)
    ensures Agree(c.program, f, m, CallNative(c, depth, f, code, args, m), res0)
  {
    hide RunNativeFunction, EncodeArgs, GlobalsTyped, HasTy, Ok, Enter, Exit, ScopeGrows, HeapGrows, ScopeKept;
    var inScope := m.(scope := Enter(m.scope.(context := 1)));
    var (encoded, words) := EncodeArgs(f.params, args, inScope);
    if end.Returned? {
      ClosingKept(m.scope, inScope.scope, encoded.scope, end.m.scope);
    }
  }

  lemma ClosingKept(s0: Scope, s1: Scope, s2: Scope, s3: Scope)
    requires Ok(s0) && s1 == Enter(s0.(context := 1)) && ScopeGrows(s1, s2) && ScopeGrows(s2, s3)
    ensures ScopeKept(s0, Exit(s3).(context := s0.context)) && Ok(Exit(s3).(context := s0.context))
  {
    ExitKeepsOk(s3);
  }

  /** Emission of a certified block starts with everything its instructions need. */
  lemma BlockEmitting(c: Config, f: Function, code: TFunc, avail: seq<set<nat>>, bb: nat, at: Builder)
    requires Certified(c.program, f, avail) && bb < |f.blocks|
    requires Eligible(c.program, f) && code.varTypes == VarTypes(f) && HeadsOk(f, code)
    requires Pending(f, at, bb) && EmitBlock(c.program, f, at, bb).Some?
    requires Grows(EmitBlock(c.program, f, at, bb).value.blocks, code.blocks)
    ensures Emitting(c, f, code, avail, bb, 0, avail[bb] + PhiResults(f.blocks[bb].phis), StartBlock(f, at, bb))
    ensures Grows(StartBlock(f, at, bb).blocks, code.blocks)
  {
    hide InstrsOk, TermOk, DefinedAfter, Eligible, EmitTerm, Grows, EmitInstrs, PhiParamsOk, StartBlock, Certified;
    var start := StartBlock(f, at, bb);
    StartLength(f, at, bb);
    BlockRemaining(c.program, f, avail, bb);
    assert f.blocks[bb].instrs[0..] == f.blocks[bb].instrs;
    var filled := EmitInstrs(c.program, f, start, f.blocks[bb].instrs).value;
    var done := EmitTerm(f, filled, bb, f.blocks[bb].term).value;
    InstrsGrow(c.program, f, start, f.blocks[bb].instrs);
    TermGrows(f, filled, bb, f.blocks[bb].term);
    GrowsTrans(start.blocks, filled.blocks, done.blocks);
    GrowsTrans(start.blocks, done.blocks, code.blocks);
  }

  lemma StartLength(f: Function, at: Builder, bb: nat)
    requires bb < |f.blocks| && Pending(f, at, bb)
    ensures |f.blocks| <= |StartBlock(f, at, bb).blocks|
  {
  }

  lemma EntryEnv(f: Function, params: seq<(nat, ClTy)>, words: seq<Word>) returns (env: map<nat, MVal>)
    requires params == seq(|f.params|, i => (i, I64)) && |words| == |f.params|
    ensures BindBlockParams(params, seq(|words|, i requires 0 <= i < |words| => M64(words[i]))) == Some(env)
    ensures forall i :: 0 <= i < |words| ==> i in env && env[i] == M64(words[i])
  {
    var vals := seq(|words|, i requires 0 <= i < |words| => M64(words[i]));
    ParamsBind(params, vals);
    env := BindBlockParams(params, vals).value;
    forall i | 0 <= i < |words|
      ensures i in env && env[i] == M64(words[i])
    {
      assert params[i].0 == i;
    }
  }

  lemma StartSafe(c: Config, depth: nat, fuel: nat, f: Function, code: TFunc, at: Builder, bb: nat, r: Regs)
    requires bb < |f.blocks| && Pending(f, at, bb)
    ensures SafeAt(c, depth, fuel, f, code, at.(cur := bb), r) <==> AllSafe(c, AtCode(f, code, depth, fuel, bb, 0, r))
  {
    hide AllSafe;
  }

  lemma CompiledEntryAt(c: Config, depth: nat, f: Function, code: TFunc, words: seq<Word>, m: Machine,
      env: map<nat, MVal>)
    requires code.blocks != []
    requires BindBlockParams(code.blocks[0].params, seq(|words|, i requires 0 <= i < |words| => M64(words[i])))
        == Some(env)
    ensures CompiledEntry(c, depth, f, code, words, m)
        == Some(AtCode(f, code, depth, c.limit, 0, 0, Regs(env, InitialVars(code.varTypes), m)))
    ensures RunNativeFunction(c, depth, code, words, m)
        == RunCode(c, depth, c.limit, code, 0, 0, Regs(env, InitialVars(code.varTypes), m))
  {
    hide RunCode;
  }

  lemma NothingRelated(f: Function, frame: Frame, vars: map<nat, MVal>, heap: map<nat, Value>)
    requires |frame| == |f.types|
    ensures VarsRel(f, {}, frame, vars, heap)
  {
  }

  lemma CertifiedEntry(p: Program, f: Function, avail: seq<set<nat>>)
    requires Certified(p, f, avail)
    ensures |f.blocks| > 0 && f.blocks[0].phis == [] && |avail| == |f.blocks| && avail[0] == ParamLocals(f.params)
    ensures forall i :: 0 <= i < |f.params| ==>
              && f.params[i].local < |f.types| && f.types[f.params[i].local] == AbiTy(f.params[i])
              && (CertainLocal(f, f.params[i].local) ==> f.params[i].certain)
  {
    hide BlockOk, AbiTy, CertainLocal;
  }

  lemma InitialSafe(f: Function, s: Scope)
    requires s.depth > 0
    ensures VarsSafe(f.types, InitialVars(VarTypes(f)), s)
  {
    forall x | 0 <= x < |f.types|
      ensures x in InitialVars(VarTypes(f)) && Safe(s.heap, InitialVars(VarTypes(f))[x], f.types[x])
    {
      ZeroSafe(s.heap, f.types[x]);
    }
  }

  /** A local bound to parameters whose arguments are all not nothing is not nothing. */
  lemma {:induction false} BoundSolid(frame: Frame, params: seq<Param>, args: seq<Value>, l: nat)
    requires |params| == |args| && l < |frame|
    requires forall i :: 0 <= i < |params| && params[i].local == l ==> !args[i].VNothing?
    requires !frame[l].VNothing? || exists i :: 0 <= i < |params| && params[i].local == l
    ensures |BindParams(frame, params, args)| == |frame| && !BindParams(frame, params, args)[l].VNothing?
    decreases |params|
  {
    if params != [] {
      var stored := Store(frame, params[0].local, args[0]);
      assert forall i :: 0 < i < |params| ==> params[i] == params[1..][i - 1] && args[i] == args[1..][i - 1];
      BoundSolid(stored, params[1..], args[1..], l);
    }
  }

  lemma {:induction false} BindLength(frame: Frame, params: seq<Param>, args: seq<Value>)
    requires |params| == |args|
    ensures |BindParams(frame, params, args)| == |frame|
    decreases |params|
  {
    if params != [] {
      BindLength(Store(frame, params[0].local, args[0]), params[1..], args[1..]);
    }
  }

  /** The locals of certain parameters start out as argument preparation left them: not nothing. */
  lemma EntryCertain(f: Function, args: seq<Value>)
    requires |args| == |f.params| && forall i :: 0 <= i < |args| ==> Meets(args[i], f.params[i])
    requires forall i :: 0 <= i < |f.params| ==> (CertainLocal(f, f.params[i].local) ==> f.params[i].certain)
    ensures CertainKept(f, EntryFrame(f, args))
  {
    var empty := seq(|f.types|, i => VNothing);
    BindLength(empty, f.params, args);
    forall l | 0 <= l < |EntryFrame(f, args)| && CertainLocal(f, l)
      ensures !EntryFrame(f, args)[l].VNothing?
    {
      BoundSolid(empty, f.params, args, l);
    }
  }

  /** Entering native code binds every parameter variable, as the interpreter binds its frame. */
  lemma EntryBinds(c: Config, depth: nat, f: Function, code: TFunc, avail: seq<set<nat>>, args: seq<Value>,
      words: seq<Word>, m: Machine) returns (b: Builder, r: Regs)
    requires Sized(f, code, avail) && Setting(c, f, code, avail)
    requires |words| == |args| == |f.params|
    requires forall i :: 0 <= i < |args| ==> EncodedAs(m.scope, words[i], args[i], AbiTy(f.params[i]))
    requires forall i :: 0 <= i < |args| ==> Meets(args[i], f.params[i])
    requires Quiet(c.program, m) && m.scope.depth > 0
    ensures Emitting(c, f, code, avail, 0, 0, avail[0] + PhiResults(f.blocks[0].phis), b)
    ensures RunNativeFunction(c, depth, code, words, m) == At(c, depth, c.limit, code, b, r)
    ensures SafeAt(c, depth, c.limit, f, code, b, r) ==> SafeFrom(c, CompiledEntry(c, depth, f, code, words, m))
    ensures InStep(c.program, f, avail[0] + PhiResults(f.blocks[0].phis), EntryFrame(f, args), r) && r.m == m
    ensures f.blocks[0].phis == []
  {
    hide RunCode, EncodedAs, GlobalsTyped, BlockOk, Compile, ExecCode, Grows, EmitBlock, Emitting, Eligible,
        BindParams, AbiTy, HeadsOk, DefinedAfter, AllSafe, SafeAt, Careful, VarsSafe, CertainLocal, Meets, ChecksSure,
        CertainKept, CompiledEntry, RunNativeFunction, InitialVars, Represents, Certified;
    CertifiedEntry(c.program, f, avail);
    var p := c.program;
    var at := CompiledBlock(p, f, code, 0);
    BlockEmitting(c, f, code, avail, 0, at);
    b := StartBlock(f, at, 0);
    var env := EntryEnv(f, code.blocks[0].params, words);
    var r0 := Regs(env, InitialVars(code.varTypes), m);
    var empty := seq(|f.types|, i => VNothing);
    NothingRelated(f, empty, r0.vars, m.scope.heap);
    InitialSafe(f, m.scope);
    r := BindArgsRun(p, f, f.params, at.next, words, args, {}, empty, r0);
    var bind := BindArgs(f.params, at.next);
    AppendedContinues(c, depth, c.limit, f, code, at.(cur := 0), bind.code, bind.next, r0, r);
    StartSafe(c, depth, c.limit, f, code, at, 0, r0);
    CompiledEntryAt(c, depth, f, code, words, m, env);
    EntryCertain(f, args);
    assert {} + ParamLocals(f.params) == avail[0] + PhiResults(f.blocks[0].phis);
  }

  /** Phi nodes assign locals of their own. */
  predicate PhisFree(f: Function, phis: seq<Phi>) {
    forall i :: 0 <= i < |phis| ==> phis[i].result < |f.types| && !CertainLocal(f, phis[i].result)
  }

  lemma EdgePhisFree(f: Function, avail: seq<set<nat>>, defined: set<nat>, src: nat, target: nat)
    requires EdgeOk(f, avail, defined, src, target)
    ensures PhisFree(f, f.blocks[target].phis)
  {
    forall i | 0 <= i < |f.blocks[target].phis|
      ensures f.blocks[target].phis[i].result < |f.types| && !CertainLocal(f, f.blocks[target].phis[i].result)
    {
      assert PhiOk(f, defined, src, f.blocks[target].phis[i]);
    }
  }

  lemma {:induction false} PhisCertain(f: Function, frame: Frame, phis: seq<Phi>, values: seq<Value>)
    requires CertainKept(f, frame) && PhisFree(f, phis) && |phis| == |values|
    ensures CertainKept(f, StorePhis(frame, phis, values))
    decreases |phis|
  {
    hide CertainKept, CertainLocal;
    if phis != [] {
      CertainStore(f, frame, phis[0].result, values[0]);
      PhisCertain(f, Store(frame, phis[0].result, values[0]), phis[1..], values[1..]);
    }
  }

  /** Arriving over an edge, block parameters and sequential definitions amount to the interpreter's
      simultaneous phi assignment. */
  lemma EdgeBinds(c: Config, depth: nat, fuel: nat, f: Function, code: TFunc, avail: seq<set<nat>>, src: nat, bb: nat,
      frame: Frame, r: Regs) returns (b: Builder, r': Regs)
    requires Sized(f, code, avail) && Setting(c, f, code, avail)
    requires 1 <= bb < |f.blocks| && PhisFree(f, f.blocks[bb].phis)
    requires InStep(c.program, f, avail[bb], frame, r)
    requires Arrived(f, bb, code.blocks[bb].params, r.env, PhiValues(frame, f.blocks[bb].phis, src), r.m.scope.heap)
    ensures Emitting(c, f, code, avail, bb, 0, avail[bb] + PhiResults(f.blocks[bb].phis), b)
    ensures RunCode(c, depth, fuel, code, bb, 0, r) == At(c, depth, fuel, code, b, r')
    ensures SafeAt(c, depth, fuel, f, code, b, r') ==> AllSafe(c, AtCode(f, code, depth, fuel, bb, 0, r))
    ensures InStep(c.program, f, avail[bb] + PhiResults(f.blocks[bb].phis),
        TakePhis(frame, f.blocks[bb].phis, Some(src)), r') && r'.m == r.m
  {
    hide RunCode, GlobalsTyped, Certified, Compile, ExecCode, Grows, EmitBlock, Emitting, Eligible, Represents,
        PhiValue, AllSafe, SafeAt, Careful, VarsSafe, CertainKept, CertainLocal;
    var p, phis := c.program, f.blocks[bb].phis;
    var at := CompiledBlock(p, f, code, bb);
    BlockEmitting(c, f, code, avail, bb, at);
    b := StartBlock(f, at, bb);
    r' := DefPhisRun(p, f, phis, at.blocks[bb].params, PhiValues(frame, phis, src), avail[bb], frame, r);
    AppendedContinues(c, depth, fuel, f, code, at.(cur := bb), DefPhis(phis, at.blocks[bb].params), at.next, r, r');
    StartSafe(c, depth, fuel, f, code, at, bb, r);
    PhisCertain(f, frame, phis, PhiValues(frame, phis, src));
  }

  lemma {:induction false} EntryMatches(c: Config, depth: nat, f: Function, code: TFunc, avail: seq<set<nat>>,
      args: seq<Value>, words: seq<Word>, m: Machine, m0: Machine)
    requires Sized(f, code, avail) && Setting(c, f, code, avail)
    requires |words| == |args| == |f.params|
    requires forall i :: 0 <= i < |args| ==> EncodedAs(m.scope, words[i], args[i], AbiTy(f.params[i]))
    requires forall i :: 0 <= i < |args| ==> Meets(args[i], f.params[i])
    requires Quiet(c.program, m) && m.scope.depth > 0 && m.globals == m0.globals
    ensures Matches(c.program, f, m, RunNativeFunction(c, depth, code, words, m),
        Interpret(Interpreted(c), depth, f, args, m0))
    ensures SafeFrom(c, CompiledEntry(c, depth, f, code, words, m))
    decreases depth, 2, c.limit + 1, 0, 0
  {
    hide Setting, RunCode, RunInstrs, EncodedAs, GlobalsTyped, Matches, Emitting, Quiet, AllSafe, SafeAt, VarsSafe,
        CertainKept, Meets, CompiledEntry, SafeFrom;
    var b, r := EntryBinds(c, depth, f, code, avail, args, words, m);
    NativeInstrs(c, depth, c.limit, f, code, avail, 0, 0, avail[0] + PhiResults(f.blocks[0].phis), b,
        EntryFrame(f, args), r, m0);
    InterpretEnters(c, depth, f, args, m0);
  }

  lemma InterpretEnters(c: Config, depth: nat, f: Function, args: seq<Value>, m0: Machine)
    requires |f.blocks| > 0 && f.blocks[0].phis == []
    ensures Interpret(Interpreted(c), depth, f, args, m0)
         == RunInstrs(Interpreted(c), depth, c.limit, f, 0, 0, EntryFrame(f, args), m0)
  {
    hide RunInstrs, EntryFrame;
  }

  lemma {:induction false} NativeInstrs(c: Config, depth: nat, fuel: nat, f: Function, code: TFunc,
      avail: seq<set<nat>>, bb: nat, k: nat, defined: set<nat>, b: Builder, frame: Frame, r: Regs, m0: Machine)
    requires Sized(f, code, avail) && Setting(c, f, code, avail)
    requires bb < |f.blocks| && k <= |f.blocks[bb].instrs| && Emitting(c, f, code, avail, bb, k, defined, b)
    requires InStep(c.program, f, defined, frame, r) && r.m.globals == m0.globals
    ensures Matches(c.program, f, r.m, At(c, depth, fuel, code, b, r),
                    RunInstrs(Interpreted(c), depth, fuel, f, bb, k, frame, m0))
    ensures CurOpen(b) && SafeAt(c, depth, fuel, f, code, b, r)
    decreases depth, 2, fuel, 1, |f.blocks[bb].instrs| - k
  {
    hide Setting, InStep, Emitting, Matches, At, SafeAt;
    EmittingOpen(c, f, code, avail, bb, k, defined, b);
    if k == |f.blocks[bb].instrs| {
      NativeTerm(c, depth, fuel, f, code, avail, bb, defined, b, frame, r, m0);
    } else if f.blocks[bb].instrs[k].Call? {
      NativeCall(c, depth, fuel, f, code, avail, bb, k, defined, b, frame, r, m0);
    } else {
      NativeLocal(c, depth, fuel, f, code, avail, bb, k, defined, b, frame, r, m0);
    }
  }

  lemma {:induction false} NativeLocal(c: Config, depth: nat, fuel: nat, f: Function, code: TFunc,
      avail: seq<set<nat>>, bb: nat, k: nat, defined: set<nat>, b: Builder, frame: Frame, r: Regs, m0: Machine)
    requires Sized(f, code, avail) && Setting(c, f, code, avail)
    requires bb < |f.blocks| && k < |f.blocks[bb].instrs| && !f.blocks[bb].instrs[k].Call?
    requires Emitting(c, f, code, avail, bb, k, defined, b)
    requires InStep(c.program, f, defined, frame, r) && r.m.globals == m0.globals
    ensures Matches(c.program, f, r.m, At(c, depth, fuel, code, b, r),
                    RunInstrs(Interpreted(c), depth, fuel, f, bb, k, frame, m0))
    ensures CurOpen(b) && SafeAt(c, depth, fuel, f, code, b, r)
    decreases depth, 2, fuel, 1, |f.blocks[bb].instrs| - k, 0
  {
    hide Setting, InStep, Emitting, EmitInstr, Matches, At, SafeAt, RunTerm, ExecLocal, Within, InstrOk, InstrEligible,
        ScopeGrows, Sure;
    var instr := f.blocks[bb].instrs[k];
    var b1 := EmittingStep(c, f, code, avail, bb, k, defined, b);
    EmittingOpen(c, f, code, avail, bb, k, defined, b);
    HostOfProgram(c, f, code, avail);
    CheckSure(c, f, code, avail, bb, k);
    var r1 := LocalFollows(c, depth, fuel, code, f, defined, b, b1, instr, frame, r);
    match ExecLocal(c.program.host, frame, r.m.globals, instr)
    case Next(frame1, globals) =>
      NativeInstrs(c, depth, fuel, f, code, avail, bb, k + 1, After(f, defined, instr), b1, frame1, r1,
          m0.(globals := globals));
      MatchesLater(c.program, f, r.m, r1.m, At(c, depth, fuel, code, b1, r1),
                   RunInstrs(Interpreted(c), depth, fuel, f, bb, k + 1, frame1, m0.(globals := globals)));
    case Stop(signal) =>
      StoppedMatches(c.program, f, r.m, At(c, depth, fuel, code, b, r), signal, m0);
  }

  lemma StoppedMatches(p: Program, f: Function, m: Machine, end: NativeEnd, signal: Signal, m0: Machine)
    requires Stopped(p, end, m, signal) && end.m.globals == m0.globals
    ensures Matches(p, f, m, end, (Failed(signal), m0))
  {
  }

  lemma CheckSure(c: Config, f: Function, code: TFunc, avail: seq<set<nat>>, bb: nat, k: nat)
    requires Setting(c, f, code, avail) && bb < |f.blocks| && k < |f.blocks[bb].instrs|
    ensures f.blocks[bb].instrs[k].CertainCheck? ==> Sure(f, f.blocks[bb].instrs[k].op)
  {
  }

  lemma HostOfProgram(c: Config, f: Function, code: TFunc, avail: seq<set<nat>>)
    requires Setting(c, f, code, avail)
    ensures WellFormedProgram(c.program) && HostOk(c.program.host)
  {
  }

  lemma EmittingOpen(c: Config, f: Function, code: TFunc, avail: seq<set<nat>>, bb: nat, k: nat, defined: set<nat>,
      b: Builder)
    requires Emitting(c, f, code, avail, bb, k, defined, b)
    ensures CurOpen(b) && |f.blocks| <= |b.blocks|
  {
  }

  lemma {:induction false} NativeCall(c: Config, depth: nat, fuel: nat, f: Function, code: TFunc,
      avail: seq<set<nat>>, bb: nat, k: nat, defined: set<nat>, b: Builder, frame: Frame, r: Regs, m0: Machine)
    requires Sized(f, code, avail) && Setting(c, f, code, avail)
    requires bb < |f.blocks| && k < |f.blocks[bb].instrs| && f.blocks[bb].instrs[k].Call?
    requires Emitting(c, f, code, avail, bb, k, defined, b)
    requires InStep(c.program, f, defined, frame, r) && r.m.globals == m0.globals
    ensures Matches(c.program, f, r.m, At(c, depth, fuel, code, b, r),
                    RunInstrs(Interpreted(c), depth, fuel, f, bb, k, frame, m0))
    ensures CurOpen(b) && SafeAt(c, depth, fuel, f, code, b, r)
    decreases depth, 2, fuel, 1, |f.blocks[bb].instrs| - k, 0
  {
    hide Setting, Emitting, EmitInstr, Matches, At, SafeAt, RunTerm, Within, CallFunction, VarsRel, GlobalsTyped,
        InstrEligible, Agree, VarsSafe, CertainKept, Activation, SafeFrom;
    var instr := f.blocks[bb].instrs[k];
    var dest, callee, values := instr.res, instr.callee, EvalOperands(frame, instr.args);
    var b1 := EmittingStep(c, f, code, avail, bb, k, defined, b);
    EmittingOpen(c, f, code, avail, bb, k, defined, b);
    HostOfProgram(c, f, code, avail);
    CallAgrees(c, depth, callee, values, r.m, m0);
    var res0 := CallFunction(Interpreted(c), depth, callee, values, m0);
    var r1 := CallFollows(c, depth, fuel, code, f, defined, b, b1, dest, callee, instr.args, frame, r, res0);
    match res0.0
    case Finished(v) =>
      assert AfterDest(defined, dest) == After(f, defined, instr);
      NativeInstrs(c, depth, fuel, f, code, avail, bb, k + 1, After(f, defined, instr), b1, AfterResult(frame, dest, v),
          r1, res0.1);
      MatchesLater(c.program, f, r.m, r1.m, At(c, depth, fuel, code, b1, r1),
                   RunInstrs(Interpreted(c), depth, fuel, f, bb, k + 1, AfterResult(frame, dest, v), res0.1));
    case Failed(signal) =>
      StoppedMatches(c.program, f, r.m, At(c, depth, fuel, code, b, r), signal, res0.1);
    case Timeout =>
      TimeoutMatches(c.program, f, r.m, At(c, depth, fuel, code, b, r), res0.1);
  }

  lemma TimeoutMatches(p: Program, f: Function, m: Machine, end: NativeEnd, m0: Machine)
    requires end.OutOfFuel?
    ensures Matches(p, f, m, end, (Timeout, m0))
  {
  }

  lemma {:induction false} NativeTerm(c: Config, depth: nat, fuel: nat, f: Function, code: TFunc,
      avail: seq<set<nat>>, bb: nat, defined: set<nat>, b: Builder, frame: Frame, r: Regs, m0: Machine)
    requires Sized(f, code, avail) && Setting(c, f, code, avail)
    requires bb < |f.blocks| && Emitting(c, f, code, avail, bb, |f.blocks[bb].instrs|, defined, b)
    requires InStep(c.program, f, defined, frame, r) && r.m.globals == m0.globals
    ensures Matches(c.program, f, r.m, At(c, depth, fuel, code, b, r),
        RunTerm(Interpreted(c), depth, fuel, f, bb, frame, m0))
    ensures CurOpen(b) && SafeAt(c, depth, fuel, f, code, b, r)
    decreases depth, 2, fuel, 0, 0
  {
    hide Setting, At, GlobalsTyped, RunBlock, RunCode, VarsRel, EdgeOk, Arrived, Emitting, Grows, Eligible, Matches,
        HeadsOk, SafeAt, AllSafe, VarsSafe, CertainKept;
    var p := c.program;
    var term := f.blocks[bb].term;
    EmittingEnd(c, f, code, avail, bb, defined, b);
    match term
    case Return(None) => ReturnsNothing(c, depth, fuel, f, code, avail, defined, b, bb, frame, r, m0);
    case Return(Some(op)) => Returns(c, depth, fuel, f, code, avail, defined, b, bb, op, frame, r, m0);
    case Goto(target) =>
      var env := GotoRuns(c, depth, fuel, code, f, avail, defined, b, bb, target, frame, r);
      if fuel > 0 {
        NativeEdge(c, depth, fuel - 1, f, code, avail, bb, target, defined, frame, r.(env := env), m0);
      } else {
        TimeoutMatches(p, f, r.m, At(c, depth, fuel, code, b, r), m0);
      }
    case Branch(cond, thenBb, elseBb) =>
      var target := if Truthy(p.host, EvalOperand(frame, cond)) then thenBb else elseBb;
      var env, m := BranchRuns(c, depth, fuel, code, f, avail, defined, b, bb, cond, thenBb, elseBb, frame, r);
      if fuel > 0 {
        var r1 := Regs(env, r.vars, m);
        VarsLater(f, defined, frame, r.vars, r.m.scope.heap, m.scope.heap);
        VarsSafeLater(f.types, r.vars, r.m.scope, m.scope);
        NativeEdge(c, depth, fuel - 1, f, code, avail, bb, target, defined, frame, r1, m0);
        MatchesLater(p, f, r.m, m, RunCode(c, depth, fuel - 1, code, target, 0, r1),
                     RunBlock(Interpreted(c), depth, fuel - 1, f, target, Some(bb), frame, m0));
      } else {
        TimeoutMatches(p, f, r.m, At(c, depth, fuel, code, b, r), m0);
      }
  }

  /** What is left when all instructions of a block are emitted: its terminator. */
  lemma EmittingEnd(c: Config, f: Function, code: TFunc, avail: seq<set<nat>>, bb: nat, defined: set<nat>, b: Builder)
    requires bb < |f.blocks| && Emitting(c, f, code, avail, bb, |f.blocks[bb].instrs|, defined, b)
    ensures CurOpen(b) && HeadsOk(f, code) && code.varTypes == VarTypes(f) && Eligible(c.program, f)
    ensures EmitTerm(f, b, bb, f.blocks[bb].term).Some?
    ensures Grows(EmitTerm(f, b, bb, f.blocks[bb].term).value.blocks, code.blocks)
    ensures TermOk(f, avail, defined, bb, f.blocks[bb].term)
    ensures !f.blocks[bb].term.Throw?
  {
    hide Grows, TermOk, HeadsOk, Eligible;
    assert f.blocks[bb].instrs[|f.blocks[bb].instrs|..] == [];
  }

  lemma ReturnsNothing(c: Config, depth: nat, fuel: nat, f: Function, code: TFunc, avail: seq<set<nat>>,
      defined: set<nat>, b: Builder, bb: nat, frame: Frame, r: Regs, m0: Machine)
    requires bb < |f.blocks| && f.blocks[bb].term == Return(None) && !IsScalar(f.returnTy) && CurOpen(b)
    requires Grows(EmitTerm(f, b, bb, Return(None)).value.blocks, code.blocks)
    requires InStep(c.program, f, defined, frame, r) && r.m.globals == m0.globals
    ensures Matches(c.program, f, r.m, At(c, depth, fuel, code, b, r),
        RunTerm(Interpreted(c), depth, fuel, f, bb, frame, m0))
    ensures SafeAt(c, depth, fuel, f, code, b, r)
  {
    hide At, GlobalsTyped, VarsRel, RunBlock, Grows, Reads, SafeAt, VarsSafe, CertainKept;
    ReturnNothingRuns(c, depth, fuel, code, f, b, bb, r);
  }

  lemma Returns(c: Config, depth: nat, fuel: nat, f: Function, code: TFunc, avail: seq<set<nat>>, defined: set<nat>,
      b: Builder, bb: nat, op: Operand, frame: Frame, r: Regs, m0: Machine)
    requires bb < |f.blocks| && f.blocks[bb].term == Return(Some(op)) && CurOpen(b) && Eligible(c.program, f)
    requires OpIn(f, defined, op) && Fits(OperandTy(f, op), ResultTy(f)) && code.varTypes == VarTypes(f)
    requires Grows(EmitTerm(f, b, bb, Return(Some(op))).value.blocks, code.blocks)
    requires InStep(c.program, f, defined, frame, r) && r.m.globals == m0.globals
    ensures Matches(c.program, f, r.m, At(c, depth, fuel, code, b, r),
        RunTerm(Interpreted(c), depth, fuel, f, bb, frame, m0))
    ensures SafeAt(c, depth, fuel, f, code, b, r)
  {
    hide At, GlobalsTyped, RunBlock, Grows, Reads, SafeAt, VarsSafe, CertainKept;
    assert BlockEligible(c.program, f, f.blocks[bb]);
    ReturnRuns(c, depth, fuel, code, f, defined, b, bb, op, frame, r);
    VarsFrameOk(f, defined, frame, r.vars, r.m.scope.heap);
    OperandHasTy(f, defined, frame, op);
  }

  lemma {:induction false} NativeEdge(c: Config, depth: nat, fuel: nat, f: Function, code: TFunc,
      avail: seq<set<nat>>, src: nat, bb: nat, defined: set<nat>, frame: Frame, r: Regs, m0: Machine)
    requires Sized(f, code, avail) && Setting(c, f, code, avail)
    requires EdgeOk(f, avail, defined, src, bb)
    requires InStep(c.program, f, defined, frame, r) && r.m.globals == m0.globals
    requires Arrived(f, bb, code.blocks[bb].params, r.env, PhiValues(frame, f.blocks[bb].phis, src), r.m.scope.heap)
    ensures Matches(c.program, f, r.m, RunCode(c, depth, fuel, code, bb, 0, r),
                    RunBlock(Interpreted(c), depth, fuel, f, bb, Some(src), frame, m0))
    ensures AllSafe(c, AtCode(f, code, depth, fuel, bb, 0, r))
    decreases depth, 2, fuel, 2, 0
  {
    hide Setting, RunCode, RunInstrs, GlobalsTyped, Matches, Emitting, Arrived, Represents, AllSafe, SafeAt, VarsSafe,
        CertainKept, CertainLocal;
    EdgePhisFree(f, avail, defined, src, bb);
    var b, r1 := EdgeBinds(c, depth, fuel, f, code, avail, src, bb, frame, r);
    NativeInstrs(c, depth, fuel, f, code, avail, bb, 0, avail[bb] + PhiResults(f.blocks[bb].phis), b,
                 TakePhis(frame, f.blocks[bb].phis, Some(src)), r1, m0);
  }
}
