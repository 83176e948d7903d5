// Every state a run passes through, in whichever tier and however deep the calls, and what it takes for
// all of them to be safe.

module States {
  import opened Arithmetic
  import opened Options
  import opened Mir
  import opened AbiScope
  import opened Clif
  import opened JitEmit
  import opened Tiers
  import opened Fragments

  /** An activation at one of its instructions: compiled code before position `pos` of block `blk`, or the
      interpreter before instruction `k` of block `bb`. */
  datatype State =
    | AtCode(f: Function, code: TFunc, depth: nat, fuel: nat, blk: nat, pos: nat, r: Regs)
    | AtInstr(f: Function, depth: nat, fuel: nat, bb: nat, k: nat, frame: Frame, m: Machine)

  // ----- from one state to the next -----

  function CompiledEntry(c: Config, depth: nat, f: Function, code: TFunc, words: seq<Word>, m: Machine): Option<State> {
    if code.blocks == [] then None
    else
      match BindBlockParams(code.blocks[0].params, seq(|words|, i requires 0 <= i < |words| => M64(words[i])))
      case None => None
      case Some(env) => Some(AtCode(f, code, depth, c.limit, 0, 0, Regs(env, InitialVars(code.varTypes), m)))
  }

  /** The interpreter arriving at a block. */
  function Arrival(f: Function, depth: nat, fuel: nat, bb: nat, pred: Option<nat>, frame: Frame, m: Machine):
      Option<State> {
    if bb >= |f.blocks| then None
    else Some(AtInstr(f, depth, fuel, bb, 0, TakePhis(frame, f.blocks[bb].phis, pred), m))
  }

  /** The first state of the activation that a call starts. */
  function Activation(c: Config, depth: nat, callee: nat, args: seq<Value>, m: Machine): Option<State> {
    if depth == 0 || callee >= |c.program.functions| then None
    else
      var f := c.program.functions[callee];
      match Prepare(c.program.host, f.params, args)
      case Refused => None
      case Ready(prepared) =>
        var (native, m1) := ChooseTier(c, callee, m);
        if native && Compile(c.program, f).Some? then
          var (m2, words) := EncodeArgs(f.params, prepared, m1.(scope := Enter(m1.scope.(context := 1))));
          CompiledEntry(c, depth - 1, f, Compile(c.program, f).value, words, m2)
        else Arrival(f, depth - 1, c.limit, 0, None, EntryFrame(f, prepared), m1)
  }

  function CallAt(s: State): Option<Inst>
    requires s.AtCode?
  {
    if s.blk < |s.code.blocks| && s.pos < |s.code.blocks[s.blk].body| then
      var inst := s.code.blocks[s.blk].body[s.pos];
      if inst.Let? && inst.op.CallFn? then Some(inst) else None
    else None
  }

  /** The activation a state calls into, if it is at a call. */
  function Callee(c: Config, s: State): Option<State> {
    match s
    case AtCode(f, code, depth, fuel, blk, pos, r) =>
      (match CallAt(s)
       case None => None
       case Some(inst) =>
         match Lookup(r.env, inst.op.fnArgs)
         case None => None
         case Some(vals) =>
           if inst.op.callee >= |c.program.functions| then None
           else
             match DecodeArgs(c.program.functions[inst.op.callee].params, vals, r.m)
             case None => None
             case Some(args) => Activation(c, depth, inst.op.callee, args, r.m))
    case AtInstr(f, depth, fuel, bb, k, frame, m) =>
      if bb < |f.blocks| && k < |f.blocks[bb].instrs| && f.blocks[bb].instrs[k].Call? then
        Activation(c, depth, f.blocks[bb].instrs[k].callee, EvalOperands(frame, f.blocks[bb].instrs[k].args), m)
      else None
  }

  /** Compiled code entering a block. */
  function Entered(f: Function, code: TFunc, depth: nat, fuel: nat, from: nat, b: nat, args: seq<nat>, r: Regs):
      Option<State> {
    if b >= |code.blocks| || Lookup(r.env, args).None? then None
    else
      match BindBlockParams(code.blocks[b].params, Lookup(r.env, args).value)
      case None => None
      case Some(env) =>
        if b < code.heads then
          if fuel == 0 then None else Some(AtCode(f, code, depth, fuel - 1, b, 0, r.(env := env)))
        else if b > from then Some(AtCode(f, code, depth, fuel, b, 0, r.(env := env)))
        else None
  }

  function AfterBody(s: State): Option<State>
    requires s.AtCode? && s.blk < |s.code.blocks|
  {
    match s.code.blocks[s.blk].term
    case Some(Jump(b, args)) => Entered(s.f, s.code, s.depth, s.fuel, s.blk, b, args, s.r)
    case Some(Brif(flag, b1, args1, b2, args2)) =>
      (match Flag(s.r, flag)
       case None => None
       case Some(taken) =>
         if taken then Entered(s.f, s.code, s.depth, s.fuel, s.blk, b1, args1, s.r)
         else Entered(s.f, s.code, s.depth, s.fuel, s.blk, b2, args2, s.r))
    case _ => None
  }

  function AfterInstrs(c: Config, s: State): Option<State>
    requires s.AtInstr? && s.bb < |s.f.blocks|
  {
    if s.fuel == 0 then None
    else
      match s.f.blocks[s.bb].term
      case Goto(target) => Arrival(s.f, s.depth, s.fuel - 1, target, Some(s.bb), s.frame, s.m)
      case Branch(cond, thenBb, elseBb) =>
        var target := if Truthy(c.program.host, EvalOperand(s.frame, cond)) then thenBb else elseBb;
        Arrival(s.f, s.depth, s.fuel - 1, target, Some(s.bb), s.frame, s.m)
      case _ => None
  }

  /** The next state of the same activation; at a call, the one after the callee is back. */
  function Successor(c: Config, s: State): Option<State> {
    match s
    case AtCode(f, code, depth, fuel, blk, pos, r) =>
      if blk >= |code.blocks| || pos > |code.blocks[blk].body| then None
      else if pos == |code.blocks[blk].body| then AfterBody(s)
      else if CallAt(s).Some? then
        var call := CallAt(s).value;
        (match CallRaw(c, depth, call.op.callee, call.op.fnArgs, r)
         case Returned(w, m) => Some(s.(pos := pos + 1, r := r.(env := r.env[call.dst := M64(w)], m := m)))
         case _ => None)
      else
        (match Step(c.program, code.varTypes, code.blocks[blk].body[pos], r)
         case Some(r1) => Some(s.(pos := pos + 1, r := r1))
         case None => None)
    case AtInstr(f, depth, fuel, bb, k, frame, m) =>
      if bb >= |f.blocks| || k > |f.blocks[bb].instrs| then None
      else if k == |f.blocks[bb].instrs| then AfterInstrs(c, s)
      else
        var instr := f.blocks[bb].instrs[k];
        if instr.Call? then
          var (outcome, m1) := CallFunction(c, depth, instr.callee, EvalOperands(frame, instr.args), m);
          if outcome.Finished? then
            Some(s.(k := k + 1, m := m1,
                    frame := if instr.res.Some? then Store(frame, instr.res.value, outcome.v) else frame))
          else None
        else
          match ExecLocal(c.program.host, frame, m.globals, instr)
          case Next(frame1, globals) => Some(s.(k := k + 1, frame := frame1, m := m.(globals := globals)))
          case Stop(_) => None
  }

  /** A path of states: each one goes on in its own activation or calls into another. */
  ghost predicate Path(c: Config, path: seq<State>) {
    && path != []
    && forall i :: 0 < i < |path| ==> Some(path[i]) in {Callee(c, path[i - 1]), Successor(c, path[i - 1])}
  }

  function RestOfCode(c: Config, s: State): NativeEnd
    requires s.AtCode?
  {
    RunCode(c, s.depth, s.fuel, s.code, s.blk, s.pos, s.r)
  }

  /** The states of compiled code are those of its run: from one to the next the run stays the same, and a
      run that returns does so from its last state, at a return. */
  lemma StatesFollowRun(c: Config, s: State)
    requires s.AtCode?
    ensures match Successor(c, s)
            case Some(t) => t.AtCode? && t.f == s.f && t.code == s.code && RestOfCode(c, s) == RestOfCode(c, t)
            case None =>
              RestOfCode(c, s).Returned? ==>
                && s.blk < |s.code.blocks| && s.pos == |s.code.blocks[s.blk].body|
                && s.code.blocks[s.blk].term.Some? && s.code.blocks[s.blk].term.value.Ret?
                && var v := s.code.blocks[s.blk].term.value.v;
                   v in s.r.env && s.r.env[v] == M64(RestOfCode(c, s).w) && RestOfCode(c, s).m == s.r.m
  {
    hide Step, CallRaw;
    if s.blk < |s.code.blocks| && s.pos == |s.code.blocks[s.blk].body| {
      BodyEnds(c, s);
    }
  }

  lemma BodyEnds(c: Config, s: State)
    requires s.AtCode? && s.blk < |s.code.blocks| && s.pos == |s.code.blocks[s.blk].body|
    ensures match AfterBody(s)
            case Some(t) => t.AtCode? && t.f == s.f && t.code == s.code && RestOfCode(c, s) == RestOfCode(c, t)
            case None =>
              RestOfCode(c, s).Returned? ==>
                && s.code.blocks[s.blk].term.Some? && s.code.blocks[s.blk].term.value.Ret?
                && var v := s.code.blocks[s.blk].term.value.v;
                   v in s.r.env && s.r.env[v] == M64(RestOfCode(c, s).w) && RestOfCode(c, s).m == s.r.m
  {
    hide Step, CallRaw, Transfer, Entered;
    match s.code.blocks[s.blk].term
    case Some(Jump(b, args)) => TransferEnters(c, s, b, args);
    case Some(Brif(_, b1, args1, b2, args2)) =>
      TransferEnters(c, s, b1, args1);
      TransferEnters(c, s, b2, args2);
    case _ =>
  }

  lemma TransferEnters(c: Config, s: State, b: nat, args: seq<nat>)
    requires s.AtCode? && s.blk < |s.code.blocks|
    ensures var end := Transfer(c, s.depth, s.fuel, s.code, s.blk, b, args, s.r);
            match Entered(s.f, s.code, s.depth, s.fuel, s.blk, b, args, s.r)
            case Some(t) => t.AtCode? && t.f == s.f && t.code == s.code && end == RestOfCode(c, t)
            case None => !end.Returned?
  {
    hide RunCode, Lookup, BindBlockParams;
  }

  function RestOfFrame(c: Config, s: State): (Outcome, Machine)
    requires s.AtInstr? && s.bb < |s.f.blocks| && s.k <= |s.f.blocks[s.bb].instrs|
  {
    RunInstrs(c, s.depth, s.fuel, s.f, s.bb, s.k, s.frame, s.m)
  }

  /** Likewise in the interpreter. */
  lemma FramesFollowRun(c: Config, s: State)
    requires s.AtInstr? && s.bb < |s.f.blocks| && s.k <= |s.f.blocks[s.bb].instrs| && Successor(c, s).Some?
    ensures var t := Successor(c, s).value;
            && t.AtInstr? && t.f == s.f && t.bb < |t.f.blocks| && t.k <= |t.f.blocks[t.bb].instrs|
            && RestOfFrame(c, s) == RestOfFrame(c, t)
  {
    hide CallFunction, ExecLocal, Arrival;
    if s.k == |s.f.blocks[s.bb].instrs| {
      InstrsEnd(c, s);
    }
  }

  lemma InstrsEnd(c: Config, s: State)
    requires s.AtInstr? && s.bb < |s.f.blocks| && s.k == |s.f.blocks[s.bb].instrs| && AfterInstrs(c, s).Some?
    ensures var t := AfterInstrs(c, s).value;
            && t.AtInstr? && t.f == s.f && t.bb < |t.f.blocks| && t.k <= |t.f.blocks[t.bb].instrs|
            && RestOfFrame(c, s) == RestOfFrame(c, t)
  {
    hide RunBlock, Arrival;
    assert RestOfFrame(c, s) == RunTerm(c, s.depth, s.fuel, s.f, s.bb, s.frame, s.m) by {
      TermNext(c, s);
    }
    match s.f.blocks[s.bb].term
    case Goto(target) => ArrivalRuns(c, s.f, s.depth, s.fuel - 1, target, Some(s.bb), s.frame, s.m);
    case Branch(cond, thenBb, elseBb) =>
      var target := if Truthy(c.program.host, EvalOperand(s.frame, cond)) then thenBb else elseBb;
      ArrivalRuns(c, s.f, s.depth, s.fuel - 1, target, Some(s.bb), s.frame, s.m);
    case _ =>
  }

  lemma TermNext(c: Config, s: State)
    requires s.AtInstr? && s.bb < |s.f.blocks| && s.k == |s.f.blocks[s.bb].instrs|
    ensures RestOfFrame(c, s) == RunTerm(c, s.depth, s.fuel, s.f, s.bb, s.frame, s.m)
  {
    hide RunTerm;
  }

  lemma ArrivalRuns(c: Config, f: Function, depth: nat, fuel: nat, bb: nat, pred: Option<nat>, frame: Frame, m: Machine)
    requires Arrival(f, depth, fuel, bb, pred, frame, m).Some?
    ensures var t := Arrival(f, depth, fuel, bb, pred, frame, m).value;
            && t.AtInstr? && t.f == f && t.bb < |f.blocks| && t.k <= |f.blocks[t.bb].instrs|
            && RunBlock(c, depth, fuel, f, bb, pred, frame, m) == RestOfFrame(c, t)
  {
    hide RunInstrs, TakePhis;
  }

  /** A call is the run from its first state: interpreted as it is, or in compiled code through the
      trampoline. */
  lemma ActivationStarts(c: Config, depth: nat, callee: nat, args: seq<Value>, m: Machine)
    requires Activation(c, depth, callee, args, m).Some?
    ensures var t := Activation(c, depth, callee, args, m).value;
            && t.f == c.program.functions[callee] && Prepare(c.program.host, t.f.params, args).Ready?
            && var (prepared, m1) := (Prepare(c.program.host, t.f.params, args).args, ChooseTier(c, callee, m).1);
               match t
               case AtInstr(_, _, _, bb, k, _, _) =>
                 && bb < |t.f.blocks| && k <= |t.f.blocks[bb].instrs|
                 && CallFunction(c, depth, callee, args, m) == RestOfFrame(c, t)
               case AtCode(_, code, _, _, _, _, _) =>
                 && CallFunction(c, depth, callee, args, m) == CallNative(c, depth - 1, t.f, code, prepared, m1)
                 && var (m2, words) := EncodeArgs(t.f.params, prepared, m1.(scope := Enter(m1.scope.(context := 1))));
                    RunNativeFunction(c, depth - 1, code, words, m2) == RestOfCode(c, t)
  {
    hide RunCode, RunInstrs, RunBlock, Compile, Prepare, Arrival, EncodeArgs, EntryFrame;
    var f := c.program.functions[callee];
    var prepared, m1 := Prepare(c.program.host, f.params, args).args, ChooseTier(c, callee, m).1;
    if Activation(c, depth, callee, args, m) == Arrival(f, depth - 1, c.limit, 0, None, EntryFrame(f, prepared), m1) {
      ArrivalRuns(c, f, depth - 1, c.limit, 0, None, EntryFrame(f, prepared), m1);
    }
  }

  // ----- safe states -----

  predicate Bit(mv: MVal) {
    mv == M64(Num(0)) || mv == M64(Num(1))
  }

  /** A Boolean handed to a callee or stored in a global crosses as 0 or 1. */
  ghost predicate WordsOut(p: Program, inst: Inst, env: map<nat, MVal>) {
    match inst
    case StoreGlobalRaw(g, raw) => GlobalTy(p, g) == TBoolean ==> raw in env && Bit(env[raw])
    case Let(_, CallFn(callee, ids)) => callee < |p.functions| ==> BitsOut(p.functions[callee].params, ids, env)
    case _ => true
  }

  ghost predicate BitsOut(params: seq<Param>, ids: seq<nat>, env: map<nat, MVal>) {
    forall i :: 0 <= i < |ids| && i < |params| && AbiTy(params[i]) == TBoolean ==> ids[i] in env && Bit(env[ids[i]])
  }

  ghost predicate WordBack(f: Function, term: Option<Term>, env: map<nat, MVal>) {
    term.Some? && term.value.Ret? && f.returnTy == TBoolean ==> term.value.v in env && Bit(env[term.value.v])
  }

  ghost predicate StateSafe(p: Program, s: State) {
    s.AtCode? ==>
      && VarsSafe(s.f.types, s.r.vars, s.r.m.scope)
      && (s.blk < |s.code.blocks| ==>
            var block := s.code.blocks[s.blk];
            if s.pos < |block.body| then WordsOut(p, block.body[s.pos], s.r.env)
            else WordBack(s.f, block.term, s.r.env))
  }

  /** Every state on every path from this one is safe. */
  ghost predicate AllSafe(c: Config, s: State) {
    forall path :: Path(c, path) && path[0] == s ==> StateSafe(c.program, path[|path| - 1])
  }

  ghost predicate SafeFrom(c: Config, o: Option<State>) {
    o.Some? ==> AllSafe(c, o.value)
  }

  /** A safe state from which only safe runs go on. */
  lemma SafeBefore(c: Config, s: State)
    requires StateSafe(c.program, s) && SafeFrom(c, Callee(c, s)) && SafeFrom(c, Successor(c, s))
    ensures AllSafe(c, s)
  {
    hide StateSafe, Callee, Successor;
    forall path | Path(c, path) && path[0] == s
      ensures StateSafe(c.program, path[|path| - 1])
    {
      if |path| > 1 {
        var rest := path[1..];
        assert Some(path[1]) in {Callee(c, path[0]), Successor(c, path[0])};
        forall i | 0 < i < |rest|
          ensures Some(rest[i]) in {Callee(c, rest[i - 1]), Successor(c, rest[i - 1])}
        {
          assert rest[i] == path[i + 1] && rest[i - 1] == path[i];
        }
        assert AllSafe(c, rest[0]);
        assert rest[|rest| - 1] == path[|path| - 1];
      }
    }
  }

  // ----- straight-line code -----

  /** Operations only: no definition, store or Fidan call. */
  predicate Lets(code: seq<Inst>) {
    forall i :: 0 <= i < |code| ==> code[i].Let? && !code[i].op.CallFn?
  }

  /** Every state while this code runs is safe; the one behind it is not looked at. */
  ghost predicate Careful(p: Program, vt: seq<ClTy>, tys: seq<MirTy>, code: seq<Inst>, r: Regs)
    decreases |code|
  {
    code == [] ||
    (&& VarsSafe(tys, r.vars, r.m.scope) && WordsOut(p, code[0], r.env)
     && Step(p, vt, code[0], r).Some?
     && Careful(p, vt, tys, code[1..], Step(p, vt, code[0], r).value))
  }

  lemma {:induction false} CarefulConcat(p: Program, vt: seq<ClTy>, tys: seq<MirTy>, c1: seq<Inst>, c2: seq<Inst>,
      r: Regs)
    requires Careful(p, vt, tys, c1, r) && ExecCode(p, vt, c1, r).Some?
    requires Careful(p, vt, tys, c2, ExecCode(p, vt, c1, r).value)
    ensures Careful(p, vt, tys, c1 + c2, r)
    decreases |c1|
  {
    hide VarsSafe, WordsOut, Step;
    if c1 == [] {
      assert c1 + c2 == c2;
    } else {
      assert (c1 + c2)[1..] == c1[1..] + c2;
      CarefulConcat(p, vt, tys, c1[1..], c2, Step(p, vt, c1[0], r).value);
    }
  }

  /** An operation only ever adds boxes. */
  lemma OperationGrows(p: Program, vt: seq<ClTy>, dst: nat, op: Op, r: Regs)
    requires Ok(r.m.scope) && r.m.scope.depth > 0 && Step(p, vt, Let(dst, op), r).Some?
    ensures ScopeGrows(r.m.scope, Step(p, vt, Let(dst, op), r).value.m.scope)
    ensures Step(p, vt, Let(dst, op), r).value.vars == r.vars && !op.CallFn?
  {
    hide Ok, Register;
    var m1 := Step(p, vt, Let(dst, op), r).value.m;
    if m1.scope != r.m.scope {
      RegisteredOnly(p, op, r);
      var v :| m1.scope == Register(r.m.scope, v);
      RegisterKeepsOk(r.m.scope, v);
      RegisterStays(r.m.scope, v);
    }
  }

  lemma RegisterStays(s: Scope, v: Value)
    ensures Register(s, v).depth == s.depth && Register(s, v).context == s.context
  {
  }

  lemma RegisteredOnly(p: Program, op: Op, r: Regs)
    requires EvalOp(p, op, r).Some? && EvalOp(p, op, r).value.1.scope != r.m.scope
    ensures exists v :: EvalOp(p, op, r).value.1.scope == Register(r.m.scope, v)
  {
    hide Register;
  }

  lemma {:induction false} LetsCareful(p: Program, vt: seq<ClTy>, tys: seq<MirTy>, code: seq<Inst>, r: Regs)
    requires Lets(code) && ExecCode(p, vt, code, r).Some?
    requires Ok(r.m.scope) && r.m.scope.depth > 0 && VarsSafe(tys, r.vars, r.m.scope)
    ensures Careful(p, vt, tys, code, r)
    ensures VarsSafe(tys, ExecCode(p, vt, code, r).value.vars, ExecCode(p, vt, code, r).value.m.scope)
    ensures ScopeGrows(r.m.scope, ExecCode(p, vt, code, r).value.m.scope)
    decreases |code|
  {
    hide VarsSafe, Step, Ok;
    if code != [] {
      var first, r1 := code[0], Step(p, vt, code[0], r).value;
      OperationGrows(p, vt, first.dst, first.op, r);
      VarsSafeLater(tys, r.vars, r.m.scope, r1.m.scope);
      LetsCareful(p, vt, tys, code[1..], r1);
    }
  }

  /** Operations, then one definition. */
  lemma DefineCareful(p: Program, vt: seq<ClTy>, tys: seq<MirTy>, code: seq<Inst>, x: nat, v: nat, r: Regs)
    requires Lets(code) && ExecCode(p, vt, code + [DefVar(x, v)], r).Some? && ExecCode(p, vt, code, r).Some?
    requires Ok(r.m.scope) && r.m.scope.depth > 0 && VarsSafe(tys, r.vars, r.m.scope)
    ensures Careful(p, vt, tys, code + [DefVar(x, v)], r)
  {
    hide VarsSafe, Ok, Step;
    LetsCareful(p, vt, tys, code, r);
    var r1 := ExecCode(p, vt, code, r).value;
    ExecConcat(p, vt, code, [DefVar(x, v)], r);
    ExecOne(p, vt, DefVar(x, v), r1);
    assert Careful(p, vt, tys, [DefVar(x, v)], r1) by {
      assert [DefVar(x, v)][1..] == [];
    }
    CarefulConcat(p, vt, tys, code, [DefVar(x, v)], r);
  }
}
