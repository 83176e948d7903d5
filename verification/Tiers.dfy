// The tiered machine: every Fidan call either interprets the callee or, once its call counter has
// reached the threshold and the compiler accepted it, runs its native code
// (crates/fidan-interp/src/mir_interp.rs). A threshold of 0 never compiles.

module Tiers {
  import opened Arithmetic
  import opened Options
  import opened Mir
  import opened AbiScope
  import opened Clif
  import opened JitEmit

  /** `limit` bounds the block transfers of any single activation; it makes runs finite. */
  datatype Config = Config(program: Program, threshold: nat, limit: nat)

  const MAX_CALL_DEPTH: nat := 1024

  /** `Undefined` is undefined behaviour of native code. */
  datatype Outcome = Finished(v: Value) | Failed(s: Signal) | Timeout | Undefined

  datatype NativeEnd = Returned(w: Word, m: Machine) | OutOfFuel | Stuck

  /** The tier decision of one call: whether native code runs, and the updated counters. */
  function ChooseTier(c: Config, callee: nat, m: Machine): (bool, Machine)
    requires callee < |c.program.functions|
  {
    if c.threshold == 0 || callee >= |m.tiers| then (false, m)
    else
      var tier := m.tiers[callee];
      var native := Compile(c.program, c.program.functions[callee]).Some?;
      if tier.published then (native, m)
      else if tier.count == c.threshold - 1 then
        (native, m.(tiers := m.tiers[callee := Tier(tier.count + 1, true)]))
      else (false, m.(tiers := m.tiers[callee := Tier(tier.count + 1, false)]))
  }

  /** The counters after calls of these functions, in this order. */
  function Chosen(c: Config, order: seq<nat>, m: Machine): Machine
    requires forall i :: 0 <= i < |order| ==> order[i] < |c.program.functions|
    decreases |order|
  {
    if order == [] then m else ChooseTier(c, order[|order| - 1], Chosen(c, order[..|order| - 1], m)).1
  }

  lemma OneChoice(c: Config, called: nat, callee: nat, m: Machine)
    requires c.threshold > 0 && called < |c.program.functions| && callee < |m.tiers|
    ensures var after, tier := ChooseTier(c, called, m).1, m.tiers[callee];
            && after == m.(tiers := after.tiers) && |after.tiers| == |m.tiers|
            && after.tiers[callee] == if called != callee || tier.published then tier
                else Tier(tier.count + 1, tier.count == c.threshold - 1)
  {
    hide Compile;
  }

  lemma {:induction false} ChosenCounts(c: Config, order: seq<nat>, callee: nat, m: Machine)
    requires forall i :: 0 <= i < |order| ==> order[i] < |c.program.functions|
    requires c.threshold > 0 && callee < |m.tiers| && m.tiers[callee] == Tier(0, false)
    ensures var n, after := multiset(order)[callee], Chosen(c, order, m);
            && after == m.(tiers := after.tiers) && |after.tiers| == |m.tiers|
            && after.tiers[callee] == if n < c.threshold then Tier(n, false) else Tier(c.threshold, true)
    decreases |order|
  {
    hide ChooseTier;
    if order != [] {
      var k := |order| - 1;
      ChosenCounts(c, order[..k], callee, m);
      OneChoice(c, order[k], callee, Chosen(c, order[..k], m));
      assert order == order[..k] + [order[k]];
    }
  }

  /** A function runs natively from its threshold-th call on, whatever else is called in between, if it compiles
      at all; with a threshold of 0 nothing does. */
  lemma NativeFromThreshold(c: Config, order: seq<nat>, callee: nat, m: Machine)
    requires callee < |c.program.functions| && forall i :: 0 <= i < |order| ==> order[i] < |c.program.functions|
    requires callee < |m.tiers| && m.tiers[callee] == Tier(0, false)
    ensures ChooseTier(c, callee, Chosen(c, order, m)).0 <==>
              && c.threshold > 0 && multiset(order + [callee])[callee] >= c.threshold
              && Compile(c.program, c.program.functions[callee]).Some?
  {
    if c.threshold > 0 {
      ChosenCounts(c, order, callee, m);
    }
  }

  /** `depth` is what is left of the call budget. */
  function CallFunction(c: Config, depth: nat, callee: nat, args: seq<Value>, m: Machine): (Outcome, Machine)
    decreases depth, 0, 0, 0, 0
  {
    if depth == 0 then (Failed(Error(R1001)), m)
    else if callee >= |c.program.functions| then (Undefined, m)
    else
      var f := c.program.functions[callee];
      match Prepare(c.program.host, f.params, args)
      case Refused => (Failed(Error(R0001)), m)
      case Ready(prepared) =>
        var (native, m1) := ChooseTier(c, callee, m);
        if native && Compile(c.program, f).Some? then
          CallNative(c, depth - 1, f, Compile(c.program, f).value, prepared, m1)
        else
          Interpret(c, depth - 1, f, prepared, m1)
  }

  // ----- the interpreter tier -----

  function EntryFrame(f: Function, args: seq<Value>): Frame {
    var empty := seq(|f.types|, i => VNothing);
    if |args| == |f.params| then BindParams(empty, f.params, args) else empty
  }

  function Interpret(c: Config, depth: nat, f: Function, args: seq<Value>, m: Machine): (Outcome, Machine)
    decreases depth, 3, 0, 0, 0
  {
    RunBlock(c, depth, c.limit, f, 0, None, EntryFrame(f, args), m)
  }

  function RunBlock(c: Config, depth: nat, fuel: nat, f: Function, bb: nat, pred: Option<nat>, frame: Frame,
      m: Machine): (Outcome, Machine)
    decreases depth, 2, fuel, 2, 0
  {
    if bb >= |f.blocks| then (Undefined, m)
    else RunInstrs(c, depth, fuel, f, bb, 0, TakePhis(frame, f.blocks[bb].phis, pred), m)
  }

  function RunInstrs(c: Config, depth: nat, fuel: nat, f: Function, bb: nat, k: nat, frame: Frame,
      m: Machine): (Outcome, Machine)
    requires bb < |f.blocks| && k <= |f.blocks[bb].instrs|
    decreases depth, 2, fuel, 1, |f.blocks[bb].instrs| - k
  {
    var block := f.blocks[bb];
    if k < |block.instrs| then
      var instr := block.instrs[k];
      if instr.Call? then
        var (outcome, m1) := CallFunction(c, depth, instr.callee, EvalOperands(frame, instr.args), m);
        if outcome.Finished? then
          RunInstrs(c, depth, fuel, f, bb, k + 1,
                    if instr.res.Some? then Store(frame, instr.res.value, outcome.v) else frame, m1)
        else (outcome, m1)
      else
        match ExecLocal(c.program.host, frame, m.globals, instr)
        case Next(frame1, globals) => RunInstrs(c, depth, fuel, f, bb, k + 1, frame1, m.(globals := globals))
        case Stop(signal) => (Failed(signal), m)
    else RunTerm(c, depth, fuel, f, bb, frame, m)
  }

  function RunTerm(c: Config, depth: nat, fuel: nat, f: Function, bb: nat, frame: Frame, m: Machine): (Outcome, Machine)
    requires bb < |f.blocks|
    decreases depth, 2, fuel, 0, 0
  {
    match f.blocks[bb].term
    case Return(None) => (Finished(VNothing), m)
    case Return(Some(op)) => (Finished(EvalOperand(frame, op)), m)
    case Throw(op) => (Failed(Thrown(EvalOperand(frame, op))), m)
    case Goto(target) =>
      if fuel == 0 then (Timeout, m)
      else RunBlock(c, depth, fuel - 1, f, target, Some(bb), frame, m)
    case Branch(cond, thenBb, elseBb) =>
      if fuel == 0 then (Timeout, m)
      else
        var target := if Truthy(c.program.host, EvalOperand(frame, cond)) then thenBb else elseBb;
        RunBlock(c, depth, fuel - 1, f, target, Some(bb), frame, m)
  }

  // ----- the native tier -----

  /** The trampoline: arguments are encoded, native code runs inside an ABI scope, its raw result is
      decoded before the scope closes, and a pending exception becomes the call's error. */
  function CallNative(c: Config, depth: nat, f: Function, code: TFunc, args: seq<Value>, m: Machine): (Outcome, Machine)
    decreases depth, 3, 0, 0, 0
  {
    var inScope := m.(scope := Enter(m.scope.(context := 1)));
    var (m1, words) := EncodeArgs(f.params, args, inScope);
    match RunNativeFunction(c, depth, code, words, m1)
    case Stuck => (Undefined, m)
    case OutOfFuel => (Timeout, m)
    case Returned(w, m2) =>
      match Decode(m2.scope, w, f.returnTy)
      case None => (Undefined, m)
      case Some(v) =>
        var closed := m2.(scope := Exit(m2.scope).(context := m.scope.context));
        TakeException(v, closed)
  }

  function TakeException(v: Value, m: Machine): (Outcome, Machine) {
    match m.exc
    case None => (Finished(v), m)
    case Some(exc) =>
      var cleared := m.(exc := None, sig := None);
      if m.sig.Some? then (Failed(m.sig.value), cleared)
      else if exc.Coded? then (Failed(Error(exc.code)), cleared)
      else (Undefined, cleared)
  }

  function EncodeArgs(params: seq<Param>, args: seq<Value>, m: Machine): (r: (Machine, seq<Word>))
    decreases |args|
  {
    if args == [] || |args| > |params| then (m, [])
    else
      var k := |args| - 1;
      var (m1, words) := EncodeArgs(params, args[..k], m);
      var (scope, w) := Encode(m1.scope, args[k], AbiTy(params[k]));
      (m1.(scope := scope), words + [w])
  }

  function RunNativeFunction(c: Config, depth: nat, code: TFunc, words: seq<Word>, m: Machine): NativeEnd
    decreases depth, 2, c.limit + 1, 0, 0
  {
    if code.blocks == [] then Stuck
    else
      match BindBlockParams(code.blocks[0].params, seq(|words|, i requires 0 <= i < |words| => M64(words[i])))
      case None => Stuck
      case Some(env) => RunCode(c, depth, c.limit, code, 0, 0, Regs(env, InitialVars(code.varTypes), m))
  }

  function RunCode(c: Config, depth: nat, fuel: nat, code: TFunc, blk: nat, pos: nat, r: Regs): NativeEnd
    decreases depth, 2, fuel, if blk < |code.blocks| then |code.blocks| - blk else 0,
              1 + if blk < |code.blocks| && pos <= |code.blocks[blk].body| then |code.blocks[blk].body| - pos else 0
  {
    if blk >= |code.blocks| || pos > |code.blocks[blk].body| then Stuck
    else if pos < |code.blocks[blk].body| then
      var inst := code.blocks[blk].body[pos];
      if inst.Let? && inst.op.CallFn? then
        match CallRaw(c, depth, inst.op.callee, inst.op.fnArgs, r)
        case Stuck => Stuck
        case OutOfFuel => OutOfFuel
        case Returned(w, m) =>
          RunCode(c, depth, fuel, code, blk, pos + 1, r.(env := r.env[inst.dst := M64(w)], m := m))
      else
        match Step(c.program, code.varTypes, inst, r)
        case None => Stuck
        case Some(r1) => RunCode(c, depth, fuel, code, blk, pos + 1, r1)
    else
      match code.blocks[blk].term
      case None => Stuck
      case Some(Ret(v)) =>
        if v in r.env && r.env[v].M64? then Returned(r.env[v].w, r.m) else Stuck
      case Some(Jump(b, args)) => Transfer(c, depth, fuel, code, blk, b, args, r)
      case Some(Brif(flag, b1, args1, b2, args2)) =>
        match Flag(r, flag)
        case None => Stuck
        case Some(taken) =>
          if taken then Transfer(c, depth, fuel, code, blk, b1, args1, r)
          else Transfer(c, depth, fuel, code, blk, b2, args2, r)
  }

  /** A branch tests an integer of either width, never a pointer. */
  function Flag(r: Regs, v: nat): Option<bool> {
    if v !in r.env then None
    else
      match r.env[v]
      case M8(n) => Some(n != 0)
      case M64(Num(n)) => Some(n != 0)
      case _ => None
  }

  /** Entering a block: only transfers to blocks that stand for MIR blocks use up fuel. */
  function Transfer(c: Config, depth: nat, fuel: nat, code: TFunc, from: nat, b: nat, args: seq<nat>,
      r: Regs): NativeEnd
    requires from < |code.blocks|
    decreases depth, 2, fuel, |code.blocks| - from, 0
  {
    if b >= |code.blocks| then Stuck
    else
      match Lookup(r.env, args)
      case None => Stuck
      case Some(vals) =>
        match BindBlockParams(code.blocks[b].params, vals)
        case None => Stuck
        case Some(env) =>
          if b < code.heads then
            if fuel == 0 then OutOfFuel else RunCode(c, depth, fuel - 1, code, b, 0, r.(env := env))
          else if b > from then RunCode(c, depth, fuel, code, b, 0, r.(env := env))
          else Stuck
  }

  /** The call hook: raw arguments are decoded, the callee runs in whichever tier it is in, and a
      failing callee leaves its signal and a marker in the exception slot. */
  function CallRaw(c: Config, depth: nat, callee: nat, ids: seq<nat>, r: Regs): NativeEnd
    decreases depth, 1, 0, 0, 0
  {
    if callee >= |c.program.functions| then Stuck
    else
      var f := c.program.functions[callee];
      match Lookup(r.env, ids)
      case None => Stuck
      case Some(vals) =>
        match DecodeArgs(f.params, vals, r.m)
        case None => Stuck
        case Some(args) =>
          var (outcome, m1) := CallFunction(c, depth, callee, args, r.m);
          match outcome
          case Undefined => Stuck
          case Timeout => OutOfFuel
          case Failed(signal) => Returned(Num(0), m1.(sig := Some(signal), exc := Some(Marker)))
          case Finished(v) =>
            var (scope, w) := Encode(m1.scope, v, f.returnTy);
            Returned(w, m1.(scope := scope))
  }

  function DecodeArgs(params: seq<Param>, vals: seq<MVal>, m: Machine): Option<seq<Value>>
    decreases |vals|
  {
    if vals == [] then Some([])
    else
      var k := |vals| - 1;
      var ty := if k < |params| then AbiTy(params[k]) else TDynamic;
      match (DecodeArgs(params, vals[..k], m), vals[k])
      case (Some(before), M64(w)) =>
        (match Decode(m.scope, w, ty)
         case Some(v) => Some(before + [v])
         case None => None)
      case _ => None
  }
}
