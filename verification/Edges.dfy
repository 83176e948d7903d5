// Leaving a block: returns, jumps with block arguments, and the phi assignment at the target.

module Edges {
  import opened Arithmetic
  import opened Options
  import opened Mir
  import opened AbiScope
  import opened Clif
  import opened JitEmit
  import opened Typing
  import opened Tiers
  import opened Fragments
  import opened Operators
  import opened Points
  import opened States
  import opened SafeRuns
  import opened NativeSteps

  /** Ids hold machine values standing for these values at these types. */
  ghost predicate Holds(heap: map<nat, Value>, env: map<nat, MVal>, ids: seq<nat>, values: seq<Value>,
      tys: seq<MirTy>) {
    && |ids| == |values| == |tys|
    && forall i :: 0 <= i < |ids| ==> ids[i] in env && Represents(heap, env[ids[i]], values[i], tys[i])
  }

  function PhiTypes(f: Function, phis: seq<Phi>): seq<MirTy> {
    seq(|phis|, i requires 0 <= i < |phis| => LocalTy(f, phis[i].result))
  }

  function PhiValues(frame: Frame, phis: seq<Phi>, pred: nat): seq<Value> {
    seq(|phis|, i requires 0 <= i < |phis| => PhiValue(frame, phis[i], Some(pred)))
  }

  // ----- block arguments -----

  lemma {:induction false} IncomingEligible(f: Function, incoming: seq<(nat, Operand)>, src: nat, ty: MirTy)
    requires forall i :: 0 <= i < |incoming| ==> JitOperandType(f, incoming[i].1) == Some(ty)
    requires Incoming(incoming, src).Some?
    ensures JitOperandType(f, Incoming(incoming, src).value) == Some(ty)
  {
    if incoming[0].0 != src {
      IncomingEligible(f, incoming[1..], src, ty);
    }
  }

  /** An accepted phi operand needs no conversion. */
  lemma PhiLoads(p: Program, f: Function, n: nat, src: nat, phi: Phi, defined: set<nat>, frame: Frame, r: Regs)
      returns (r': Regs, load: Frag)
    requires VarsRel(f, defined, frame, r.vars, r.m.scope.heap)
    requires PhiOk(f, defined, src, phi) && PhiEligible(f, phi)
    ensures Incoming(phi.incoming, src).Some?
    ensures load == LoadOperand(f, n, Incoming(phi.incoming, src).value)
    ensures CoercePhi(load.next, load.res, load.ty, ClTyOf(LocalTy(f, phi.result)))
        == Same(load.next, load.res, load.ty)
    ensures n <= load.res < load.next && load.res in r'.env && r'.m == r.m
    ensures Yields(p, VarTypes(f), load.code, r, r', n, load.res, r'.env[load.res])
    ensures Represents(r.m.scope.heap, r'.env[load.res], PhiValue(frame, phi, Some(src)), LocalTy(f, phi.result))
  {
    IncomingEligible(f, phi.incoming, src, LocalTy(f, phi.result));
    var op := Incoming(phi.incoming, src).value;
    LoadRuns(p, f, VarTypes(f), n, op, defined, frame, r);
    load := LoadOperand(f, n, op);
    r' := r.(env := r.env[n := LoadedValue(op, r)]);
    RepresentsType(r.m.scope.heap, LoadedValue(op, r), EvalOperand(frame, op), OperandTy(f, op));
  }

  ghost predicate PhisDone(p: Program, f: Function, n: nat, raws: Args, values: seq<Value>, tys: seq<MirTy>, r: Regs,
      r': Regs) {
    && n <= raws.next && r'.m == r.m && r'.vars == r.vars && EnvKept(r, r', n)
    && ExecCode(p, VarTypes(f), raws.code, r) == Some(r')
    && (forall i :: 0 <= i < |raws.ids| ==> raws.ids[i] < raws.next)
    && Holds(r.m.scope.heap, r'.env, raws.ids, values, tys)
  }

  lemma PhisStep(p: Program, f: Function, n: nat, before: Args, load: Frag, values: seq<Value>, v: Value,
      tys: seq<MirTy>, ty: MirTy, r: Regs, r1: Regs, r': Regs)
    requires PhisDone(p, f, n, before, values, tys, r, r1)
    requires before.next <= load.res < load.next && r'.m == r1.m && load.res in r'.env
    requires Yields(p, VarTypes(f), load.code, r1, r', before.next, load.res, r'.env[load.res])
    requires Represents(r.m.scope.heap, r'.env[load.res], v, ty)
    ensures PhisDone(p, f, n, Args(before.code + load.code, load.next, before.ids + [load.res]), values + [v],
        tys + [ty], r, r')
  {
    hide ExecCode, Represents;
    ExecConcat(p, VarTypes(f), before.code, load.code, r);
  }

  lemma PhisExtend(p: Program, f: Function, n: nat, src: nat, phi: Phi, before: Args, values: seq<Value>,
      tys: seq<MirTy>, defined: set<nat>, frame: Frame, r: Regs, r1: Regs) returns (r': Regs, more: Args)
    requires VarsRel(f, defined, frame, r.vars, r.m.scope.heap)
    requires PhiOk(f, defined, src, phi) && PhiEligible(f, phi)
    requires PhisDone(p, f, n, before, values, tys, r, r1)
    ensures Incoming(phi.incoming, src).Some?
    ensures var load := LoadOperand(f, before.next, Incoming(phi.incoming, src).value);
            var arg := CoercePhi(load.next, load.res, load.ty, ClTyOf(LocalTy(f, phi.result)));
            more == Args(before.code + load.code + arg.code, arg.next, before.ids + [arg.res])
    ensures PhisDone(p, f, n, more, values + [PhiValue(frame, phi, Some(src))], tys + [LocalTy(f, phi.result)], r, r')
  {
    hide PhiOk, PhiEligible, ExecCode, Represents, PhiValue, VarsRel, LoadOperand, Yields, CoercePhi;
    var load;
    r', load := PhiLoads(p, f, before.next, src, phi, defined, frame, r1);
    PhisStep(p, f, n, before, load, values, PhiValue(frame, phi, Some(src)), tys, LocalTy(f, phi.result), r, r1, r');
    more := Args(before.code + load.code, load.next, before.ids + [load.res]);
    assert before.code + load.code + [] == before.code + load.code;
  }

  lemma PhiListsSnoc(f: Function, frame: Frame, phis: seq<Phi>, src: nat)
    requires phis != []
    ensures var k := |phis| - 1;
            && PhiValues(frame, phis, src) == PhiValues(frame, phis[..k], src) + [PhiValue(frame, phis[k], Some(src))]
            && PhiTypes(f, phis) == PhiTypes(f, phis[..k]) + [LocalTy(f, phis[k].result)]
  {
    hide PhiValue, LocalTy;
  }

  /** All phi operands are read before any phi variable changes. */
  lemma {:induction false} PhisRun(p: Program, f: Function, n: nat, src: nat, phis: seq<Phi>, defined: set<nat>,
      frame: Frame, r: Regs) returns (r': Regs)
    requires VarsRel(f, defined, frame, r.vars, r.m.scope.heap)
    requires forall i :: 0 <= i < |phis| ==> PhiOk(f, defined, src, phis[i]) && PhiEligible(f, phis[i])
    ensures PhisDone(p, f, n, CollectPhiArgs(f, n, src, phis), PhiValues(frame, phis, src), PhiTypes(f, phis), r, r')
    decreases |phis|
  {
    if phis == [] {
      r' := r;
    } else {
      hide PhiOk, PhiEligible, PhisDone, PhiValue, VarsRel, LoadOperand, CoercePhi, LocalTy, PhiValues, PhiTypes,
          Incoming, ClTyOf;
      var k := |phis| - 1;
      PhiListsSnoc(f, frame, phis, src);
      var r1 := PhisRun(p, f, n, src, phis[..k], defined, frame, r);
      var before := CollectPhiArgs(f, n, src, phis[..k]);
      var more;
      r', more := PhisExtend(p, f, n, src, phis[k], before, PhiValues(frame, phis[..k], src), PhiTypes(f, phis[..k]),
          defined, frame, r, r1);
    }
  }

  // ----- entering the target -----

  lemma {:induction false} ParamsBind(params: seq<(nat, ClTy)>, vals: seq<MVal>)
    requires |params| == |vals|
    requires forall i :: 0 <= i < |params| ==> TypeOf(vals[i]) == params[i].1
    requires forall i, j :: 0 <= i < j < |params| ==> params[i].0 != params[j].0
    ensures BindBlockParams(params, vals).Some?
    ensures forall i :: 0 <= i < |params| ==>
              params[i].0 in BindBlockParams(params, vals).value &&
                  BindBlockParams(params, vals).value[params[i].0] == vals[i]
    decreases |params|
  {
    if params != [] {
      ParamsBind(params[..|params| - 1], vals[..|vals| - 1]);
    }
  }

  lemma DefineSafe(p: Program, f: Function, dest: nat, id: nat, v: Value, r: Regs, r1: Regs)
    requires dest < |f.types| && id in r.env && VarsSafe(f.types, r.vars, r.m.scope)
    requires Represents(r.m.scope.heap, r.env[id], v, f.types[dest])
    requires ExecCode(p, VarTypes(f), [DefVar(dest, id)], r) == Some(r1)
    requires r1 == r.(vars := r.vars[dest := r.env[id]])
    ensures Careful(p, VarTypes(f), f.types, [DefVar(dest, id)], r) && VarsSafe(f.types, r1.vars, r1.m.scope)
  {
    hide VarsSafe, Represents, Safe, ExecCode;
    RepresentsSafe(r.m.scope.heap, r.env[id], v, f.types[dest]);
    SafeDefine(f.types, r.vars, r.m.scope, dest, r.env[id]);
    ExecOne(p, VarTypes(f), DefVar(dest, id), r);
    assert [DefVar(dest, id)][1..] == [];
  }

  /** Each parameter holds the value of its phi. */
  ghost predicate PhisSupplied(f: Function, phis: seq<Phi>, params: seq<(nat, ClTy)>, values: seq<Value>,
      env: map<nat, MVal>, heap: map<nat, Value>) {
    && |phis| == |params| == |values|
    && forall i :: 0 <= i < |phis| ==>
         && phis[i].result < |f.types| && params[i].0 in env
         && Represents(heap, env[params[i].0], values[i], f.types[phis[i].result])
  }

  lemma PhisSuppliedTail(f: Function, phis: seq<Phi>, params: seq<(nat, ClTy)>, values: seq<Value>,
      env: map<nat, MVal>, heap: map<nat, Value>)
    requires PhisSupplied(f, phis, params, values, env, heap) && phis != []
    ensures PhisSupplied(f, phis[1..], params[1..], values[1..], env, heap)
    ensures phis[0].result < |f.types| && params[0].0 in env
    ensures Represents(heap, env[params[0].0], values[0], f.types[phis[0].result])
    ensures DefPhis(phis, params) == [DefVar(phis[0].result, params[0].0)] + DefPhis(phis[1..], params[1..])
  {
    hide Represents;
  }

  /** Phi variables are then defined one by one from the block's parameters. */
  lemma {:induction false} DefPhisRun(p: Program, f: Function, phis: seq<Phi>, params: seq<(nat, ClTy)>,
      values: seq<Value>, defined: set<nat>, frame: Frame, r: Regs) returns (r': Regs)
    requires PhisSupplied(f, phis, params, values, r.env, r.m.scope.heap)
    requires VarsRel(f, defined, frame, r.vars, r.m.scope.heap) && VarsSafe(f.types, r.vars, r.m.scope)
    ensures ExecCode(p, VarTypes(f), DefPhis(phis, params), r) == Some(r')
    ensures VarsRel(f, defined + PhiResults(phis), StorePhis(frame, phis, values), r'.vars, r.m.scope.heap)
    ensures Careful(p, VarTypes(f), f.types, DefPhis(phis, params), r) && VarsSafe(f.types, r'.vars, r.m.scope)
    ensures r'.m == r.m
    decreases |phis|
  {
    if phis == [] {
      r' := r;
      assert defined + PhiResults(phis) == defined;
    } else {
      hide Represents, Safe, VarsSafe, VarsRel, Careful, ExecCode, PhisSupplied, DefPhis;
      var vt, tail := VarTypes(f), DefPhis(phis[1..], params[1..]);
      PhisSuppliedTail(f, phis, params, values, r.env, r.m.scope.heap);
      var r1 := DefineVar(p, f, defined, frame, phis[0].result, values[0], params[0].0, r);
      DefineSafe(p, f, phis[0].result, params[0].0, values[0], r, r1);
      r' := DefPhisRun(p, f, phis[1..], params[1..], values[1..], defined + {phis[0].result},
                       Store(frame, phis[0].result, values[0]), r1);
      var first := DefVar(phis[0].result, params[0].0);
      ExecConcat(p, vt, [first], tail, r);
      CarefulConcat(p, vt, f.types, [first], tail, r);
      assert defined + PhiResults(phis) == defined + {phis[0].result} + PhiResults(phis[1..]);
    }
  }

  // ----- terminators -----

  /** What a block's terminator does. */
  function Leave(c: Config, depth: nat, fuel: nat, code: TFunc, blk: nat, term: Term, r: Regs): NativeEnd
    requires blk < |code.blocks|
  {
    match term
    case Ret(v) => if v in r.env && r.env[v].M64? then Returned(r.env[v].w, r.m) else Stuck
    case Jump(b, args) => Transfer(c, depth, fuel, code, blk, b, args, r)
    case Brif(flag, b1, args1, b2, args2) =>
      match Flag(r, flag)
      case None => Stuck
      case Some(taken) =>
        if taken then Transfer(c, depth, fuel, code, blk, b1, args1, r)
        else Transfer(c, depth, fuel, code, blk, b2, args2, r)
  }

  lemma LeaveRuns(c: Config, depth: nat, fuel: nat, code: TFunc, b: Builder, term: Term, r: Regs)
    requires CurOpen(b) && Grows(Terminate(b, term).blocks, code.blocks)
    ensures At(c, depth, fuel, code, b, r) == Leave(c, depth, fuel, code, b.cur, term, r)
  {
    assert BlockGrows(Terminate(b, term).blocks[b.cur], code.blocks[b.cur]);
  }

  /** Straight-line code, then the terminator. */
  lemma LastRuns(c: Config, depth: nat, fuel: nat, code: TFunc, b: Builder, insts: seq<Inst>, next: nat, term: Term,
      r: Regs, r': Regs)
    requires CurOpen(b) && Grows(Terminate(Append(b, insts, next), term).blocks, code.blocks)
    requires ExecCode(c.program, code.varTypes, insts, r) == Some(r')
    ensures At(c, depth, fuel, code, b, r) == Leave(c, depth, fuel, code, b.cur, term, r')
  {
    var b1 := Append(b, insts, next);
    AppendGrows(b, insts, next);
    TerminateGrows(b1, term);
    GrowsTrans(b1.blocks, Terminate(b1, term).blocks, code.blocks);
    RunAppended(c, depth, fuel, code, b, insts, next, r, r');
    LeaveRuns(c, depth, fuel, code, b1, term, r');
  }

  lemma NullWord(s: Scope, ty: MirTy)
    ensures Reads(s, Num(0), ty, VNothing) <==> !IsScalar(ty)
  {
  }

  /** Returning nothing yields the raw word 0, which reads back as nothing exactly at boxed types. */
  lemma ReturnNothingRuns(c: Config, depth: nat, fuel: nat, code: TFunc, f: Function, b: Builder, bi: nat, r: Regs)
    requires CurOpen(b) && Grows(EmitTerm(f, b, bi, Return(None)).value.blocks, code.blocks)
    ensures At(c, depth, fuel, code, b, r) == Returned(Num(0), r.m)
    ensures Reads(r.m.scope, Num(0), f.returnTy, VNothing) <==> !IsScalar(f.returnTy)
    ensures VarsSafe(f.types, r.vars, r.m.scope) && Ok(r.m.scope) && r.m.scope.depth > 0 ==>
        SafeAt(c, depth, fuel, f, code, b, r)
  {
    hide At, Grows, Transfer, SafeAt, VarsSafe, Ok, Reads;
    var zero := Let(b.next, Iconst(I64, 0));
    ExecOne(c.program, code.varTypes, zero, r);
    if VarsSafe(f.types, r.vars, r.m.scope) && Ok(r.m.scope) && r.m.scope.depth > 0 {
      LetsCareful(c.program, code.varTypes, f.types, [zero], r);
      LastSafe(c, depth, fuel, f, code, b, [zero], b.next + 1, Ret(b.next), r,
               r.(env := r.env[b.next := M64(Num(0))]));
    }
    NullWord(r.m.scope, f.returnTy);
    LastRuns(c, depth, fuel, code, b, [zero], b.next + 1, Ret(b.next), r, r.(env := r.env[b.next := M64(Num(0))]));
  }

  lemma ReturnRuns(c: Config, depth: nat, fuel: nat, code: TFunc, f: Function, defined: set<nat>, b: Builder, bi: nat,
      op: Operand, frame: Frame, r: Regs)
    requires CurOpen(b) && Grows(EmitTerm(f, b, bi, Return(Some(op))).value.blocks, code.blocks)
    requires code.varTypes == VarTypes(f)
    requires OpIn(f, defined, op) && JitOperandType(f, op) == Some(f.returnTy)
    requires InStep(c.program, f, defined, frame, r)
    ensures var end := At(c, depth, fuel, code, b, r);
            end.Returned? && end.m == r.m && Reads(r.m.scope, end.w, f.returnTy, EvalOperand(frame, op))
    ensures SafeAt(c, depth, fuel, f, code, b, r)
  {
    hide At, Grows, Transfer, ExecCode, SafeAt, VarsSafe, GlobalsTyped, VarsRel, CertainKept, Careful, Lets, AllSafe,
        LoadOperand, NativeToAbi;
    var r1 := OperandToAbiRuns(c.program, f, b.next, op, f.returnTy, defined, frame, r);
    var load := LoadOperand(f, b.next, op);
    var raw := NativeToAbi(load.next, load.res, load.ty, f.returnTy);
    OperandLets(f, b.next, op, 0, I64, f.returnTy);
    OperandLets(f, load.next, op, load.res, load.ty, f.returnTy);
    ConcatLets(load.code, raw.code);
    LetsCareful(c.program, code.varTypes, f.types, load.code + raw.code, r);
    LastSafe(c, depth, fuel, f, code, b, load.code + raw.code, raw.next, Ret(raw.res), r, r1);
    LastRuns(c, depth, fuel, code, b, load.code + raw.code, raw.next, Ret(raw.res), r, r1);
  }

  /** Every block that stands for a MIR block has one parameter per phi, of the phi's type. */
  ghost predicate HeadsOk(f: Function, code: TFunc) {
    && code.heads == |f.blocks| <= |code.blocks|
    && forall t :: 1 <= t < |f.blocks| ==> PhiParamsOk(f, f.blocks[t].phis, code.blocks[t].params)
  }

  ghost predicate PhiParamsOk(f: Function, phis: seq<Phi>, params: seq<(nat, ClTy)>) {
    && |params| == |phis|
    && (forall i :: 0 <= i < |params| ==> params[i].1 == ClTyOf(LocalTy(f, phis[i].result)))
    && forall i, j :: 0 <= i < j < |params| ==> params[i].0 != params[j].0
  }

  /** The target block's parameters, bound to the phi values of the edge taken. */
  ghost predicate Arrived(f: Function, target: nat, params: seq<(nat, ClTy)>, env: map<nat, MVal>, values: seq<Value>,
      heap: map<nat, Value>)
    requires target < |f.blocks|
  {
    && |params| == |values| == |f.blocks[target].phis|
    && forall i :: 0 <= i < |params| ==>
         params[i].0 in env && Represents(heap, env[params[i].0], values[i],
             LocalTy(f, f.blocks[target].phis[i].result))
  }

  lemma TransferRuns(c: Config, depth: nat, fuel: nat, code: TFunc, f: Function, blk: nat, target: nat, ids: seq<nat>,
      values: seq<Value>, r: Regs) returns (env: map<nat, MVal>)
    requires HeadsOk(f, code) && blk < |code.blocks| && 1 <= target < |f.blocks|
    requires Holds(r.m.scope.heap, r.env, ids, values, PhiTypes(f, f.blocks[target].phis))
    ensures Arrived(f, target, code.blocks[target].params, env, values, r.m.scope.heap)
    ensures Transfer(c, depth, fuel, code, blk, target, ids, r)
         == if fuel == 0 then OutOfFuel else RunCode(c, depth, fuel - 1, code, target, 0, r.(env := env))
    ensures Entered(f, code, depth, fuel, blk, target, ids, r)
         == if fuel == 0 then None else Some(AtCode(f, code, depth, fuel - 1, target, 0, r.(env := env)))
  {
    hide RunCode, Represents;
    var phis, params := f.blocks[target].phis, code.blocks[target].params;
    var vals := Lookup(r.env, ids).value;
    forall i | 0 <= i < |params|
      ensures TypeOf(vals[i]) == params[i].1
    {
      RepresentsType(r.m.scope.heap, r.env[ids[i]], values[i], LocalTy(f, phis[i].result));
    }
    ParamsBind(params, vals);
    env := BindBlockParams(params, vals).value;
  }

  /** Execution goes on at the target with one transfer less, every state on the way being safe. */
  ghost predicate Jumps(c: Config, depth: nat, fuel: nat, f: Function, code: TFunc, b: Builder, r: Regs, target: nat,
      r1: Regs)
    requires CurOpen(b)
  {
    if fuel == 0 then At(c, depth, fuel, code, b, r) == OutOfFuel && SafeAt(c, depth, fuel, f, code, b, r)
    else
      && At(c, depth, fuel, code, b, r) == RunCode(c, depth, fuel - 1, code, target, 0, r1)
      && (AllSafe(c, AtCode(f, code, depth, fuel - 1, target, 0, r1)) ==> SafeAt(c, depth, fuel, f, code, b, r))
  }

  lemma EdgeEligible(p: Program, f: Function, avail: seq<set<nat>>, defined: set<nat>, src: nat, target: nat)
    requires Eligible(p, f) && EdgeOk(f, avail, defined, src, target)
    ensures forall i :: 0 <= i < |PhisOf(f, target)| ==>
        PhiOk(f, defined, src, PhisOf(f, target)[i]) && PhiEligible(f, PhisOf(f, target)[i])
  {
    assert BlockEligible(p, f, f.blocks[target]);
  }

  lemma GotoRuns(c: Config, depth: nat, fuel: nat, code: TFunc, f: Function, avail: seq<set<nat>>, defined: set<nat>,
      b: Builder, bi: nat, target: nat, frame: Frame, r: Regs) returns (env: map<nat, MVal>)
    requires CurOpen(b) && Grows(EmitTerm(f, b, bi, Goto(target)).value.blocks, code.blocks)
    requires HeadsOk(f, code) && code.varTypes == VarTypes(f) && Eligible(c.program, f)
    requires EdgeOk(f, avail, defined, bi, target)
    requires InStep(c.program, f, defined, frame, r)
    ensures Arrived(f, target, code.blocks[target].params, env, PhiValues(frame, f.blocks[target].phis, bi),
        r.m.scope.heap)
    ensures Jumps(c, depth, fuel, f, code, b, r, target, r.(env := env))
  {
    hide At, RunCode, ExecCode, VarsRel, Transfer, PhiOk, PhiEligible, Arrived, SafeAt, AllSafe, VarsSafe, Careful,
        Lets, GlobalsTyped, CertainKept, Entered;
    EdgeEligible(c.program, f, avail, defined, bi, target);
    var phis := f.blocks[target].phis;
    var args := CollectPhiArgs(f, b.next, bi, phis);
    var r1 := PhisRun(c.program, f, b.next, bi, phis, defined, frame, r);
    LastRuns(c, depth, fuel, code, b, args.code, args.next, Jump(target, args.ids), r, r1);
    PhisLets(f, b.next, bi, phis);
    LetsCareful(c.program, code.varTypes, f.types, args.code, r);
    LastSafe(c, depth, fuel, f, code, b, args.code, args.next, Jump(target, args.ids), r, r1);
    env := TransferRuns(c, depth, fuel, code, f, b.cur, target, args.ids, PhiValues(frame, phis, bi), r1);
  }

  // ----- conditional branches -----

  lemma BoxedFlagRuns(p: Program, f: Function, n: nat, cond: Operand, defined: set<nat>, frame: Frame, r: Regs)
      returns (r': Regs)
    requires Ok(r.m.scope) && r.m.scope.depth > 0
    requires VarsRel(f, defined, frame, r.vars, r.m.scope.heap) && OpIn(f, defined, cond)
    ensures var boxed := BoxOperand(f, n, cond);
            var flag := Then(boxed, CallRt(IsTruthy, [boxed.res]), I8);
            && n <= flag.res < flag.next && r'.m == r.m.(scope := r'.m.scope) && ScopeGrows(r.m.scope, r'.m.scope)
            && Yields(p, VarTypes(f), flag.code, r, r', n, flag.res,
                M8(if Truthy(p.host, EvalOperand(frame, cond)) then 1 else 0))
  {
    hide ExecCode;
    var boxed := BoxOperand(f, n, cond);
    var r1 := BoxOperandRuns(p, f, VarTypes(f), n, cond, defined, frame, r);
    assert Lookup(r1.env, [boxed.res]).value == [r1.env[boxed.res]] by {
      assert forall i :: 0 <= i < 1 ==> [boxed.res][i] in r1.env;
    }
    var mv := M8(if Truthy(p.host, EvalOperand(frame, cond)) then 1 else 0);
    YieldsThen(p, VarTypes(f), boxed.code, r, r1, n, boxed.res, r1.env[boxed.res], boxed.next,
        CallRt(IsTruthy, [boxed.res]), mv, r1.m);
    r' := r1.(env := r1.env[boxed.next := mv]);
  }

  lemma FloatFlagRuns(p: Program, f: Function, n: nat, cond: Operand, defined: set<nat>, frame: Frame, r: Regs)
      returns (r': Regs)
    requires VarsRel(f, defined, frame, r.vars, r.m.scope.heap) && OpIn(f, defined, cond)
    requires JitOperandType(f, cond) == Some(TFloat)
    ensures var flag := CondFlag(f, n, cond);
            && n <= flag.res < flag.next && r'.m == r.m
            && Yields(p, VarTypes(f), flag.code, r, r', n, flag.res,
                M8(if Truthy(p.host, EvalOperand(frame, cond)) then 1 else 0))
  {
    hide ExecCode;
    var vt := VarTypes(f);
    LoadRuns(p, f, vt, n, cond, defined, frame, r);
    var v := LoadOperand(f, n, cond);
    var mv := LoadedValue(cond, r);
    var r1 := r.(env := r.env[n := mv]);
    YieldsThen(p, vt, v.code, r, r1, n, n, mv, n + 1, F64const(FLOAT_ZERO), MF(FLOAT_ZERO), r.m);
    var zero := Then(v, F64const(FLOAT_ZERO), F64);
    var r2 := r1.(env := r1.env[n + 1 := MF(FLOAT_ZERO)]);
    var flag := M8(if p.host.compare(CNe, mv.bits, FLOAT_ZERO) then 1 else 0);
    YieldsThen(p, vt, zero.code, r, r2, n, n + 1, MF(FLOAT_ZERO), n + 2, Fcmp(CNe, n, n + 1), flag, r2.m);
    r' := r2.(env := r2.env[n + 2 := flag]);
  }

  /** Native truthiness is the interpreter's, for every type a condition can have. */
  lemma CondFlagRuns(p: Program, f: Function, n: nat, cond: Operand, defined: set<nat>, frame: Frame, r: Regs)
      returns (r': Regs)
    requires Ok(r.m.scope) && r.m.scope.depth > 0
    requires VarsRel(f, defined, frame, r.vars, r.m.scope.heap) && OpIn(f, defined, cond)
    ensures var flag := CondFlag(f, n, cond);
            && n <= flag.res < flag.next && flag.res in r'.env
            && r'.m == r.m.(scope := r'.m.scope) && ScopeGrows(r.m.scope, r'.m.scope)
            && Yields(p, VarTypes(f), flag.code, r, r', n, flag.res, r'.env[flag.res])
            && Flag(r', flag.res) == Some(Truthy(p.host, EvalOperand(frame, cond)))
  {
    hide ExecCode;
    var ty := JitOperandType(f, cond);
    if ty == Some(TFloat) {
      r' := FloatFlagRuns(p, f, n, cond, defined, frame, r);
    } else if ty.Some? && IsScalar(ty.value) {
      LoadRuns(p, f, VarTypes(f), n, cond, defined, frame, r);
      r' := r.(env := r.env[n := LoadedValue(cond, r)]);
    } else {
      r' := BoxedFlagRuns(p, f, n, cond, defined, frame, r);
    }
  }

  lemma HoldsKept(heap: map<nat, Value>, env: map<nat, MVal>, env': map<nat, MVal>, n: nat, ids: seq<nat>,
      values: seq<Value>, tys: seq<MirTy>)
    requires Holds(heap, env, ids, values, tys)
    requires forall k :: k in env && k < n ==> k in env' && env'[k] == env[k]
    requires forall i :: 0 <= i < |ids| ==> ids[i] < n
    ensures Holds(heap, env', ids, values, tys)
  {
  }

  lemma BranchRuns(c: Config, depth: nat, fuel: nat, code: TFunc, f: Function, avail: seq<set<nat>>,
      defined: set<nat>, b: Builder, bi: nat, cond: Operand, thenBb: nat, elseBb: nat, frame: Frame, r: Regs)
      returns (env: map<nat, MVal>, m: Machine)
    requires CurOpen(b) && Grows(EmitTerm(f, b, bi, Branch(cond, thenBb, elseBb)).value.blocks, code.blocks)
    requires HeadsOk(f, code) && code.varTypes == VarTypes(f) && Eligible(c.program, f)
    requires OpIn(f, defined, cond) && EdgeOk(f, avail, defined, bi, thenBb) && EdgeOk(f, avail, defined, bi, elseBb)
    requires InStep(c.program, f, defined, frame, r)
    ensures var target := if Truthy(c.program.host, EvalOperand(frame, cond)) then thenBb else elseBb;
            && m == r.m.(scope := m.scope) && ScopeGrows(r.m.scope, m.scope)
            && Arrived(f, target, code.blocks[target].params, env, PhiValues(frame, f.blocks[target].phis, bi),
                m.scope.heap)
            && Jumps(c, depth, fuel, f, code, b, r, target, Regs(env, r.vars, m))
  {
    hide At, RunCode, ExecCode, VarsRel, Transfer, PhiOk, PhiEligible, Arrived, CondFlag, CollectPhiArgs, Truthy,
        SafeAt, AllSafe, VarsSafe, Careful, Lets, GlobalsTyped, CertainKept, Entered;
    var p, vt := c.program, VarTypes(f);
    EdgeEligible(p, f, avail, defined, bi, thenBb);
    EdgeEligible(p, f, avail, defined, bi, elseBb);
    var thenPhis, elsePhis := f.blocks[thenBb].phis, f.blocks[elseBb].phis;
    var flag := CondFlag(f, b.next, cond);
    var thenArgs := CollectPhiArgs(f, flag.next, bi, thenPhis);
    var elseArgs := CollectPhiArgs(f, thenArgs.next, bi, elsePhis);
    var r1 := CondFlagRuns(p, f, b.next, cond, defined, frame, r);
    VarsLater(f, defined, frame, r.vars, r.m.scope.heap, r1.m.scope.heap);
    var r2 := PhisRun(p, f, flag.next, bi, thenPhis, defined, frame, r1);
    var r3 := PhisRun(p, f, thenArgs.next, bi, elsePhis, defined, frame, r2);
    HoldsKept(r1.m.scope.heap, r2.env, r3.env, thenArgs.next, thenArgs.ids, PhiValues(frame, thenPhis, bi),
        PhiTypes(f, thenPhis));
    ExecConcat(p, vt, flag.code, thenArgs.code, r);
    ExecConcat(p, vt, flag.code + thenArgs.code, elseArgs.code, r);
    assert Flag(r3, flag.res) == Flag(r1, flag.res);
    var insts, term := flag.code + thenArgs.code + elseArgs.code, Brif(flag.res, thenBb, thenArgs.ids, elseBb,
        elseArgs.ids);
    LastRuns(c, depth, fuel, code, b, insts, elseArgs.next, term, r, r3);
    FlagLets(f, b.next, cond);
    PhisLets(f, flag.next, bi, thenPhis);
    PhisLets(f, thenArgs.next, bi, elsePhis);
    ConcatLets(flag.code, thenArgs.code);
    ConcatLets(flag.code + thenArgs.code, elseArgs.code);
    LetsCareful(p, vt, f.types, insts, r);
    LastSafe(c, depth, fuel, f, code, b, insts, elseArgs.next, term, r, r3);
    m := r3.m;
    if Truthy(p.host, EvalOperand(frame, cond)) {
      env := TransferRuns(c, depth, fuel, code, f, b.cur, thenBb, thenArgs.ids, PhiValues(frame, thenPhis, bi), r3);
    } else {
      env := TransferRuns(c, depth, fuel, code, f, b.cur, elseBb, elseArgs.ids, PhiValues(frame, elsePhis, bi), r3);
    }
  }

  // ----- the entry block -----

  ghost predicate BindDone(p: Program, f: Function, n: nat, bind: Args, defined: set<nat>, frame: Frame, r: Regs,
      r': Regs) {
    && n <= bind.next && r'.m == r.m && EnvKept(r, r', n)
    && ExecCode(p, VarTypes(f), bind.code, r) == Some(r')
    && VarsRel(f, defined, frame, r'.vars, r.m.scope.heap)
    && Careful(p, VarTypes(f), f.types, bind.code, r) && VarsSafe(f.types, r'.vars, r.m.scope)
  }

  lemma BindExtend(p: Program, f: Function, n: nat, raw: nat, param: Param, w: Word, v: Value, before: Args,
      defined: set<nat>, frame: Frame, r: Regs, r1: Regs) returns (r': Regs)
    requires BindDone(p, f, n, before, defined, frame, r, r1)
    requires raw in r.env && raw < n && r.env[raw] == M64(w) && EncodedAs(r.m.scope, w, v, AbiTy(param))
    requires param.local < |f.types| && f.types[param.local] == AbiTy(param)
    requires Ok(r.m.scope) && r.m.scope.depth > 0
    ensures var native := AbiToNative(before.next, raw, AbiTy(param));
            BindDone(p, f, n, Args(before.code + native.code + [DefVar(param.local, native.res)], native.next, []),
                     defined + {param.local}, Store(frame, param.local, v), r, r')
  {
    hide ExecCode, EncodedAs, VarsRel, AbiToNative, Careful, VarsSafe, Ok;
    r' := BindOne(p, f, before.next, raw, param, w, v, defined, frame, r1);
    var native := AbiToNative(before.next, raw, AbiTy(param));
    CarefulConcat(p, VarTypes(f), f.types, before.code, native.code + [DefVar(param.local, native.res)], r);
    ExecConcat(p, VarTypes(f), before.code, native.code + [DefVar(param.local, native.res)], r);
    assert before.code + native.code + [DefVar(param.local, native.res)]
        == before.code + (native.code + [DefVar(param.local, native.res)]);
  }

  /** Every raw argument encodes its parameter's value, and the parameter's variable has its ABI type. */
  ghost predicate ArgsSupplied(f: Function, params: seq<Param>, words: seq<Word>, values: seq<Value>, r: Regs) {
    && |params| == |words| == |values|
    && forall i :: 0 <= i < |params| ==>
         && params[i].local < |f.types| && f.types[params[i].local] == AbiTy(params[i])
         && i in r.env && r.env[i] == M64(words[i])
         && EncodedAs(r.m.scope, words[i], values[i], AbiTy(params[i]))
  }

  lemma ArgsSuppliedLast(f: Function, params: seq<Param>, words: seq<Word>, values: seq<Value>, r: Regs)
    requires ArgsSupplied(f, params, words, values, r) && params != []
    ensures var k := |params| - 1;
            && ArgsSupplied(f, params[..k], words[..k], values[..k], r)
            && params[k].local < |f.types| && f.types[params[k].local] == AbiTy(params[k])
            && k in r.env && r.env[k] == M64(words[k])
            && EncodedAs(r.m.scope, words[k], values[k], AbiTy(params[k]))
  {
    hide EncodedAs, AbiTy;
  }

  /** Raw arguments are bound to the parameter variables, in order. */
  lemma {:induction false} BindArgsRun(p: Program, f: Function, params: seq<Param>, n: nat, words: seq<Word>,
      values: seq<Value>, defined: set<nat>, frame: Frame, r: Regs) returns (r': Regs)
    requires ArgsSupplied(f, params, words, values, r) && |params| <= n
    requires Ok(r.m.scope) && r.m.scope.depth > 0 && VarsSafe(f.types, r.vars, r.m.scope)
    requires VarsRel(f, defined, frame, r.vars, r.m.scope.heap)
    ensures BindDone(p, f, n, BindArgs(params, n), defined + ParamLocals(params), BindParams(frame, params, values),
        r, r')
    decreases |params|
  {
    if params == [] {
      r' := r;
      assert defined + ParamLocals(params) == defined;
    } else {
      hide EncodedAs, BindDone, VarsRel, AbiToNative, BindParams, ParamLocals, AbiTy, VarsSafe, Ok, Careful, ExecCode,
          Store, ArgsSupplied;
      var k := |params| - 1;
      ArgsSuppliedLast(f, params, words, values, r);
      var r1 := BindArgsRun(p, f, params[..k], n, words[..k], values[..k], defined, frame, r);
      BindSnoc(frame, params, values);
      LocalsSnoc(params);
      r' := BindExtend(p, f, n, k, params[k], words[k], values[k], BindArgs(params[..k], n),
                       defined + ParamLocals(params[..k]), BindParams(frame, params[..k], values[..k]), r, r1);
      assert defined + ParamLocals(params) == defined + ParamLocals(params[..k]) + {params[k].local};
    }
  }

  /** The word is how the value crosses the boundary at this type. */
  ghost predicate EncodedAs(s: Scope, w: Word, v: Value, ty: MirTy) {
    && HasTy(v, ty)
    && match ty
       case TInteger => v.VInt? && w == Num(v.n)
       case TFloat => v.VFloat? && w == Num(v.bits)
       case TBoolean => v.VBool? && w == Num(if v.b then 1 else 0)
       case THandle => v.VHandle? && w == Num(v.h)
       case _ => w.Ptr? && w.a in s.heap && s.heap[w.a] == v
  }

  lemma BindOne(p: Program, f: Function, n: nat, raw: nat, param: Param, w: Word, v: Value, defined: set<nat>,
      frame: Frame, r: Regs) returns (r': Regs)
    requires raw in r.env && raw < n && r.env[raw] == M64(w) && EncodedAs(r.m.scope, w, v, AbiTy(param))
    requires param.local < |f.types| && f.types[param.local] == AbiTy(param)
    requires VarsRel(f, defined, frame, r.vars, r.m.scope.heap) && VarsSafe(f.types, r.vars, r.m.scope)
    requires Ok(r.m.scope) && r.m.scope.depth > 0
    ensures var native := AbiToNative(n, raw, AbiTy(param));
            && n <= native.next && r'.m == r.m && EnvKept(r, r', n)
            && ExecCode(p, VarTypes(f), native.code + [DefVar(param.local, native.res)], r) == Some(r')
            && VarsRel(f, defined + {param.local}, Store(frame, param.local, v), r'.vars, r.m.scope.heap)
            && Careful(p, VarTypes(f), f.types, native.code + [DefVar(param.local, native.res)], r)
            && VarsSafe(f.types, r'.vars, r.m.scope)
  {
    var native := AbiToNative(n, raw, AbiTy(param));
    var r1;
    if native.code == [] {
      r1 := r;
    } else {
      var mv := EvalOp(p, native.code[0].op, r).value.0;
      YieldsOne(p, VarTypes(f), n, native.code[0].op, r, mv, r.m);
      r1 := r.(env := r.env[n := mv]);
    }
    r' := DefineVar(p, f, defined, frame, param.local, v, native.res, r1);
    ExecConcat(p, VarTypes(f), native.code, [DefVar(param.local, native.res)], r);
    DefineSafe(p, f, param.local, native.res, v, r1, r');
    DefineCareful(p, VarTypes(f), f.types, native.code, param.local, native.res, r);
  }

  lemma {:induction false} BindSnoc(frame: Frame, params: seq<Param>, values: seq<Value>)
    requires |params| == |values| > 0
    ensures var k := |params| - 1;
            BindParams(frame, params, values)
                == Store(BindParams(frame, params[..k], values[..k]), params[k].local, values[k])
    decreases |params|
  {
    var k := |params| - 1;
    if k > 0 {
      assert params[1..][..k - 1] == params[..k][1..] && values[1..][..k - 1] == values[..k][1..];
      BindSnoc(Store(frame, params[0].local, values[0]), params[1..], values[1..]);
    }
  }

  lemma {:induction false} LocalsSnoc(params: seq<Param>)
    requires params != []
    ensures ParamLocals(params) == ParamLocals(params[..|params| - 1]) + {params[|params| - 1].local}
  {
    var k := |params| - 1;
    if k > 0 {
      assert params[1..][..k - 1] == params[..k][1..];
      LocalsSnoc(params[1..]);
    }
  }
}
