// Programs that test a variable which does not hold a value of its type, and exactly when the tiers then take
// the same side.

module Branching {
  import opened Arithmetic
  import opened Options
  import opened Mir
  import opened AbiScope
  import opened Clif
  import opened JitEmit
  import opened Typing
  import opened Tiers
  import opened Fragments
  import opened States
  import opened Points
  import opened SafeRuns
  import opened NativeSteps
  import opened Edges
  import opened Preservation
  import opened Tiering
  import opened Acceptance
  import opened Limits
  import opened Divergence

  /** Defines a variable with one instruction and returns 1 if it is true, else 0. */
  function TestOf(params: seq<Param>, types: seq<MirTy>, instr: Instr, dest: nat): Function {
    Function(params, TInteger,
             [Block([], [instr], Branch(Local(dest), 1, 2)),
              Block([], [], Return(Some(Const(LInt(1))))),
              Block([], [], Return(Some(Const(LInt(0)))))], types)
  }

  /** Tests the only global. */
  function GlobalTest(ty: MirTy): Function {
    TestOf([], [ty], LoadGlobal(0, 0), 0)
  }

  /** Tests a flexible argument after moving it into a variable of type `ty`. */
  function MoveTest(ty: MirTy): Function {
    TestOf([Param(0, TDynamic, false, None)], [TDynamic, ty], Assign(1, Use(Local(0))), 1)
  }

  lemma TestCompiles(p: Program, f: Function, params: seq<Param>, types: seq<MirTy>, instr: Instr, dest: nat)
    requires f == TestOf(params, types, instr, dest)
    requires instr.LoadGlobal? || (instr.Assign? && instr.rhs.Use?)
    ensures Compile(p, f).Some?
  {
    hide Compile;
    CompilesExactly(p, f);
    assert BlockSupported(f, f.blocks[0]) && BlockSupported(f, f.blocks[1]) && BlockSupported(f, f.blocks[2]);
    assert BlockEligible(p, f, f.blocks[0]) && BlockEligible(p, f, f.blocks[1]) && BlockEligible(p, f, f.blocks[2]);
  }

  /** The interpreter takes the side of the value. */
  lemma TestInterprets(c: Config, depth: nat, params: seq<Param>, types: seq<MirTy>, instr: Instr, dest: nat,
      args: seq<Value>, m: Machine)
    requires !instr.Call? && c.limit == 1
    ensures var f := TestOf(params, types, instr, dest);
            match ExecLocal(c.program.host, EntryFrame(f, args), m.globals, instr)
            case Next(frame, _) =>
              Interpret(c, depth, f, args, m).0
                  == Finished(VInt(if Truthy(c.program.host, Load(frame, dest)) then 1 else 0))
            case Stop(_) => true
  {
    hide ExecLocal, EntryFrame;
    var f := TestOf(params, types, instr, dest);
    var frame := EntryFrame(f, args);
    assert f.blocks[0].instrs[0] == instr;
    assert Interpret(c, depth, f, args, m) == RunInstrs(c, depth, 1, f, 0, 0, frame, m);
    match ExecLocal(c.program.host, frame, m.globals, instr)
    case Next(frame1, globals) =>
      var m1 := m.(globals := globals);
      var side := if Truthy(c.program.host, Load(frame1, dest)) then 1 else 2;
      assert RunInstrs(c, depth, 1, f, 0, 1, frame1, m1) == RunBlock(c, depth, 0, f, side, Some(0), frame1, m1) by {
        assert RunInstrs(c, depth, 1, f, 0, 1, frame1, m1) == RunTerm(c, depth, 1, f, 0, frame1, m1);
      }
      SideInterprets(c, depth, f, side, frame1, m1);
    case Stop(_) =>
  }

  lemma SideInterprets(c: Config, depth: nat, f: Function, side: nat, frame: Frame, m: Machine)
    requires side < |f.blocks| && f.blocks[side].phis == [] && f.blocks[side].instrs == []
    requires f.blocks[side].term.Return? && f.blocks[side].term.value.Some?
    ensures RunBlock(c, depth, 0, f, side, Some(0), frame, m)
         == (Finished(EvalOperand(frame, f.blocks[side].term.value.value)), m)
  {
    assert TakePhis(frame, [], Some(0)) == frame;
    assert RunInstrs(c, depth, 0, f, side, 0, frame, m) == RunTerm(c, depth, 0, f, side, frame, m);
  }

  // ----- compiled, with something else in the variable -----

  /** The block that returns 0. */
  lemma ZeroSide(c: Config, f: Function, code: TFunc, r: Regs)
    requires Compile(c.program, f) == Some(code) && |f.blocks| == 3
    requires f.blocks[2] == Block([], [], Return(Some(Const(LInt(0))))) && f.returnTy == TInteger
    ensures RunCode(c, 1, 0, code, 2, 0, r) == Returned(Num(0), r.m)
  {
    hide RunCode, Compile, ExecCode, Grows, Eligible, HeadsOk, Transfer;
    var at := CompiledBlock(c.program, f, code, 2);
    var start := StartBlock(f, at, 2);
    assert at.blocks[2].body + DefPhis([], at.blocks[2].params) == [];
    assert start.cur == 2 && start.blocks[2].body == [];
    assert EmitInstrs(c.program, f, start, []) == Some(start);
    var zero := Let(start.next, Iconst(I64, 0));
    var r1 := r.(env := r.env[start.next := M64(Num(0))]);
    ExecOne(c.program, code.varTypes, zero, r);
    assert [zero] + [] == [zero];
    LastRuns(c, 1, 0, code, start, [zero], start.next + 1, Ret(start.next), r, r1);
  }

  /** Entering a block that has no phi nodes. */
  lemma PlainTransfer(c: Config, f: Function, code: TFunc, from: nat, side: nat, r: Regs)
    requires HeadsOk(f, code) && from < |code.blocks| && 1 <= side < |f.blocks| && f.blocks[side].phis == []
    ensures Transfer(c, 1, 1, code, from, side, [], r) == RunCode(c, 1, 0, code, side, 0, r.(env := map[]))
  {
    hide RunCode;
    LookupNone(r.env);
    assert PhiParamsOk(f, [], code.blocks[side].params);
    assert BindBlockParams([], []) == Some(map[]);
  }

  /** A box in an integer variable can not be branched on; one in a variable of type nothing is taken for
      nothing. */
  lemma BoxTested(c: Config, f: Function, code: TFunc, b: Builder, dest: nat, a: nat, r: Regs)
    requires Compile(c.program, f) == Some(code) && HeadsOk(f, code)
    requires exists params, types, instr :: f == TestOf(params, types, instr, dest)
    requires dest < |f.types| && f.types[dest] in {TInteger, THandle, TNothing}
    requires Emits(c.program, f, code, b, [], Branch(Local(dest), 1, 2))
    requires dest in r.vars && r.vars[dest] == M64(Ptr(a)) && Ok(r.m.scope)
    ensures var end := At(c, 1, 1, code, b, r);
            if f.types[dest] == TNothing
            then end.Returned? && end.w == Num(0) && end.m == r.m.(scope := end.m.scope)
            else end == Stuck
  {
    hide RunCode, Compile, ExecCode, Grows, HeadsOk, Transfer, At;
    var n := b.next;
    var flag := CondFlag(f, n, Local(dest));
    var term := Brif(flag.res, 1, [], 2, []);
    assert flag.code + [] + [] == flag.code;
    var loaded := r.(env := r.env[n := M64(Ptr(a))]);
    if f.types[dest] == TNothing {
      assert flag.code == [Let(n, UseVar(dest)), Let(n + 1, CallRt(BoxNothing, [])),
                           Let(n + 2, CallRt(IsTruthy, [n + 1]))];
      var r3 := NothingFlag(c.program, code.varTypes, n, dest, M64(Ptr(a)), r);
      LastRuns(c, 1, 1, code, b, flag.code, flag.next, term, r, r3);
      CurWithin(c.program, f, code, b, Branch(Local(dest), 1, 2));
      PlainTransfer(c, f, code, b.cur, 2, r3);
      ZeroSide(c, f, code, r3.(env := map[]));
    } else {
      ExecOne(c.program, code.varTypes, Let(n, UseVar(dest)), r);
      LastRuns(c, 1, 1, code, b, flag.code, flag.next, term, r, loaded);
    }
  }

  lemma CurWithin(p: Program, f: Function, code: TFunc, b: Builder, term: Terminator)
    requires Emits(p, f, code, b, [], term)
    ensures b.cur < |code.blocks|
  {
    hide EmitTerm;
    TermGrows(f, b, 0, term);
  }

  lemma LookupOne(env: map<nat, MVal>, a: nat)
    requires a in env
    ensures Lookup(env, [a]) == Some([env[a]])
  {
    var ids := [a];
    assert ids[0] in env;
    assert Lookup(env, ids).value == [env[a]];
  }

  /** A condition of type nothing is false, whatever its variable holds. */
  lemma NothingFlag(p: Program, vt: seq<ClTy>, n: nat, dest: nat, mv: MVal, r: Regs) returns (r3: Regs)
    requires dest in r.vars && r.vars[dest] == mv && Ok(r.m.scope)
    ensures ExecCode(p, vt, [Let(n, UseVar(dest)), Let(n + 1, CallRt(BoxNothing, [])),
                             Let(n + 2, CallRt(IsTruthy, [n + 1]))], r) == Some(r3)
    ensures n + 2 in r3.env && r3.env[n + 2] == M8(0) && r3.m == r.m.(scope := r3.m.scope)
  {
    hide ExecCode;
    var load, box := Let(n, UseVar(dest)), Let(n + 1, CallRt(BoxNothing, []));
    var test := Let(n + 2, CallRt(IsTruthy, [n + 1]));
    var r1 := r.(env := r.env[n := mv]);
    var a := r.m.scope.next;
    var r2 := r1.(env := r1.env[n + 1 := M64(Ptr(a))], m := r1.m.(scope := Register(r1.m.scope, VNothing)));
    r3 := r2.(env := r2.env[n + 2 := M8(0)]);
    ExecOne(p, vt, load, r);
    LookupNone(r1.env);
    ExecOne(p, vt, box, r1);
    LookupOne(r2.env, n + 1);
    ExecOne(p, vt, test, r2);
    ExecConcat(p, vt, [load], [box], r);
    assert [load] + [box] == [load, box];
    ExecConcat(p, vt, [load, box], [test], r);
    assert [load, box] + [test] == [load, box, test];
  }

  /** The whole compiled run, when the variable gets a box or can not be defined. */
  lemma BadTestEnds(c: Config, f: Function, code: TFunc, b: Builder, frag: Frag, dest: nat, a: nat, m: Machine, r: Regs)
    requires Compile(c.program, f) == Some(code) && HeadsOk(f, code)
    requires exists params, types, instr :: f == TestOf(params, types, instr, dest)
    requires dest < |f.types| && (IsScalar(f.types[dest]) || f.types[dest] == TNothing)
    requires CurOpen(b) && Lets(frag.code)
    requires Emits(c.program, f, code, DefResult(b, frag, Some(dest)), [], Branch(Local(dest), 1, 2))
    requires Defined(c.program, f, frag.code, dest, frag.res, r)
        == if f.types[dest] in {TFloat, TBoolean} then None else Some((M64(Ptr(a)), m))
    requires m.exc == None && Ok(m.scope)
    ensures OutcomeOf(At(c, 1, 1, code, b, r), TInteger)
         == if IsScalar(f.types[dest]) then Undefined else Finished(VInt(0))
  {
    hide At, ExecCode, Grows, Compile, HeadsOk, Ok, EmitTerm, TestOf;
    var insts := frag.code + [DefVar(dest, frag.res)];
    var stored := DefResult(b, frag, Some(dest));
    StoredGrows(c.program, f, code, stored, Branch(Local(dest), 1, 2));
    match ExecCode(c.program, VarTypes(f), insts, r)
    case None => AppendedStuck(c, 1, 1, code, b, insts, frag.next, r);
    case Some(r1) =>
      DefinedLast(c.program, f, frag.code, dest, frag.res, r, r1);
      RunAppended(c, 1, 1, code, b, insts, frag.next, r, r1);
      BoxTested(c, f, code, stored, dest, a, r1);
  }

  lemma CompiledHeads(p: Program, f: Function, code: TFunc)
    requires Compile(p, f) == Some(code) && f.blocks != []
    ensures HeadsOk(f, code)
  {
    hide Compile, HeadsOk, Eligible, EmitBlock, Grows;
    var _ := CompiledBlock(p, f, code, 0);
  }

  lemma StoredGrows(p: Program, f: Function, code: TFunc, b: Builder, term: Terminator)
    requires Emits(p, f, code, b, [], term)
    ensures Grows(b.blocks, code.blocks)
  {
    hide Grows, EmitTerm;
    TermGrows(f, b, 0, term);
    GrowsTrans(b.blocks, EmitTerm(f, b, 0, term).value.blocks, code.blocks);
  }

  // ----- the two programs -----

  lemma GlobalTestCertified(ty: MirTy, h: Host)
    ensures Certified(Program([GlobalTest(ty)], [ty], h), GlobalTest(ty), [{}, {}, {}])
    ensures ChecksSure(GlobalTest(ty))
  {
    var p, f := Program([GlobalTest(ty)], [ty], h), GlobalTest(ty);
    var avail: seq<set<nat>> := [{}, {}, {}];
    var instrs := f.blocks[0].instrs;
    assert instrs[1..] == [];
    assert forall l :: !CertainLocal(f, l);
    assert InstrsOk(p, f, {}, instrs) && DefinedAfter(f, {}, instrs) == {0} by {
      assert {} + DefOf(instrs[0]) == {0};
    }
    assert BlockOk(p, f, avail, 0) && BlockOk(p, f, avail, 1) && BlockOk(p, f, avail, 2);
  }

  /** A module variable that is tested keeps its meaning exactly if it holds a value of its slot's type; in a
      slot of type nothing also if what it holds is false. */
  lemma GlobalTestExactly(ty: MirTy, v: Value, h: Host)
    requires HostOk(h)
    ensures var f := GlobalTest(ty);
            TiersAgree(Compiling([f], [ty], h), [], Fresh([f], [v])) <==>
              (IsScalar(ty) ==> HasTy(v, ty)) && (ty == TNothing ==> !Truthy(h, v))
  {
    hide Compile, CallFunction, ExecCode, RunNativeFunction, At, Interpret, Ok, Defined, Grows, EmitTerm, Certified,
        ChecksSure, HostOk;
    var f := GlobalTest(ty);
    var c, m := Compiling([f], [ty], h), Fresh([f], [v]);
    TestCompiles(c.program, f, [], [ty], LoadGlobal(0, 0), 0);
    if HasTy(v, ty) {
      GlobalTestCertified(ty, h);
      assert WellFormed(c.program, f);
      FreshQuiet(c.program, [f], [v]);
      TieringIsInvisible(c, 2, 0, [], m, m);
    } else {
      GlobalTestDiffers(ty, v, h);
    }
  }

  lemma FreshQuiet(p: Program, functions: seq<Function>, globals: seq<Value>)
    requires GlobalsTyped(p, globals)
    ensures Quiet(p, Fresh(functions, globals))
  {
  }

  lemma GlobalTestDiffers(ty: MirTy, v: Value, h: Host)
    requires !HasTy(v, ty)
    ensures var c, m := Compiling([GlobalTest(ty)], [ty], h), Fresh([GlobalTest(ty)], [v]);
            && CallFunction(c, 2, 0, [], m).0 == (if IsScalar(ty) then Undefined else Finished(VInt(0)))
            && CallFunction(c.(threshold := 0), 2, 0, [], m).0 == Finished(VInt(if Truthy(h, v) then 1 else 0))
  {
    hide Compile, CallFunction, ExecCode, RunNativeFunction, At, Interpret, Ok, Defined, Grows, EmitTerm, TestOf,
        HeadsOk, Eligible;
    var f := GlobalTest(ty);
    var c, m := Compiling([f], [ty], h), Fresh([f], [v]);
    TestParts([], [ty], LoadGlobal(0, 0), 0);
    TestCompiles(c.program, f, [], [ty], LoadGlobal(0, 0), 0);
    var code := Compile(c.program, f).value;
    assert Prepare(h, [], []) == Ready([]);
    var encoded, words := CompiledCall([f], [ty], h, [], m);
    var b, r := BlockStarts(c, 1, f, code, [], words, encoded);
    GlobalTestRuns(c, code, ty, v, b, r);
    TestInterprets(c.(threshold := 0), 1, [], [ty], LoadGlobal(0, 0), 0, [], m);
  }

  lemma GlobalTestRuns(c: Config, code: TFunc, ty: MirTy, v: Value, b: Builder, r: Regs)
    requires c.program.globals == [ty] && Compile(c.program, GlobalTest(ty)) == Some(code) && !HasTy(v, ty)
    requires Emits(c.program, GlobalTest(ty), code, b, [LoadGlobal(0, 0)], Branch(Local(0), 1, 2))
    requires r.m.globals == [v] && r.m.exc == None && Ok(r.m.scope) && r.m.scope.depth > 0
    ensures OutcomeOf(At(c, 1, 1, code, b, r), TInteger) == if IsScalar(ty) then Undefined else Finished(VInt(0))
  {
    hide Compile, ExecCode, At, Ok, Defined, Grows, EmitTerm, TestOf, HeadsOk, Eligible, Register, OutcomeOf, Pending;
    var f := GlobalTest(ty);
    TestParts([], [ty], LoadGlobal(0, 0), 0);
    var b1 := OneInstr(c.program, f, code, b, LoadGlobal(0, 0), Branch(Local(0), 1, 2));
    var native := AbiToNative(b.next + 1, b.next, ty);
    var frag := native.(code := [Let(b.next, LoadGlobalRaw(0))] + native.code);
    OperandLets(f, b.next + 1, Local(0), b.next, I64, ty);
    BadGlobalLoad(c.program, f, b.next, 0, 0, r);
    CompiledHeads(c.program, f, code);
    RegisterKeepsOk(r.m.scope, v);
    BadTestEnds(c, f, code, b, frag, 0, r.m.scope.next, r.m.(scope := Register(r.m.scope, v)), r);
  }

  /** What the shape of such a function comes to. */
  lemma TestParts(params: seq<Param>, types: seq<MirTy>, instr: Instr, dest: nat)
    ensures var f := TestOf(params, types, instr, dest);
            && f.params == params && f.types == types && f.returnTy == TInteger && |f.blocks| == 3
            && f.blocks[0] == Block([], [instr], Branch(Local(dest), 1, 2))
  {
  }

  lemma MoveTestCertified(ty: MirTy, h: Host)
    requires Boxed(ty)
    ensures Certified(Program([MoveTest(ty)], [], h), MoveTest(ty), [{0}, {}, {}]) && ChecksSure(MoveTest(ty))
  {
    var p, f := Program([MoveTest(ty)], [], h), MoveTest(ty);
    var avail: seq<set<nat>> := [{0}, {}, {}];
    var instrs := f.blocks[0].instrs;
    assert instrs[1..] == [];
    OneLocal(f.params);
    assert forall l :: !CertainLocal(f, l);
    assert {0} + PhiResults([]) == {0};
    assert InstrsOk(p, f, {0}, instrs) && DefinedAfter(f, {0}, instrs) == {0, 1} by {
      assert {0} + DefOf(instrs[0]) == {0, 1};
    }
    assert BlockOk(p, f, avail, 0) && BlockOk(p, f, avail, 1) && BlockOk(p, f, avail, 2);
  }

  /** A flexible argument moved into another variable and tested there keeps its meaning exactly if the
      variable is not scalar, and if it is false should the variable have type nothing. */
  lemma MoveTestExactly(ty: MirTy, v: Value, h: Host)
    requires HostOk(h)
    ensures var f := MoveTest(ty);
            TiersAgree(Compiling([f], [], h), [v], Fresh([f], [])) <==>
              !IsScalar(ty) && (ty == TNothing ==> !Truthy(h, v))
  {
    hide Compile, CallFunction, ExecCode, RunNativeFunction, At, Interpret, Ok, Defined, Grows, EmitTerm, Certified,
        ChecksSure, HostOk;
    var f := MoveTest(ty);
    var c, m := Compiling([f], [], h), Fresh([f], []);
    TestCompiles(c.program, f, f.params, f.types, f.blocks[0].instrs[0], 1);
    if Boxed(ty) {
      MoveTestCertified(ty, h);
      assert WellFormed(c.program, f);
      FreshQuiet(c.program, [f], []);
      TieringIsInvisible(c, 2, 0, [v], m, m);
    } else {
      MoveTestDiffers(ty, v, h);
    }
  }

  lemma MoveTestDiffers(ty: MirTy, v: Value, h: Host)
    requires !Boxed(ty)
    ensures var c, m := Compiling([MoveTest(ty)], [], h), Fresh([MoveTest(ty)], []);
            && CallFunction(c, 2, 0, [v], m).0 == (if IsScalar(ty) then Undefined else Finished(VInt(0)))
            && CallFunction(c.(threshold := 0), 2, 0, [v], m).0 == Finished(VInt(if Truthy(h, v) then 1 else 0))
  {
    hide Compile, CallFunction, ExecCode, RunNativeFunction, At, Interpret, Ok, Defined, Grows, EmitTerm, TestOf,
        HeadsOk, Eligible, ParamLocals, Prepare;
    var f, params, types, move := MoveTest(ty), [Param(0, TDynamic, false, None)], [TDynamic, ty],
        Assign(1, Use(Local(0)));
    var c, m := Compiling([f], [], h), Fresh([f], []);
    TestParts(params, types, move, 1);
    TestCompiles(c.program, f, params, types, move, 1);
    var code := Compile(c.program, f).value;
    OneFlexible(h, params[0], v);
    assert Prepare(h, f.params, [v]) == Ready([v]);
    var encoded, words := CompiledCall([f], [], h, [v], m);
    var b, r := BlockStarts(c, 1, f, code, [v], words, encoded);
    OneLocal(f.params);
    OneFrame(f, v);
    assert EntryFrame(f, [v]) == [v, VNothing];
    assert LiveBox(r.m.scope.heap, r.vars[0], v);
    MoveTestRuns(c, code, ty, b, r.vars[0].w.a, r);
    TestInterprets(c.(threshold := 0), 1, params, types, move, 1, [v], m);
  }

  lemma MoveTestRuns(c: Config, code: TFunc, ty: MirTy, b: Builder, a: nat, r: Regs)
    requires Compile(c.program, MoveTest(ty)) == Some(code) && !Boxed(ty)
    requires Emits(c.program, MoveTest(ty), code, b, [Assign(1, Use(Local(0)))], Branch(Local(1), 1, 2))
    requires 0 in r.vars && r.vars[0] == M64(Ptr(a)) && r.m.exc == None && Ok(r.m.scope)
    ensures OutcomeOf(At(c, 1, 1, code, b, r), TInteger) == if IsScalar(ty) then Undefined else Finished(VInt(0))
  {
    hide Compile, ExecCode, At, Ok, Defined, Grows, EmitTerm, TestOf, HeadsOk, Eligible;
    var f, params, types, move := MoveTest(ty), [Param(0, TDynamic, false, None)], [TDynamic, ty],
        Assign(1, Use(Local(0)));
    TestParts(params, types, move, 1);
    var b1 := OneInstr(c.program, f, code, b, move, Branch(Local(1), 1, 2));
    var frag := One(b.next, UseVar(0), I64);
    DefinedOne(c.program, f, b.next, UseVar(0), 1, r);
    CompiledHeads(c.program, f, code);
    BadTestEnds(c, f, code, b, frag, 1, a, r.m, r);
  }
}
