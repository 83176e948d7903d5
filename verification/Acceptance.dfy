// Exactly which functions the compiler accepts, and one that shows the accepted ones are interesting.

module Acceptance {
  import opened Arithmetic
  import opened Options
  import opened Mir
  import opened Clif
  import opened JitEmit
  import opened Typing

  /** Right-hand sides with native code: arithmetic on integers or floats by destination type, comparison
      and logic of matching kinds, negation, and moves. */
  predicate Supported(f: Function, rhs: Rvalue, destTy: MirTy) {
    match rhs
    case Literal(_) => true
    case Use(_) => true
    case Binary(op, l, r) =>
      && ScalarKind(f, l).Some? && ScalarKind(f, r).Some?
      && ValidKinds(op, ScalarKind(f, l).value, ScalarKind(f, r).value)
      && (|| IsComparison(op) || op in {And, Or, BitXor}
          || (destTy == TInteger && op in {Add, Sub, Mul, Div, Rem, Pow})
          || (destTy == TFloat && op in {Add, Sub, Mul, Div}))
    case Unary(op, x) =>
      || (op == Not && (ScalarKind(f, x) == Some(KBoolean) ||
          (JitOperandType(f, x).Some? && !IsScalar(JitOperandType(f, x).value))))
      || (op == Neg && ScalarKind(f, x) in {Some(KInteger), Some(KFloat)})
  }

  lemma KindTypes(f: Function, n: nat, op: Operand)
    requires ScalarKind(f, op).Some?
    ensures LoadOperand(f, n, op).ty == I64 <==> ScalarKind(f, op) == Some(KInteger)
  {
  }

  lemma RvalueSupported(f: Function, n: nat, rhs: Rvalue, destTy: MirTy)
    ensures EmitRvalue(f, n, rhs, destTy).Some? <==> Supported(f, rhs, destTy)
  {
    if rhs.Binary? && ScalarKind(f, rhs.lhs).Some? && ScalarKind(f, rhs.rhs).Some? {
      KindTypes(f, n, rhs.lhs);
      KindTypes(f, LoadOperand(f, n, rhs.lhs).next, rhs.rhs);
    }
  }

  predicate InstrSupported(f: Function, instr: Instr) {
    instr.Assign? ==> Supported(f, instr.rhs, LocalTy(f, instr.dest))
  }

  lemma {:induction false} InstrsSupported(p: Program, f: Function, b: Builder, instrs: seq<Instr>)
    requires CurOpen(b)
    ensures EmitInstrs(p, f, b, instrs).Some? <==> forall i :: 0 <= i < |instrs| ==> InstrSupported(f, instrs[i])
    decreases |instrs|
  {
    hide EmitRvalue, Supported;
    if instrs != [] {
      if instrs[0].Assign? {
        RvalueSupported(f, b.next, instrs[0].rhs, LocalTy(f, instrs[0].dest));
      }
      if EmitInstr(p, f, b, instrs[0]).Some? {
        InstrsSupported(p, f, EmitInstr(p, f, b, instrs[0]).value, instrs[1..]);
      }
      assert forall i :: 0 < i < |instrs| ==> instrs[i] == instrs[1..][i - 1];
    }
  }

  predicate BlockSupported(f: Function, block: Block) {
    !block.term.Throw? && forall i :: 0 <= i < |block.instrs| ==> InstrSupported(f, block.instrs[i])
  }

  lemma {:induction false} BlocksSupported(p: Program, f: Function, b: Builder, bi: nat)
    requires bi <= |f.blocks| && Pending(f, b, bi)
    ensures EmitBlocks(p, f, b, bi).Some? <==> forall i :: bi <= i < |f.blocks| ==> BlockSupported(f, f.blocks[i])
    decreases |f.blocks| - bi
  {
    hide EmitInstrs, InstrSupported, StartBlock, Pending;
    if bi < |f.blocks| {
      InstrsSupported(p, f, StartBlock(f, b, bi), f.blocks[bi].instrs);
      if EmitBlock(p, f, b, bi).Some? {
        BlockKeepsPending(p, f, b, bi);
        BlocksSupported(p, f, EmitBlock(p, f, b, bi).value, bi + 1);
      }
    }
  }

  /** A function is compiled exactly if every raw word is read at the type it is written at, every
      right-hand side has native code, and nothing is thrown; otherwise it stays interpreted. */
  lemma CompilesExactly(p: Program, f: Function)
    ensures Compile(p, f).Some? <==>
              Eligible(p, f) && forall i :: 0 <= i < |f.blocks| ==> BlockSupported(f, f.blocks[i])
  {
    hide EmitBlocks, BlockSupported, Eligible;
    BlocksSupported(p, f, InitialBuilder(f), 0);
  }

  // ----- a loop that swaps two variables on its back edge -----

  const SWAP_LOOP := Function(
    [Param(0, TInteger, true, None), Param(1, TInteger, true, None)], TInteger,
    [Block([], [], Goto(1)),
     Block([Phi(2, [(0, Local(0)), (1, Local(3))]), Phi(3, [(0, Local(1)), (1, Local(2))])],
           [Assign(4, Binary(Lt, Local(2), Local(3)))],
           Branch(Local(4), 1, 2)),
     Block([], [], Return(Some(Local(2))))],
    [TInteger, TInteger, TInteger, TInteger, TBoolean])

  const SWAP_AVAIL: seq<set<nat>> := [{0, 1}, {0, 1}, {0, 1, 2, 3, 4}]

  lemma SwapPhis()
    ensures var phis := SWAP_LOOP.blocks[1].phis;
            && PhiResults(phis) == {2, 3}
            && forall i :: 0 <= i < |phis| ==>
                 && Incoming(phis[i].incoming, 0) == Some(Local(if i == 0 then 0 else 1))
                 && Incoming(phis[i].incoming, 1) == Some(Local(if i == 0 then 3 else 2))
  {
    var phis := SWAP_LOOP.blocks[1].phis;
    assert phis[1..] == [Phi(3, [(0, Local(1)), (1, Local(2))])] && phis[1..][1..] == [];
    forall i | 0 <= i < |phis|
      ensures Incoming(phis[i].incoming, 0) == Some(Local(if i == 0 then 0 else 1))
      ensures Incoming(phis[i].incoming, 1) == Some(Local(if i == 0 then 3 else 2))
    {
      assert phis[i].incoming[1..] == [phis[i].incoming[1]];
    }
  }

  lemma SwapEntryOk(p: Program)
    ensures BlockOk(p, SWAP_LOOP, SWAP_AVAIL, 0)
  {
    hide PhiResults, Incoming;
    SwapPhis();
    assert PhiResults(SWAP_LOOP.blocks[0].phis) == {} by {
      NoPhis();
    }
    assert SWAP_LOOP.blocks[0].instrs == [];
  }

  lemma NoPhis()
    ensures PhiResults([]) == {}
  {
  }

  lemma SwapBodyOk(p: Program)
    ensures BlockOk(p, SWAP_LOOP, SWAP_AVAIL, 1)
  {
    hide PhiResults, Incoming;
    SwapPhis();
    var instrs := SWAP_LOOP.blocks[1].instrs;
    assert instrs[1..] == [];
    var start := {0, 1} + {2, 3};
    assert DefinedAfter(SWAP_LOOP, start, instrs) == {0, 1, 2, 3, 4} by {
      assert DefinedAfter(SWAP_LOOP, start, instrs) == DefinedAfter(SWAP_LOOP, start + {4}, []);
    }
    assert InstrsOk(p, SWAP_LOOP, start, instrs);
  }

  lemma SwapExitOk(p: Program)
    ensures BlockOk(p, SWAP_LOOP, SWAP_AVAIL, 2)
  {
    hide PhiResults;
    NoPhis();
  }

  lemma SwapLoopCertified(p: Program)
    ensures Certified(p, SWAP_LOOP, SWAP_AVAIL)
  {
    hide BlockOk;
    var f := SWAP_LOOP;
    assert ParamLocals(f.params) == {0, 1} by {
      assert f.params[1..] == [Param(1, TInteger, true, None)] && f.params[1..][1..] == [];
    }
    SwapEntryOk(p);
    SwapBodyOk(p);
    SwapExitOk(p);
  }

  lemma SwapLoopEligible(p: Program)
    ensures Eligible(p, SWAP_LOOP)
  {
    assert BlockEligible(p, SWAP_LOOP, SWAP_LOOP.blocks[0]);
    assert BlockEligible(p, SWAP_LOOP, SWAP_LOOP.blocks[1]);
    assert BlockEligible(p, SWAP_LOOP, SWAP_LOOP.blocks[2]);
  }

  /** It is within what the theorems assume of programs, and it is compiled. */
  lemma SwapLoopAccepted(h: Host)
    requires HostOk(h)
    ensures WellFormedProgram(Program([SWAP_LOOP], [], h))
    ensures Compile(Program([SWAP_LOOP], [], h), SWAP_LOOP).Some?
  {
    hide Certified, Eligible, Compile, BlockSupported;
    var p, f := Program([SWAP_LOOP], [], h), SWAP_LOOP;
    SwapLoopCertified(p);
    assert WellFormed(p, f);
    CompilesExactly(p, f);
    SwapLoopEligible(p);
    SwapLoopSupported();
  }

  lemma SwapLoopSupported()
    ensures forall i :: 0 <= i < |SWAP_LOOP.blocks| ==> BlockSupported(SWAP_LOOP, SWAP_LOOP.blocks[i])
  {
    var f := SWAP_LOOP;
    assert BlockSupported(f, f.blocks[0]) && BlockSupported(f, f.blocks[1]) && BlockSupported(f, f.blocks[2]);
  }

  // ----- a certain parameter of boxed type -----

  /** Its entry check is not compiled. */
  const CERTAIN_STRING := Function([Param(0, TString, true, None)], TString,
    [Block([], [CertainCheck(Local(0))], Return(Some(Local(0))))], [TString])

  lemma CertainStringCertified(p: Program)
    ensures Certified(p, CERTAIN_STRING, [{0}]) && ChecksSure(CERTAIN_STRING)
  {
    var f := CERTAIN_STRING;
    assert f.params[0].local == 0 && f.params[0].certain;
    assert f.params[1..] == [];
    NoPhis();
    var instrs := f.blocks[0].instrs;
    assert instrs[1..] == [];
    assert {0} + {} == {0} && {0} + DefOf(instrs[0]) == {0};
    assert InstrsOk(p, f, {0}, instrs) && DefinedAfter(f, {0}, instrs) == {0};
    assert BlockOk(p, f, [{0}], 0);
  }

  /** Such a function, too, is within what the theorems assume, and it is compiled. */
  lemma CertainStringAccepted(h: Host)
    requires HostOk(h)
    ensures WellFormedProgram(Program([CERTAIN_STRING], [], h))
    ensures Compile(Program([CERTAIN_STRING], [], h), CERTAIN_STRING).Some?
  {
    hide Certified, Compile, ChecksSure;
    var p, f := Program([CERTAIN_STRING], [], h), CERTAIN_STRING;
    CertainStringCertified(p);
    assert WellFormed(p, f);
    CompilesExactly(p, f);
    assert BlockSupported(f, f.blocks[0]);
    assert BlockEligible(p, f, f.blocks[0]);
  }
}
