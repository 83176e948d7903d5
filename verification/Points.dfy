// Running finished code from the point a builder had reached.

module Points {
  import opened Arithmetic
  import opened Options
  import opened Mir
  import opened AbiScope
  import opened Clif
  import opened JitEmit
  import opened Tiers
  import opened Fragments
  import opened States

  // ----- a builder only ever adds code -----

  ghost predicate BlockGrows(x: TBlock, y: TBlock) {
    x.params == y.params && x.body <= y.body && (x.term.Some? ==> x == y)
  }

  ghost predicate Grows(xs: seq<TBlock>, ys: seq<TBlock>) {
    |xs| <= |ys| && forall i :: 0 <= i < |xs| ==> BlockGrows(xs[i], ys[i])
  }

  lemma GrowsSelf(xs: seq<TBlock>)
    ensures Grows(xs, xs)
  {
  }

  lemma GrowsTrans(xs: seq<TBlock>, ys: seq<TBlock>, zs: seq<TBlock>)
    requires Grows(xs, ys) && Grows(ys, zs)
    ensures Grows(xs, zs)
  {
    forall i | 0 <= i < |xs|
      ensures BlockGrows(xs[i], zs[i])
    {
      assert BlockGrows(xs[i], ys[i]) && BlockGrows(ys[i], zs[i]);
    }
  }

  lemma AppendGrows(b: Builder, code: seq<Inst>, next: nat)
    requires CurOpen(b)
    ensures CurOpen(Append(b, code, next)) && Grows(b.blocks, Append(b, code, next).blocks)
  {
  }

  lemma CheckGrows(b: Builder)
    requires CurOpen(b)
    ensures CurOpen(ExceptionCheck(b)) && Grows(b.blocks, ExceptionCheck(b).blocks)
  {
  }

  lemma TerminateGrows(b: Builder, term: Term)
    requires CurOpen(b)
    ensures Grows(b.blocks, Terminate(b, term).blocks)
  {
  }

  lemma InstrGrows(p: Program, f: Function, b: Builder, instr: Instr)
    requires CurOpen(b) && EmitInstr(p, f, b, instr).Some?
    ensures Grows(b.blocks, EmitInstr(p, f, b, instr).value.blocks)
  {
    match instr
    case Assign(dest, rhs) =>
      var frag := EmitRvalue(f, b.next, rhs, LocalTy(f, dest)).value;
      AppendGrows(b, frag.code + [DefVar(dest, frag.res)], frag.next);
      if MayFail(rhs) {
        var stored := DefResult(b, frag, Some(dest));
        CheckGrows(stored);
        GrowsTrans(b.blocks, stored.blocks, ExceptionCheck(stored).blocks);
      }
    case Call(dest, callee, args) =>
      var (before, call, after) := EmitCall(f, b.next, callee, args, DestTy(f, dest));
      var b1 := Append(b, before + [call], call.dst + 1);
      var b2 := DefResult(b1, after, dest);
      AppendGrows(b, before + [call], call.dst + 1);
      AppendGrows(b1, after.code + (if dest.Some? then [DefVar(dest.value, after.res)] else []), after.next);
      GrowsTrans(b.blocks, b1.blocks, b2.blocks);
      CheckGrows(b2);
      GrowsTrans(b.blocks, b2.blocks, ExceptionCheck(b2).blocks);
    case _ =>
  }

  lemma {:induction false} InstrsGrow(p: Program, f: Function, b: Builder, instrs: seq<Instr>)
    requires CurOpen(b) && EmitInstrs(p, f, b, instrs).Some?
    ensures Grows(b.blocks, EmitInstrs(p, f, b, instrs).value.blocks)
    decreases |instrs|
  {
    if instrs != [] {
      InstrGrows(p, f, b, instrs[0]);
      var b1 := EmitInstr(p, f, b, instrs[0]).value;
      InstrsGrow(p, f, b1, instrs[1..]);
      GrowsTrans(b.blocks, b1.blocks, EmitInstrs(p, f, b, instrs).value.blocks);
    }
  }

  lemma TermGrows(f: Function, b: Builder, bi: nat, term: Terminator)
    requires CurOpen(b) && EmitTerm(f, b, bi, term).Some?
    ensures Grows(b.blocks, EmitTerm(f, b, bi, term).value.blocks)
  {
  }

  lemma BlockGrowsAll(p: Program, f: Function, b: Builder, bi: nat)
    requires bi < |f.blocks| && Pending(f, b, bi) && EmitBlock(p, f, b, bi).Some?
    ensures Grows(b.blocks, EmitBlock(p, f, b, bi).value.blocks)
  {
    var start := StartBlock(f, b, bi);
    var filled := EmitInstrs(p, f, start, f.blocks[bi].instrs).value;
    assert Grows(b.blocks, start.blocks);
    InstrsGrow(p, f, start, f.blocks[bi].instrs);
    TermGrows(f, filled, bi, f.blocks[bi].term);
    GrowsTrans(b.blocks, start.blocks, filled.blocks);
    GrowsTrans(b.blocks, filled.blocks, EmitBlock(p, f, b, bi).value.blocks);
  }

  lemma {:induction false} BlocksGrow(p: Program, f: Function, b: Builder, bi: nat)
    requires bi <= |f.blocks| && Pending(f, b, bi) && EmitBlocks(p, f, b, bi).Some?
    ensures Grows(b.blocks, EmitBlocks(p, f, b, bi).value.blocks)
    decreases |f.blocks| - bi
  {
    hide Grows, EmitBlock, Pending;
    if bi == |f.blocks| {
      GrowsSelf(b.blocks);
    } else {
      BlockGrowsAll(p, f, b, bi);
      BlockKeepsPending(p, f, b, bi);
      var b1 := EmitBlock(p, f, b, bi).value;
      BlocksGrow(p, f, b1, bi + 1);
      GrowsTrans(b.blocks, b1.blocks, EmitBlocks(p, f, b, bi).value.blocks);
    }
  }

  lemma BlocksStep(p: Program, f: Function, b: Builder, bi: nat) returns (b1: Builder)
    requires bi < |f.blocks| && Pending(f, b, bi) && EmitBlocks(p, f, b, bi).Some?
    ensures EmitBlock(p, f, b, bi) == Some(b1) && Pending(f, b1, bi + 1)
    ensures EmitBlocks(p, f, b, bi) == EmitBlocks(p, f, b1, bi + 1)
    ensures Grows(b.blocks, b1.blocks) && Grows(b1.blocks, EmitBlocks(p, f, b, bi).value.blocks)
  {
    hide EmitBlock, Grows;
    BlockKeepsPending(p, f, b, bi);
    BlockGrowsAll(p, f, b, bi);
    b1 := EmitBlock(p, f, b, bi).value;
    BlocksGrow(p, f, b1, bi + 1);
  }

  /** The builder just before block `bi` is filled. */
  lemma {:induction false} BuilderBefore(p: Program, f: Function, b: Builder, from: nat, bi: nat) returns (at: Builder)
    requires from <= bi < |f.blocks| && Pending(f, b, from) && EmitBlocks(p, f, b, from).Some?
    ensures Pending(f, at, bi) && EmitBlock(p, f, at, bi).Some?
    ensures at.blocks[bi].params == b.blocks[bi].params
    ensures from == bi ==> at == b
    ensures Grows(EmitBlock(p, f, at, bi).value.blocks, EmitBlocks(p, f, b, from).value.blocks)
    decreases bi - from
  {
    hide EmitBlock, EmitBlocks;
    var b1 := BlocksStep(p, f, b, from);
    if from == bi {
      at := b;
    } else {
      at := BuilderBefore(p, f, b1, from + 1, bi);
      assert BlockGrows(b.blocks[bi], b1.blocks[bi]);
    }
  }

  // ----- executing from a builder's point -----

  function At(c: Config, depth: nat, fuel: nat, code: TFunc, b: Builder, r: Regs): NativeEnd
    requires CurOpen(b)
  {
    RunCode(c, depth, fuel, code, b.cur, |b.blocks[b.cur].body|, r)
  }

  lemma RunOneStep(c: Config, depth: nat, fuel: nat, code: TFunc, blk: nat, pos: nat, inst: Inst, r: Regs)
    requires blk < |code.blocks| && pos < |code.blocks[blk].body| && code.blocks[blk].body[pos] == inst
    requires Step(c.program, code.varTypes, inst, r).Some?
    ensures RunCode(c, depth, fuel, code, blk, pos, r)
         == RunCode(c, depth, fuel, code, blk, pos + 1, Step(c.program, code.varTypes, inst, r).value)
  {
  }

  lemma {:induction false} RunStraight(c: Config, depth: nat, fuel: nat, code: TFunc, blk: nat, pos: nat,
      insts: seq<Inst>, r: Regs)
    requires blk < |code.blocks| && pos + |insts| <= |code.blocks[blk].body|
    requires code.blocks[blk].body[pos..pos + |insts|] == insts
    requires ExecCode(c.program, code.varTypes, insts, r).Some?
    ensures RunCode(c, depth, fuel, code, blk, pos, r)
         == RunCode(c, depth, fuel, code, blk, pos + |insts|, ExecCode(c.program, code.varTypes, insts, r).value)
    decreases |insts|
  {
    hide RunCode, Step;
    if insts != [] {
      var body := code.blocks[blk].body;
      assert body[pos] == insts[0];
      assert body[pos + 1..pos + |insts|] == insts[1..];
      var r1 := Step(c.program, code.varTypes, insts[0], r).value;
      RunOneStep(c, depth, fuel, code, blk, pos, insts[0], r);
      RunStraight(c, depth, fuel, code, blk, pos + 1, insts[1..], r1);
    }
  }

  lemma PrefixSlice(body: seq<Inst>, insts: seq<Inst>, whole: seq<Inst>)
    requires body + insts <= whole
    ensures |body| + |insts| <= |whole| && whole[|body|..|body| + |insts|] == insts
  {
    assert whole[..|body| + |insts|] == body + insts;
    assert whole[|body|..|body| + |insts|] == whole[..|body| + |insts|][|body|..];
  }

  /** Appended straight-line code runs from the builder's point to the point after it. */
  lemma RunAppended(c: Config, depth: nat, fuel: nat, code: TFunc, b: Builder, insts: seq<Inst>, next: nat, r: Regs,
      r': Regs)
    requires CurOpen(b) && Grows(Append(b, insts, next).blocks, code.blocks)
    requires ExecCode(c.program, code.varTypes, insts, r) == Some(r')
    ensures At(c, depth, fuel, code, b, r) == At(c, depth, fuel, code, Append(b, insts, next), r')
  {
    hide RunCode, ExecCode;
    var b1 := Append(b, insts, next);
    assert BlockGrows(b1.blocks[b.cur], code.blocks[b.cur]);
    PrefixSlice(b.blocks[b.cur].body, insts, code.blocks[b.cur].body);
    RunStraight(c, depth, fuel, code, b.cur, |b.blocks[b.cur].body|, insts, r);
  }

  function AfterCall(c: Config, depth: nat, fuel: nat, code: TFunc, blk: nat, pos: nat, call: Inst, r: Regs): NativeEnd
    requires call.Let? && call.op.CallFn?
  {
    match CallRaw(c, depth, call.op.callee, call.op.fnArgs, r)
    case Stuck => Stuck
    case OutOfFuel => OutOfFuel
    case Returned(w, m) => RunCode(c, depth, fuel, code, blk, pos, r.(env := r.env[call.dst := M64(w)], m := m))
  }

  lemma RunOneCall(c: Config, depth: nat, fuel: nat, code: TFunc, blk: nat, pos: nat, call: Inst, r: Regs)
    requires blk < |code.blocks| && pos < |code.blocks[blk].body| && code.blocks[blk].body[pos] == call
    requires call.Let? && call.op.CallFn?
    ensures RunCode(c, depth, fuel, code, blk, pos, r) == AfterCall(c, depth, fuel, code, blk, pos + 1, call, r)
  {
  }

  /** Straight-line code, then one Fidan call. */
  lemma RunToCall(c: Config, depth: nat, fuel: nat, code: TFunc, b: Builder, before: seq<Inst>, call: Inst, next: nat,
      r: Regs, r1: Regs)
    requires CurOpen(b) && Grows(Append(b, before + [call], next).blocks, code.blocks)
    requires ExecCode(c.program, code.varTypes, before, r) == Some(r1)
    requires call.Let? && call.op.CallFn?
    ensures var b1 := Append(b, before + [call], next);
            At(c, depth, fuel, code, b, r)
                == AfterCall(c, depth, fuel, code, b1.cur, |b1.blocks[b1.cur].body|, call, r1)
  {
    hide RunCode, ExecCode, CallRaw;
    var body := b.blocks[b.cur].body;
    var whole := code.blocks[b.cur].body;
    assert BlockGrows(Append(b, before + [call], next).blocks[b.cur], code.blocks[b.cur]);
    assert body + (before + [call]) == (body + before) + [call];
    PrefixSlice(body + before, [call], whole);
    assert body + before <= whole;
    PrefixSlice(body, before, whole);
    RunStraight(c, depth, fuel, code, b.cur, |body|, before, r);
    RunOneCall(c, depth, fuel, code, b.cur, |body| + |before|, call, r1);
  }

  lemma LookupNone(env: map<nat, MVal>)
    ensures Lookup(env, []) == Some([])
  {
    var vals := Lookup(env, []).value;
    assert |vals| == 0;
  }

  /** A branch into an argument-less block beyond the MIR blocks. */
  lemma RunBranch(c: Config, depth: nat, fuel: nat, code: TFunc, blk: nat, flag: nat, failure: nat, success: nat,
      r: Regs, taken: bool)
    requires blk < |code.blocks| && code.blocks[blk].term == Some(Brif(flag, failure, [], success, []))
    requires blk < failure < |code.blocks| && blk < success < |code.blocks| && code.heads <= failure &&
        code.heads <= success
    requires code.blocks[failure].params == [] && code.blocks[success].params == []
    requires flag in r.env && r.env[flag] == M8(if taken then 1 else 0)
    ensures RunCode(c, depth, fuel, code, blk, |code.blocks[blk].body|, r)
         == RunCode(c, depth, fuel, code, if taken then failure else success, 0, r.(env := map[]))
  {
    LookupNone(r.env);
    assert BindBlockParams([], []) == Some(map[]);
  }

  lemma RunReturnZero(c: Config, depth: nat, fuel: nat, code: TFunc, blk: nat, id: nat, r: Regs)
    requires blk < |code.blocks| && code.blocks[blk].body == [Let(id, Iconst(I64, 0))] &&
        code.blocks[blk].term == Some(Ret(id))
    ensures RunCode(c, depth, fuel, code, blk, 0, r) == Returned(Num(0), r.m)
  {
    hide ExecCode;
    var zero := Let(id, Iconst(I64, 0));
    ExecOne(c.program, code.varTypes, zero, r);
    RunStraight(c, depth, fuel, code, blk, 0, [zero], r);
  }

  /** After the check, a pending exception has returned 0; otherwise execution goes on as before. */
  lemma RunCheck(c: Config, depth: nat, fuel: nat, code: TFunc, b: Builder, r: Regs)
    requires CurOpen(b) && Grows(ExceptionCheck(b).blocks, code.blocks) && code.heads <= |b.blocks|
    ensures At(c, depth, fuel, code, b, r) ==
      if r.m.exc.Some? then Returned(Num(0), r.m)
      else At(c, depth, fuel, code, ExceptionCheck(b), r.(env := map[]))
  {
    hide RunCode, ExecCode;
    var b1 := ExceptionCheck(b);
    var test := Let(b.next, CallRt(HasException, []));
    var flag := M8(if r.m.exc.Some? then 1 else 0);
    var r1 := r.(env := r.env[b.next := flag]);
    var failure, success := |b.blocks|, |b.blocks| + 1;
    assert BlockGrows(b1.blocks[b.cur], code.blocks[b.cur]);
    assert BlockGrows(b1.blocks[failure], code.blocks[failure]);
    assert BlockGrows(b1.blocks[success], code.blocks[success]);
    PrefixSlice(b.blocks[b.cur].body, [test], code.blocks[b.cur].body);
    LookupNone(r.env);
    assert EvalOp(c.program, test.op, r) == Some((flag, r.m));
    ExecOne(c.program, code.varTypes, test, r);
    RunStraight(c, depth, fuel, code, b.cur, |b.blocks[b.cur].body|, [test], r);
    RunBranch(c, depth, fuel, code, b.cur, b.next, failure, success, r1, r.m.exc.Some?);
    if r.m.exc.Some? {
      RunReturnZero(c, depth, fuel, code, failure, b.next + 1, r1.(env := map[]));
    }
  }
}
