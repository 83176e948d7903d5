// Safety of all states from the point a builder had reached, one piece of emitted code at a time.

module SafeRuns {
  import opened Arithmetic
  import opened Options
  import opened Mir
  import opened AbiScope
  import opened Clif
  import opened JitEmit
  import opened Tiers
  import opened Fragments
  import opened States
  import opened Points

  /** From the builder's point on, every state is safe. */
  ghost predicate SafeAt(c: Config, depth: nat, fuel: nat, f: Function, code: TFunc, b: Builder, r: Regs)
    requires CurOpen(b)
  {
    AllSafe(c, AtCode(f, code, depth, fuel, b.cur, |b.blocks[b.cur].body|, r))
  }

  lemma StepSafe(c: Config, s: State, r1: Regs)
    requires s.AtCode? && s.blk < |s.code.blocks| && s.pos < |s.code.blocks[s.blk].body|
    requires VarsSafe(s.f.types, s.r.vars, s.r.m.scope)
    requires WordsOut(c.program, s.code.blocks[s.blk].body[s.pos], s.r.env)
    requires Step(c.program, s.code.varTypes, s.code.blocks[s.blk].body[s.pos], s.r) == Some(r1)
    requires AllSafe(c, s.(pos := s.pos + 1, r := r1))
    ensures AllSafe(c, s)
  {
    hide AllSafe, VarsSafe, WordsOut, AfterBody;
    assert CallAt(s).None?;
    SafeBefore(c, s);
  }

  lemma {:induction false} StraightSafe(c: Config, s: State, insts: seq<Inst>, r1: Regs)
    requires s.AtCode? && s.blk < |s.code.blocks| && s.pos + |insts| <= |s.code.blocks[s.blk].body|
    requires s.code.blocks[s.blk].body[s.pos..s.pos + |insts|] == insts
    requires Careful(c.program, s.code.varTypes, s.f.types, insts, s.r)
    requires ExecCode(c.program, s.code.varTypes, insts, s.r) == Some(r1)
    requires AllSafe(c, s.(pos := s.pos + |insts|, r := r1))
    ensures AllSafe(c, s)
    decreases |insts|
  {
    hide AllSafe, VarsSafe, WordsOut, Step;
    if insts == [] {
      assert s.(pos := s.pos + |insts|, r := r1) == s;
    } else {
      var body := s.code.blocks[s.blk].body;
      assert body[s.pos] == insts[0];
      assert body[s.pos + 1..s.pos + |insts|] == insts[1..];
      var next := s.(pos := s.pos + 1, r := Step(c.program, s.code.varTypes, insts[0], s.r).value);
      assert next.(pos := next.pos + |insts[1..]|, r := r1) == s.(pos := s.pos + |insts|, r := r1);
      StraightSafe(c, next, insts[1..], r1);
      StepSafe(c, s, next.r);
    }
  }

  lemma AppendedSafe(c: Config, depth: nat, fuel: nat, f: Function, code: TFunc, b: Builder, insts: seq<Inst>,
      next: nat, r: Regs, r': Regs)
    requires CurOpen(b) && Grows(Append(b, insts, next).blocks, code.blocks)
    requires ExecCode(c.program, code.varTypes, insts, r) == Some(r')
    requires Careful(c.program, code.varTypes, f.types, insts, r)
    ensures SafeAt(c, depth, fuel, f, code, Append(b, insts, next), r') ==> SafeAt(c, depth, fuel, f, code, b, r)
  {
    hide AllSafe, Careful, ExecCode;
    var b1 := Append(b, insts, next);
    assert BlockGrows(b1.blocks[b.cur], code.blocks[b.cur]);
    PrefixSlice(b.blocks[b.cur].body, insts, code.blocks[b.cur].body);
    var s := AtCode(f, code, depth, fuel, b.cur, |b.blocks[b.cur].body|, r);
    if SafeAt(c, depth, fuel, f, code, b1, r') {
      assert s.(pos := s.pos + |insts|, r := r')
          == AtCode(f, code, depth, fuel, b1.cur, |b1.blocks[b1.cur].body|, r');
      StraightSafe(c, s, insts, r');
    }
  }

  /** The state behind a block's last instruction. */
  lemma TermSafe(c: Config, s: State)
    requires s.AtCode? && s.blk < |s.code.blocks| && s.pos == |s.code.blocks[s.blk].body|
    requires VarsSafe(s.f.types, s.r.vars, s.r.m.scope)
    requires WordBack(s.f, s.code.blocks[s.blk].term, s.r.env)
    requires SafeFrom(c, AfterBody(s))
    ensures AllSafe(c, s)
  {
    hide AllSafe, VarsSafe, WordBack, AfterBody;
    assert CallAt(s).None?;
    SafeBefore(c, s);
  }

  /** Straight-line code, then the terminator. */
  lemma LastSafe(c: Config, depth: nat, fuel: nat, f: Function, code: TFunc, b: Builder, insts: seq<Inst>, next: nat,
      term: Term, r: Regs, r': Regs)
    requires CurOpen(b) && Grows(Terminate(Append(b, insts, next), term).blocks, code.blocks)
    requires ExecCode(c.program, code.varTypes, insts, r) == Some(r')
    requires Careful(c.program, code.varTypes, f.types, insts, r)
    requires VarsSafe(f.types, r'.vars, r'.m.scope) && WordBack(f, Some(term), r'.env)
    ensures b.cur < |code.blocks| && code.blocks[b.cur].term == Some(term)
    ensures SafeFrom(c, AfterBody(AtCode(f, code, depth, fuel, b.cur, |code.blocks[b.cur].body|, r'))) ==>
              SafeAt(c, depth, fuel, f, code, b, r)
  {
    hide AllSafe, Careful, ExecCode, VarsSafe, AfterBody, WordBack;
    var b1 := Append(b, insts, next);
    var last := Terminate(b1, term);
    assert BlockGrows(last.blocks[b.cur], code.blocks[b.cur]);
    AppendGrows(b, insts, next);
    TerminateGrows(b1, term);
    GrowsTrans(b1.blocks, last.blocks, code.blocks);
    var s := AtCode(f, code, depth, fuel, b.cur, |code.blocks[b.cur].body|, r');
    if SafeFrom(c, AfterBody(s)) {
      TermSafe(c, s);
      AppendedSafe(c, depth, fuel, f, code, b, insts, next, r, r');
    }
  }

  /** The block an exception check fails into: it returns 0. */
  lemma ReturnZeroSafe(c: Config, s: State, id: nat)
    requires s.AtCode? && s.blk < |s.code.blocks| && s.pos == 0
    requires s.code.blocks[s.blk].body == [Let(id, Iconst(I64, 0))] && s.code.blocks[s.blk].term == Some(Ret(id))
    requires VarsSafe(s.f.types, s.r.vars, s.r.m.scope)
    ensures AllSafe(c, s)
  {
    hide AllSafe, VarsSafe;
    var zero := Let(id, Iconst(I64, 0));
    var r1 := s.r.(env := s.r.env[id := M64(Num(0))]);
    assert Step(c.program, s.code.varTypes, zero, s.r) == Some(r1);
    TermSafe(c, s.(pos := 1, r := r1));
    StepSafe(c, s, r1);
  }

  /** A branch into an argument-less block beyond the MIR blocks. */
  lemma BranchSafe(c: Config, s: State, flag: nat, failure: nat, success: nat, taken: bool)
    requires s.AtCode? && s.blk < |s.code.blocks| && s.pos == |s.code.blocks[s.blk].body|
    requires s.code.blocks[s.blk].term == Some(Brif(flag, failure, [], success, []))
    requires s.blk < failure < |s.code.blocks| && s.blk < success < |s.code.blocks|
    requires s.code.heads <= failure && s.code.heads <= success
    requires s.code.blocks[failure].params == [] && s.code.blocks[success].params == []
    requires flag in s.r.env && s.r.env[flag] == M8(if taken then 1 else 0)
    requires VarsSafe(s.f.types, s.r.vars, s.r.m.scope)
    requires AllSafe(c, s.(blk := if taken then failure else success, pos := 0, r := s.r.(env := map[])))
    ensures AllSafe(c, s)
  {
    hide AllSafe, VarsSafe;
    LookupNone(s.r.env);
    assert BindBlockParams([], []) == Some(map[]);
    TermSafe(c, s);
  }

  lemma CheckSafe(c: Config, depth: nat, fuel: nat, f: Function, code: TFunc, b: Builder, r: Regs)
    requires CurOpen(b) && Grows(ExceptionCheck(b).blocks, code.blocks) && code.heads <= |b.blocks|
    requires VarsSafe(f.types, r.vars, r.m.scope)
    requires r.m.exc.None? ==> SafeAt(c, depth, fuel, f, code, ExceptionCheck(b), r.(env := map[]))
    ensures SafeAt(c, depth, fuel, f, code, b, r)
  {
    hide AllSafe, VarsSafe;
    var b1 := ExceptionCheck(b);
    var test := Let(b.next, CallRt(HasException, []));
    var flag := M8(if r.m.exc.Some? then 1 else 0);
    var r1 := r.(env := r.env[b.next := flag]);
    var failure, success := |b.blocks|, |b.blocks| + 1;
    assert BlockGrows(b1.blocks[b.cur], code.blocks[b.cur]);
    assert BlockGrows(b1.blocks[failure], code.blocks[failure]);
    assert BlockGrows(b1.blocks[success], code.blocks[success]);
    PrefixSlice(b.blocks[b.cur].body, [test], code.blocks[b.cur].body);
    LookupNone(r.env);
    assert EvalOp(c.program, test.op, r) == Some((flag, r.m));
    var s := AtCode(f, code, depth, fuel, b.cur, |b.blocks[b.cur].body|, r);
    assert Step(c.program, code.varTypes, test, r) == Some(r1);
    var tested := s.(pos := s.pos + 1, r := r1);
    if r.m.exc.Some? {
      ReturnZeroSafe(c, tested.(blk := failure, pos := 0, r := r1.(env := map[])), b.next + 1);
    }
    BranchSafe(c, tested, b.next, failure, success, r.m.exc.Some?);
    StepSafe(c, s, r1);
  }

  /** Straight-line code, then one Fidan call. */
  lemma CallSafe(c: Config, depth: nat, fuel: nat, f: Function, code: TFunc, b: Builder, before: seq<Inst>, call: Inst,
      next: nat, r: Regs, r1: Regs)
    requires CurOpen(b) && Grows(Append(b, before + [call], next).blocks, code.blocks)
    requires ExecCode(c.program, code.varTypes, before, r) == Some(r1)
    requires Careful(c.program, code.varTypes, f.types, before, r)
    requires call.Let? && call.op.CallFn?
    requires VarsSafe(f.types, r1.vars, r1.m.scope) && WordsOut(c.program, call, r1.env)
    requires b.cur < |code.blocks| && |b.blocks[b.cur].body + before| < |code.blocks[b.cur].body|
    requires SafeFrom(c, Callee(c, AtCode(f, code, depth, fuel, b.cur, |b.blocks[b.cur].body + before|, r1)))
    requires var end := CallRaw(c, depth, call.op.callee, call.op.fnArgs, r1);
             end.Returned? ==>
               SafeAt(c, depth, fuel, f, code, Append(b, before + [call], next),
                      r1.(env := r1.env[call.dst := M64(end.w)], m := end.m))
    ensures SafeAt(c, depth, fuel, f, code, b, r)
  {
    hide AllSafe, Careful, ExecCode, VarsSafe, CallRaw, WordsOut, Callee;
    var body := b.blocks[b.cur].body;
    var whole := code.blocks[b.cur].body;
    assert BlockGrows(Append(b, before + [call], next).blocks[b.cur], code.blocks[b.cur]);
    assert body + (before + [call]) == (body + before) + [call];
    PrefixSlice(body + before, [call], whole);
    assert body + before <= whole;
    PrefixSlice(body, before, whole);
    var s := AtCode(f, code, depth, fuel, b.cur, |body + before|, r1);
    assert whole[s.pos] == call && CallAt(s) == Some(call);
    SafeBefore(c, s);
    StraightSafe(c, AtCode(f, code, depth, fuel, b.cur, |body|, r), before, r1);
  }

  // ----- what is emitted for expressions are operations only -----

  lemma OperandLets(f: Function, n: nat, op: Operand, v: nat, vty: ClTy, ty: MirTy)
    ensures Lets(LoadOperand(f, n, op).code) && Lets(BoxOperand(f, n, op).code)
    ensures Lets(AbiToNative(n, v, ty).code) && Lets(NativeToAbi(n, v, vty, ty).code)
  {
  }

  lemma ConcatLets(c1: seq<Inst>, c2: seq<Inst>)
    requires Lets(c1) && Lets(c2)
    ensures Lets(c1 + c2)
  {
  }

  lemma EnsureLets(n: nat, v: nat, ty: ClTy)
    ensures Lets(EnsureI64(n, v, ty).code) && Lets(EnsureF64(n, v, ty).code)
  {
  }

  lemma CompareLets(n: nat, c: Cmp, l: nat, lty: ClTy, r: nat, rty: ClTy)
    ensures Lets(EmitCompare(n, c, l, lty, r, rty).code)
  {
    hide EnsureI64, EnsureF64;
    EnsureLets(n, l, lty);
    EnsureLets(EnsureI64(n, l, lty).next, r, rty);
    EnsureLets(EnsureF64(n, l, lty).next, r, rty);
  }

  lemma LogicLets(n: nat, op: BinOp, l: nat, lty: ClTy, r: nat, rty: ClTy)
    ensures Lets(EmitLogic(n, op, l, lty, r, rty).code)
  {
    hide EnsureI64;
    EnsureLets(n, l, lty);
    EnsureLets(EnsureI64(n, l, lty).next, r, rty);
  }

  lemma CoerceLets(n: nat, v: nat, ty: ClTy, destTy: MirTy)
    ensures Lets(CoerceToDest(n, v, ty, destTy).code)
  {
    hide EnsureI64, EnsureF64;
    EnsureLets(n, v, ty);
  }

  lemma BinopLets(n: nat, op: BinOp, l: nat, lty: ClTy, r: nat, rty: ClTy, ty: MirTy)
    requires EmitBinop(n, op, l, lty, r, rty, ty).Some?
    ensures Lets(EmitBinop(n, op, l, lty, r, rty, ty).value.code)
  {
    hide CoerceToDest, EmitCompare, EmitLogic;
    var a := CoerceToDest(n, l, lty, ty);
    var pair := Both(a, CoerceToDest(a.next, r, rty, ty));
    CoerceLets(n, l, lty, ty);
    CoerceLets(a.next, r, rty, ty);
    LogicLets(pair.next, op, l, lty, r, rty);
    if IsComparison(op) {
      CompareLets(pair.next, CmpOf(op), l, lty, r, rty);
    }
  }

  lemma UnaryLets(f: Function, n: nat, op: UnOp, x: Operand)
    requires EmitUnary(f, n, op, x).Some?
    ensures Lets(EmitUnary(f, n, op, x).value.code)
  {
  }

  lemma RvalueLets(f: Function, n: nat, rhs: Rvalue, ty: MirTy)
    requires EmitRvalue(f, n, rhs, ty).Some?
    ensures Lets(EmitRvalue(f, n, rhs, ty).value.code)
  {
    hide EmitBinop, EmitUnary;
    match rhs
    case Binary(op, lhs, rhs) =>
      var l := LoadOperand(f, n, lhs);
      var r := LoadOperand(f, l.next, rhs);
      BinopLets(r.next, op, l.res, l.ty, r.res, r.ty, ty);
    case Unary(op, x) => UnaryLets(f, n, op, x);
    case Use(op) => OperandLets(f, n, op, 0, I64, ty);
    case Literal(lit) =>
  }

  lemma {:induction false} ArgsLets(f: Function, n: nat, args: seq<Operand>)
    ensures Lets(EmitArgs(f, n, args).code)
    decreases |args|
  {
    if args != [] {
      ArgsLets(f, n, args[..|args| - 1]);
    }
  }

  lemma {:induction false} PhisLets(f: Function, n: nat, src: nat, phis: seq<Phi>)
    ensures Lets(CollectPhiArgs(f, n, src, phis).code)
    decreases |phis|
  {
    if phis != [] {
      PhisLets(f, n, src, phis[..|phis| - 1]);
    }
  }

  lemma FlagLets(f: Function, n: nat, cond: Operand)
    ensures Lets(CondFlag(f, n, cond).code)
  {
  }
}
