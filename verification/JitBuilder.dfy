// The compiler as the program runs it: a function builder whose current block grows instruction by
// instruction (crates/fidan-codegen-cranelift/src/jit.rs). Every method leaves exactly the code its
// specification in JitEmit describes.

module JitBuilder {
  import opened Arithmetic
  import opened Options
  import opened Mir
  import opened Clif
  import opened JitEmit

  lemma AppendNothing(b: Builder)
    requires CurOpen(b)
    ensures Append(b, [], b.next) == b
  {
    assert b.blocks[b.cur].body + [] == b.blocks[b.cur].body;
    assert Append(b, [], b.next).blocks == b.blocks;
  }

  lemma AppendTwice(b: Builder, c1: seq<Inst>, n1: nat, c2: seq<Inst>, n2: nat)
    requires CurOpen(b)
    ensures CurOpen(Append(b, c1, n1))
    ensures Append(Append(b, c1, n1), c2, n2) == Append(b, c1 + c2, n2)
  {
    var body := b.blocks[b.cur].body;
    assert body + c1 + c2 == body + (c1 + c2);
    assert Append(Append(b, c1, n1), c2, n2).blocks == Append(b, c1 + c2, n2).blocks;
  }

  class FunctionBuilder {
    var blocks: seq<TBlock>
    var cur: nat
    var next: nat

    ghost function State(): Builder
      reads this
    {
      Builder(blocks, cur, next)
    }

    ghost predicate Open()
      reads this
    {
      CurOpen(State())
    }

    /** Exactly this code was appended to the current block. */
    twostate predicate Emitted(code: seq<Inst>, after: nat)
      requires old(Open())
      reads this
    {
      State() == Append(old(State()), code, after)
    }

    /** One block for each MIR block; block 0 takes the raw arguments, the others their phis. */
    constructor (f: Function)
      ensures State() == InitialBuilder(f)
    {
      blocks, cur, next := [], 0, 0;
      new;
      for k := 0 to |f.blocks|
        invariant cur == 0 && (blocks, next) == Heads(f, k)
      {
        var params: seq<(nat, ClTy)> := [];
        if k == 0 {
          for i := 0 to |f.params|
            invariant cur == 0 && (blocks, next) == ([], i)
            invariant params == seq(i, j => (j, I64))
          {
            params := params + [(next, I64)];
            next := next + 1;
          }
          assert params == seq(|f.params|, j => (j, I64));
        } else {
          var phis := f.blocks[k].phis;
          ghost var n := next;
          for i := 0 to |phis|
            invariant cur == 0 && blocks == Heads(f, k).0 && next == n + i
            invariant params == seq(i, j requires 0 <= j < i => (n + j, ClTyOf(LocalTy(f, phis[j].result))))
          {
            params := params + [(next, ClTyOf(LocalTy(f, phis[i].result)))];
            next := next + 1;
          }
          assert params == PhiParams(f, phis, n);
        }
        ghost var before := blocks;
        blocks := blocks + [TBlock(params, [], None)];
        if k == 0 {
          assert before + [TBlock(params, [], None)] == [TBlock(params, [], None)];
          assert Heads(f, 1) == ([TBlock(seq(|f.params|, j => (j, I64)), [], None)], |f.params|);
        } else {
          assert before == Heads(f, k).0 && params == PhiParams(f, f.blocks[k].phis, Heads(f, k).1);
        }
      }
    }

    // ----- single instructions -----

    method Ins(op: Op) returns (v: nat)
      requires Open()
      modifies this
      ensures Open() && v == old(next) && Emitted([Let(v, op)], v + 1)
    {
      v := next;
      blocks := blocks[cur := blocks[cur].(body := blocks[cur].body + [Let(v, op)])];
      next := next + 1;
    }

    method Write(inst: Inst)
      requires Open() && !inst.Let?
      modifies this
      ensures Open() && Emitted([inst], old(next))
    {
      blocks := blocks[cur := blocks[cur].(body := blocks[cur].body + [inst])];
    }

    method End(term: Term)
      requires Open()
      modifies this
      ensures State() == Terminate(old(State()), term)
    {
      blocks := blocks[cur := blocks[cur].(term := Some(term))];
    }

    method CreateBlock() returns (id: nat)
      modifies this`blocks
      ensures id == |old(blocks)| && blocks == old(blocks) + [TBlock([], [], None)]
    {
      id := |blocks|;
      blocks := blocks + [TBlock([], [], None)];
    }

    // ----- loads and conversions -----

    method Load(f: Function, op: Operand) returns (v: nat, ty: ClTy)
      requires Open()
      modifies this
      ensures var load := LoadOperand(f, old(next), op);
              Open() && Emitted(load.code, load.next) && v == load.res && ty == load.ty
    {
      match op
      case Local(l) =>
        v := Ins(UseVar(l));
        ty := ClTyOf(LocalTy(f, l));
      case Const(LInt(k)) =>
        v := Ins(Iconst(I64, k));
        ty := I64;
      case Const(LFloat(bits)) =>
        v := Ins(F64const(bits));
        ty := F64;
      case Const(LBool(b)) =>
        v := Ins(Iconst(I8, if b then 1 else 0));
        ty := I8;
      case Const(_) =>
        v := Ins(Iconst(I64, 0));
        ty := I64;
    }

    method ToI64(v: nat, ty: ClTy) returns (r: nat)
      requires Open()
      modifies this
      ensures var wide := EnsureI64(old(next), v, ty); Open() && Emitted(wide.code, wide.next) && r == wide.res
    {
      AppendNothing(State());
      match ty
      case I64 => r := v;
      case I8 => r := Ins(UExtend(v));
      case F64 => r := Ins(FcvtToSint(v));
    }

    method ToF64(v: nat, ty: ClTy) returns (r: nat)
      requires Open()
      modifies this
      ensures var wide := EnsureF64(old(next), v, ty); Open() && Emitted(wide.code, wide.next) && r == wide.res
    {
      AppendNothing(State());
      match ty
      case F64 => r := v;
      case I64 => r := Ins(FcvtFromSint(v));
      case I8 =>
        AppendTwice(State(), [Let(next, UExtend(v))], next + 1, [Let(next + 1, FcvtFromUint(next))], next + 2);
        var wide := Ins(UExtend(v));
        r := Ins(FcvtFromUint(wide));
    }

    method FromAbi(raw: nat, ty: MirTy) returns (r: nat)
      requires Open()
      modifies this
      ensures var native := AbiToNative(old(next), raw, ty);
          Open() && Emitted(native.code, native.next) && r == native.res
    {
      AppendNothing(State());
      match ty
      case TFloat => r := Ins(BitsToFloat(raw));
      case TBoolean => r := Ins(IReduce(raw));
      case _ => r := raw;
    }

    method ToAbi(v: nat, vty: ClTy, ty: MirTy) returns (r: nat)
      requires Open()
      modifies this
      ensures var raw := NativeToAbi(old(next), v, vty, ty); Open() && Emitted(raw.code, raw.next) && r == raw.res
    {
      match ty
      case TFloat => r := Ins(FloatToBits(v));
      case TBoolean => r := Ins(UExtend(v));
      case _ => r := ToI64(v, vty);
    }

    method Box(f: Function, op: Operand) returns (r: nat)
      requires Open()
      modifies this
      ensures var box := BoxOperand(f, old(next), op); Open() && Emitted(box.code, box.next) && r == box.res
    {
      match op
      case Const(LStr(s)) => r := Ins(CallRt(BoxStr(s), []));
      case Const(LNothing) => r := Ins(CallRt(BoxNothing, []));
      case Const(lit) =>
        ghost var before := State();
        var v, _ := Load(f, op);
        var boxing := if lit.LInt? then BoxInt else if lit.LFloat? then BoxFloat else BoxBool;
        ghost var load := LoadLit(before.next, lit);
        AppendTwice(before, load.code, load.next, [Let(load.next, CallRt(boxing, [v]))], load.next + 1);
        r := Ins(CallRt(boxing, [v]));
      case Local(l) =>
        ghost var before := State();
        var v, _ := Load(f, op);
        var boxing := BoxingOp(LocalTy(f, l), v);
        if boxing == None {
          return v;
        }
        ghost var load := LoadOperand(f, before.next, op);
        AppendTwice(before, load.code, load.next, [Let(load.next, boxing.value)], load.next + 1);
        r := Ins(boxing.value);
    }

    // ----- operators -----

    /** Two conversions, one after the other. */
    method BothI64(lv: nat, lty: ClTy, rv: nat, rty: ClTy) returns (a: nat, b: nat)
      requires Open()
      modifies this
      ensures var first := EnsureI64(old(next), lv, lty);
              var pair := JitEmit.Both(first, EnsureI64(first.next, rv, rty));
              Open() && Emitted(pair.code, pair.next) && a == pair.a && b == pair.b
    {
      ghost var before := State();
      a := ToI64(lv, lty);
      ghost var first := EnsureI64(before.next, lv, lty);
      ghost var second := EnsureI64(first.next, rv, rty);
      AppendTwice(before, first.code, first.next, second.code, second.next);
      b := ToI64(rv, rty);
    }

    method BothF64(lv: nat, lty: ClTy, rv: nat, rty: ClTy) returns (a: nat, b: nat)
      requires Open()
      modifies this
      ensures var first := EnsureF64(old(next), lv, lty);
              var pair := JitEmit.Both(first, EnsureF64(first.next, rv, rty));
              Open() && Emitted(pair.code, pair.next) && a == pair.a && b == pair.b
    {
      ghost var before := State();
      a := ToF64(lv, lty);
      ghost var first := EnsureF64(before.next, lv, lty);
      ghost var second := EnsureF64(first.next, rv, rty);
      AppendTwice(before, first.code, first.next, second.code, second.next);
      b := ToF64(rv, rty);
    }

    /** Both operands converted to the destination's type, where it is numeric. */
    method Coerce(lv: nat, lty: ClTy, rv: nat, rty: ClTy, destTy: MirTy) returns (a: nat, b: nat)
      requires Open()
      modifies this
      ensures var first := CoerceToDest(old(next), lv, lty, destTy);
              var pair := JitEmit.Both(first, CoerceToDest(first.next, rv, rty, destTy));
              Open() && Emitted(pair.code, pair.next) && a == pair.a && b == pair.b
    {
      if destTy == TFloat {
        a, b := BothF64(lv, lty, rv, rty);
      } else if destTy == TInteger {
        a, b := BothI64(lv, lty, rv, rty);
      } else {
        AppendNothing(State());
        ghost var nothing: seq<Inst> := [];
        assert nothing + nothing == nothing;
        a, b := lv, rv;
      }
    }

    method Compare(c: Cmp, lv: nat, lty: ClTy, rv: nat, rty: ClTy) returns (r: nat)
      requires Open()
      modifies this
      ensures var cmp := EmitCompare(old(next), c, lv, lty, rv, rty);
              Open() && Emitted(cmp.code, cmp.next) && r == cmp.res
    {
      ghost var before := State();
      var a, b;
      if lty == F64 || rty == F64 {
        a, b := BothF64(lv, lty, rv, rty);
        ghost var first := EnsureF64(before.next, lv, lty);
        ghost var pair := JitEmit.Both(first, EnsureF64(first.next, rv, rty));
        AppendTwice(before, pair.code, pair.next, [Let(pair.next, Fcmp(c, a, b))], pair.next + 1);
        r := Ins(Fcmp(c, a, b));
      } else {
        a, b := BothI64(lv, lty, rv, rty);
        ghost var first := EnsureI64(before.next, lv, lty);
        ghost var pair := JitEmit.Both(first, EnsureI64(first.next, rv, rty));
        AppendTwice(before, pair.code, pair.next, [Let(pair.next, Icmp(c, a, b))], pair.next + 1);
        r := Ins(Icmp(c, a, b));
      }
    }

    method Logic(op: BinOp, lv: nat, lty: ClTy, rv: nat, rty: ClTy) returns (r: nat)
      requires Open()
      modifies this
      ensures var logic := EmitLogic(old(next), op, lv, lty, rv, rty);
              Open() && Emitted(logic.code, logic.next) && r == logic.res
    {
      ghost var before := State();
      var a, b := BothI64(lv, lty, rv, rty);
      ghost var first := EnsureI64(before.next, lv, lty);
      ghost var pair := JitEmit.Both(first, EnsureI64(first.next, rv, rty));
      var opcode := if op == And then Band(a, b) else Bor(a, b);
      AppendTwice(before, pair.code, pair.next, [Let(pair.next, opcode)], pair.next + 1);
      var wide := Ins(opcode);
      AppendTwice(before, pair.code + [Let(pair.next, opcode)], pair.next + 1, [Let(pair.next + 1, IReduce(wide))],
          pair.next + 2);
      r := Ins(IReduce(wide));
    }

    /** None gives the whole function up. */
    method Binop(op: BinOp, lv: nat, lty: ClTy, rv: nat, rty: ClTy, destTy: MirTy) returns (r: Option<nat>)
      requires Open()
      modifies this
      ensures var frag := EmitBinop(old(next), op, lv, lty, rv, rty, destTy);
              (r.Some? <==> frag.Some?)
              && (r.Some? ==> Open() && Emitted(frag.value.code, frag.value.next) && r.value == frag.value.res)
    {
      ghost var before := State();
      var a, b := Coerce(lv, lty, rv, rty, destTy);
      ghost var first := CoerceToDest(before.next, lv, lty, destTy);
      ghost var pair := JitEmit.Both(first, CoerceToDest(first.next, rv, rty, destTy));
      var opcode: Option<Op> :=
        if destTy == TInteger && IntegerRuntime(op).Some? then Some(CallRt(IntegerRuntime(op).value, [a, b]))
        else if destTy == TFloat && FloatInstruction(op).Some? then Some(FArith(FloatInstruction(op).value, a, b))
        else if destTy == TFloat && op == Div then Some(CallRt(FloatDiv, [a, b]))
        else if !IsComparison(op) && op == BitXor && lty == I64 && rty == I64 then Some(Bxor(lv, rv))
        else None;
      if opcode.Some? {
        AppendTwice(before, pair.code, pair.next, [Let(pair.next, opcode.value)], pair.next + 1);
        var v := Ins(opcode.value);
        return Some(v);
      }
      if IsComparison(op) {
        ghost var cmp := EmitCompare(pair.next, CmpOf(op), lv, lty, rv, rty);
        AppendTwice(before, pair.code, pair.next, cmp.code, cmp.next);
        var v := Compare(CmpOf(op), lv, lty, rv, rty);
        return Some(v);
      }
      if op in {And, Or} {
        ghost var logic := EmitLogic(pair.next, op, lv, lty, rv, rty);
        AppendTwice(before, pair.code, pair.next, logic.code, logic.next);
        var v := Logic(op, lv, lty, rv, rty);
        return Some(v);
      }
      r := None;
    }

    method Unop(op: UnOp, v: nat, vty: ClTy) returns (r: Option<nat>)
      requires Open()
      modifies this
      ensures var frag := EmitUnop(old(next), op, v, vty);
              (r.Some? <==> frag.Some?)
              && (r.Some? ==> Open() && Emitted(frag.value.code, frag.value.next) && r.value == frag.value.res)
    {
      match op
      case Pos => r := None;
      case Neg =>
        var id := Ins(if vty == F64 then FNeg(v) else CallRt(IntNeg, [v]));
        r := Some(id);
      case Not =>
        ghost var before := State();
        var wide := ToI64(v, vty);
        ghost var w := EnsureI64(before.next, v, vty);
        AppendTwice(before, w.code, w.next, [Let(w.next, Iconst(I64, 0))], w.next + 1);
        var zero := Ins(Iconst(I64, 0));
        AppendTwice(before, w.code + [Let(w.next, Iconst(I64, 0))], w.next + 1,
            [Let(w.next + 1, Icmp(CEq, wide, zero))], w.next + 2);
        var id := Ins(Icmp(CEq, wide, zero));
        r := Some(id);
    }

    // ----- right-hand sides -----

    method BinaryRhs(f: Function, op: BinOp, lhs: Operand, rhs: Operand, destTy: MirTy) returns (r: Option<nat>)
      requires Open()
      modifies this
      ensures var frag := EmitBinary(f, old(next), op, lhs, rhs, destTy);
              (r.Some? <==> frag.Some?)
              && (r.Some? ==> Open() && Emitted(frag.value.code, frag.value.next) && r.value == frag.value.res)
    {
      hide EmitBinop;
      var left, right := ScalarKind(f, lhs), ScalarKind(f, rhs);
      if left == None || right == None || !ValidKinds(op, left.value, right.value) {
        return None;
      }
      ghost var before := State();
      var lv, lty := Load(f, lhs);
      ghost var l := LoadOperand(f, before.next, lhs);
      ghost var second := LoadOperand(f, l.next, rhs);
      AppendTwice(before, l.code, l.next, second.code, second.next);
      var rv, rty := Load(f, rhs);
      r := Binop(op, lv, lty, rv, rty, destTy);
      ghost var tail := EmitBinop(second.next, op, lv, lty, rv, rty, destTy);
      if r.Some? {
        AppendTwice(before, l.code + second.code, second.next, tail.value.code, tail.value.next);
      }
    }

    method UnaryRhs(f: Function, op: UnOp, x: Operand) returns (r: Option<nat>)
      requires Open()
      modifies this
      ensures var frag := EmitUnary(f, old(next), op, x);
              (r.Some? <==> frag.Some?)
              && (r.Some? ==> Open() && Emitted(frag.value.code, frag.value.next) && r.value == frag.value.res)
    {
      hide EmitUnop, BoxOperand;
      ghost var before := State();
      var ty := JitOperandType(f, x);
      if op == Not && ty.Some? && !IsScalar(ty.value) {
        var boxed := Box(f, x);
        ghost var box := BoxOperand(f, before.next, x);
        AppendTwice(before, box.code, box.next, [Let(box.next, CallRt(NotBool, [boxed]))], box.next + 1);
        var v := Ins(CallRt(NotBool, [boxed]));
        return Some(v);
      }
      var kind := ScalarKind(f, x);
      if kind == None || (op == Not) != (kind.value == KBoolean) {
        return None;
      }
      var v, vty := Load(f, x);
      r := Unop(op, v, vty);
      ghost var load := LoadOperand(f, before.next, x);
      ghost var tail := EmitUnop(load.next, op, v, vty);
      if r.Some? {
        AppendTwice(before, load.code, load.next, tail.value.code, tail.value.next);
      }
    }

    method Rhs(f: Function, rhs: Rvalue, destTy: MirTy) returns (r: Option<nat>)
      requires Open()
      modifies this
      ensures var frag := EmitRvalue(f, old(next), rhs, destTy);
              (r.Some? <==> frag.Some?)
              && (r.Some? ==> Open() && Emitted(frag.value.code, frag.value.next) && r.value == frag.value.res)
    {
      hide EmitBinary, EmitUnary;
      match rhs
      case Literal(lit) =>
        var v, ty;
        if IsScalar(destTy) {
          v, ty := Load(f, Const(lit));
        } else {
          v := Box(f, Const(lit));
        }
        r := Some(v);
      case Use(op) =>
        var v, ty;
        if IsScalar(destTy) {
          v, ty := Load(f, op);
        } else {
          v := Box(f, op);
        }
        r := Some(v);
      case Binary(op, lhs, rhs) => r := BinaryRhs(f, op, lhs, rhs, destTy);
      case Unary(op, x) => r := UnaryRhs(f, op, x);
    }

    // ----- operand lists -----

    method RawOperand(f: Function, op: Operand, ty: MirTy) returns (r: nat)
      requires Open()
      modifies this
      ensures var load := LoadOperand(f, old(next), op);
              var raw := NativeToAbi(load.next, load.res, load.ty, ty);
              Open() && Emitted(load.code + raw.code, raw.next) && r == raw.res
    {
      ghost var before := State();
      var v, vty := Load(f, op);
      ghost var load := LoadOperand(f, before.next, op);
      ghost var raw := NativeToAbi(load.next, load.res, load.ty, ty);
      AppendTwice(before, load.code, load.next, raw.code, raw.next);
      r := ToAbi(v, vty, ty);
    }

    method RawArgs(f: Function, args: seq<Operand>) returns (ids: seq<nat>)
      requires Open()
      modifies this
      ensures var raws := EmitArgs(f, old(next), args); Open() && Emitted(raws.code, raws.next) && ids == raws.ids
    {
      hide LoadOperand, NativeToAbi;
      ghost var before := State();
      ids := [];
      AppendNothing(before);
      for i := 0 to |args|
        invariant Open()
        invariant var raws := EmitArgs(f, before.next, args[..i]);
                  State() == Append(before, raws.code, raws.next) && ids == raws.ids
      {
        assert args[..i + 1][..i] == args[..i];
        ghost var raws := EmitArgs(f, before.next, args[..i]);
        ghost var last := OperandToAbi(f, raws.next, args[i]);
        AppendTwice(before, raws.code, raws.next, last.code, last.next);
        var id := RawOperand(f, args[i], AbiOperandTy(f, args[i]));
        ids := ids + [id];
      }
      assert args[..|args|] == args;
    }

    method CoercedPhi(v: nat, ty: ClTy, expected: ClTy) returns (r: nat)
      requires Open()
      modifies this
      ensures var arg := CoercePhi(old(next), v, ty, expected); Open() && Emitted(arg.code, arg.next) && r == arg.res
    {
      AppendNothing(State());
      match (ty, expected)
      case (I8, F64) => r := ToF64(v, ty);
      case (I64, F64) => r := ToF64(v, ty);
      case (F64, I64) => r := Ins(FloatToBits(v));
      case (I8, I64) => r := Ins(UExtend(v));
      case (I64, I8) => r := Ins(IReduce(v));
      case _ => r := v;
    }

    method PhiArgs(f: Function, src: nat, phis: seq<Phi>) returns (ids: seq<nat>)
      requires Open()
      modifies this
      ensures var args := CollectPhiArgs(f, old(next), src, phis);
          Open() && Emitted(args.code, args.next) && ids == args.ids
    {
      hide LoadOperand, CoercePhi, LocalTy;
      ghost var before := State();
      ids := [];
      AppendNothing(before);
      for i := 0 to |phis|
        invariant Open()
        invariant var args := CollectPhiArgs(f, before.next, src, phis[..i]);
                  State() == Append(before, args.code, args.next) && ids == args.ids
      {
        assert phis[..i + 1][..i] == phis[..i];
        ghost var args := CollectPhiArgs(f, before.next, src, phis[..i]);
        var op := Incoming(phis[i].incoming, src);
        if op.Some? {
          ghost var load := LoadOperand(f, args.next, op.value);
          AppendTwice(before, args.code, args.next, load.code, load.next);
          var v, ty := Load(f, op.value);
          ghost var arg := CoercePhi(load.next, v, ty, ClTyOf(LocalTy(f, phis[i].result)));
          AppendTwice(before, args.code + load.code, load.next, arg.code, arg.next);
          var id := CoercedPhi(v, ty, ClTyOf(LocalTy(f, phis[i].result)));
          ids := ids + [id];
        }
      }
      assert phis[..|phis|] == phis;
    }

    // ----- instructions -----

    /** Returns 0 at once if an exception is pending, else continues in a new block. */
    method CheckException()
      requires Open()
      modifies this
      ensures Open() && State() == ExceptionCheck(old(State()))
    {
      ghost var before := State();
      var flag := Ins(CallRt(HasException, []));
      var failure := |blocks|;
      var success := failure + 1;
      End(Brif(flag, failure, [], success, []));
      ghost var tested := State();
      var _ := CreateBlock();
      var _ := CreateBlock();
      cur := failure;
      var zero := Ins(Iconst(I64, 0));
      End(Ret(zero));
      cur := success;
      assert blocks == ExceptionCheck(before).blocks by {
        assert [] + [Let(zero, Iconst(I64, 0))] == [Let(zero, Iconst(I64, 0))];
      }
    }

    method Define(dest: Option<nat>, v: nat)
      requires Open()
      modifies this
      ensures Open() && Emitted(if dest.Some? then [DefVar(dest.value, v)] else [], old(next))
    {
      AppendNothing(State());
      if dest.Some? {
        Write(DefVar(dest.value, v));
      }
    }

    method CallInstr(f: Function, dest: Option<nat>, callee: nat, args: seq<Operand>)
      requires Open()
      modifies this
      ensures Open()
      ensures var (before, call, after) := EmitCall(f, old(next), callee, args, DestTy(f, dest));
              State() == ExceptionCheck(DefResult(Append(old(State()), before + [call], call.dst + 1), after, dest))
    {
      hide EmitArgs, AbiToNative, DestTy;
      ghost var start := State();
      ghost var (before, call, after) := EmitCall(f, start.next, callee, args, DestTy(f, dest));
      var ids := RawArgs(f, args);
      AppendTwice(start, before, EmitArgs(f, start.next, args).next, [call], call.dst + 1);
      var raw := Ins(CallFn(callee, ids));
      ghost var atCall := State();
      var v := FromAbi(raw, DestTy(f, dest));
      AppendTwice(atCall, after.code, after.next, if dest.Some? then [DefVar(dest.value, v)] else [], after.next);
      Define(dest, v);
      CheckException();
    }

    /** None gives the whole function up. */
    method Instruction(p: Program, f: Function, instr: Instr) returns (ok: bool)
      requires Open()
      modifies this
      ensures var r := EmitInstr(p, f, old(State()), instr);
              (ok <==> r.Some?) && (ok ==> Open() && State() == r.value)
    {
      hide EmitRvalue, EmitCall;
      ghost var before := State();
      ok := true;
      match instr
      case Assign(dest, rhs) =>
        var v := Rhs(f, rhs, LocalTy(f, dest));
        if v == None {
          return false;
        }
        ghost var frag := EmitRvalue(f, before.next, rhs, LocalTy(f, dest)).value;
        AppendTwice(before, frag.code, frag.next, [DefVar(dest, v.value)], frag.next);
        Define(Some(dest), v.value);
        if MayFail(rhs) {
          CheckException();
        }
      case Call(dest, callee, args) =>
        CallInstr(f, dest, callee, args);
      case LoadGlobal(dest, g) =>
        var raw := Ins(LoadGlobalRaw(g));
        ghost var native := AbiToNative(before.next + 1, before.next, LocalTy(f, dest));
        AppendTwice(before, [Let(before.next, LoadGlobalRaw(g))], before.next + 1, native.code, native.next);
        var v := FromAbi(raw, LocalTy(f, dest));
        AppendTwice(before, [Let(before.next, LoadGlobalRaw(g))] + native.code, native.next, [DefVar(dest, v)],
            native.next);
        Define(Some(dest), v);
      case StoreGlobal(g, op) =>
        var raw := RawOperand(f, op, GlobalTy(p, g));
        ghost var load := LoadOperand(f, before.next, op);
        ghost var conv := NativeToAbi(load.next, load.res, load.ty, GlobalTy(p, g));
        AppendTwice(before, load.code + conv.code, conv.next, [StoreGlobalRaw(g, raw)], conv.next);
        Write(StoreGlobalRaw(g, raw));
      case CertainCheck(_) =>
      case Nop =>
    }

    method Condition(f: Function, cond: Operand) returns (r: nat)
      requires Open()
      modifies this
      ensures var flag := CondFlag(f, old(next), cond); Open() && Emitted(flag.code, flag.next) && r == flag.res
    {
      hide BoxOperand;
      ghost var before := State();
      var ty := JitOperandType(f, cond);
      if ty == Some(TFloat) {
        ghost var load := LoadOperand(f, before.next, cond);
        var v, _ := Load(f, cond);
        AppendTwice(before, load.code, load.next, [Let(load.next, F64const(FLOAT_ZERO))], load.next + 1);
        var zero := Ins(F64const(FLOAT_ZERO));
        AppendTwice(before, load.code + [Let(load.next, F64const(FLOAT_ZERO))], load.next + 1,
                    [Let(load.next + 1, Fcmp(CNe, v, zero))], load.next + 2);
        r := Ins(Fcmp(CNe, v, zero));
      } else if ty.Some? && IsScalar(ty.value) {
        var v, _ := Load(f, cond);
        r := v;
      } else {
        ghost var box := BoxOperand(f, before.next, cond);
        var boxed := Box(f, cond);
        AppendTwice(before, box.code, box.next, [Let(box.next, CallRt(IsTruthy, [boxed]))], box.next + 1);
        r := Ins(CallRt(IsTruthy, [boxed]));
      }
    }

    method Finish(f: Function, bi: nat, term: Terminator) returns (ok: bool)
      requires Open()
      modifies this
      ensures var r := EmitTerm(f, old(State()), bi, term); (ok <==> r.Some?) && (ok ==> State() == r.value)
    {
      hide CollectPhiArgs, CondFlag;
      ghost var before := State();
      ok := true;
      match term
      case Return(None) =>
        var zero := Ins(Iconst(I64, 0));
        End(Ret(zero));
      case Return(Some(op)) =>
        var raw := RawOperand(f, op, f.returnTy);
        End(Ret(raw));
      case Goto(target) =>
        var ids := PhiArgs(f, bi, PhisOf(f, target));
        End(Jump(target, ids));
      case Branch(cond, thenBb, elseBb) =>
        var flag := Condition(f, cond);
        ghost var test := CondFlag(f, before.next, cond);
        ghost var first := CollectPhiArgs(f, test.next, bi, PhisOf(f, thenBb));
        ghost var second := CollectPhiArgs(f, first.next, bi, PhisOf(f, elseBb));
        AppendTwice(before, test.code, test.next, first.code, first.next);
        var thenIds := PhiArgs(f, bi, PhisOf(f, thenBb));
        AppendTwice(before, test.code + first.code, first.next, second.code, second.next);
        var elseIds := PhiArgs(f, bi, PhisOf(f, elseBb));
        End(Brif(flag, thenBb, thenIds, elseBb, elseIds));
      case Throw(_) =>
        ok := false;
    }

    // ----- blocks -----

    method BindArguments(f: Function)
      requires Open()
      modifies this
      ensures var bind := BindArgs(f.params, old(next)); Open() && Emitted(bind.code, bind.next)
    {
      hide AbiToNative, AbiTy;
      ghost var before := State();
      AppendNothing(before);
      for k := 0 to |f.params|
        invariant Open()
        invariant var bind := BindArgs(f.params[..k], before.next); State() == Append(before, bind.code, bind.next)
      {
        assert f.params[..k + 1][..k] == f.params[..k];
        ghost var bind := BindArgs(f.params[..k], before.next);
        ghost var native := AbiToNative(bind.next, k, AbiTy(f.params[k]));
        AppendTwice(before, bind.code, bind.next, native.code, native.next);
        var v := FromAbi(k, AbiTy(f.params[k]));
        AppendTwice(before, bind.code + native.code, native.next, [DefVar(f.params[k].local, v)], native.next);
        Write(DefVar(f.params[k].local, v));
      }
      assert f.params[..|f.params|] == f.params;
    }

    method BindPhis(phis: seq<Phi>, params: seq<(nat, ClTy)>)
      requires Open() && |phis| == |params|
      modifies this
      ensures Open() && Emitted(DefPhis(phis, params), old(next))
    {
      ghost var before := State();
      AppendNothing(before);
      assert DefPhis(phis[..0], params[..0]) == [];
      for i := 0 to |phis|
        invariant Open()
        invariant State() == Append(before, DefPhis(phis[..i], params[..i]), before.next)
      {
        AppendTwice(before, DefPhis(phis[..i], params[..i]), before.next, [DefVar(phis[i].result, params[i].0)],
            before.next);
        assert DefPhis(phis[..i + 1], params[..i + 1])
            == DefPhis(phis[..i], params[..i]) + [DefVar(phis[i].result, params[i].0)];
        Write(DefVar(phis[i].result, params[i].0));
      }
      assert phis[..|phis|] == phis && params[..|phis|] == params;
    }

    method Instructions(p: Program, f: Function, instrs: seq<Instr>) returns (ok: bool)
      requires Open()
      modifies this
      ensures var r := EmitInstrs(p, f, old(State()), instrs);
          (ok <==> r.Some?) && (ok ==> Open() && State() == r.value)
    {
      hide EmitInstr;
      assert instrs[0..] == instrs;
      for i := 0 to |instrs|
        invariant Open() && EmitInstrs(p, f, State(), instrs[i..]) == EmitInstrs(p, f, old(State()), instrs)
      {
        assert instrs[i..][0] == instrs[i] && instrs[i..][1..] == instrs[i + 1..];
        ghost var before := State();
        var done := Instruction(p, f, instrs[i]);
        if !done {
          assert EmitInstrs(p, f, before, instrs[i..]) == None;
          return false;
        }
      }
      ok := true;
    }

    method Block(p: Program, f: Function, bi: nat) returns (ok: bool)
      requires bi < |f.blocks| && Pending(f, State(), bi)
      modifies this
      ensures var r := EmitBlock(p, f, old(State()), bi); (ok <==> r.Some?) && (ok ==> State() == r.value)
    {
      hide EmitInstrs, EmitTerm;
      cur := bi;
      if bi == 0 {
        BindArguments(f);
      } else {
        BindPhis(f.blocks[bi].phis, blocks[bi].params);
      }
      assert State() == StartBlock(f, old(State()), bi);
      ok := Instructions(p, f, f.blocks[bi].instrs);
      if ok {
        ok := Finish(f, bi, f.blocks[bi].term);
      }
    }
  }

  // ----- the whole function -----

  /** The raw ABI neither boxes nor converts: every phi operand, return value, call argument and stored
      global must already have the type it is read at. */
  method CheckEligible(p: Program, f: Function) returns (ok: bool)
    ensures ok <==> Eligible(p, f)
  {
    hide JitOperandType, AbiTy;
    for b := 0 to |f.blocks|
      invariant forall i :: 0 <= i < b ==> BlockEligible(p, f, f.blocks[i])
    {
      var block := f.blocks[b];
      for i := 0 to |block.phis|
        invariant forall k :: 0 <= k < i ==> PhiEligible(f, block.phis[k])
      {
        if exists k :: 0 <= k < |block.phis[i].incoming| &&
            JitOperandType(f, block.phis[i].incoming[k].1) != Some(LocalTy(f, block.phis[i].result)) {
          assert !PhiEligible(f, block.phis[i]);
          assert !BlockEligible(p, f, f.blocks[b]);
          return false;
        }
      }
      if block.term.Return? && block.term.value.Some? && JitOperandType(f, block.term.value.value) != Some(f.returnTy) {
        assert !BlockEligible(p, f, f.blocks[b]);
        return false;
      }
      for i := 0 to |block.instrs|
        invariant forall k :: 0 <= k < i ==> InstrEligible(p, f, block.instrs[k])
      {
        if !InstrEligible(p, f, block.instrs[i]) {
          assert !BlockEligible(p, f, f.blocks[b]);
          return false;
        }
      }
    }
    ok := true;
  }

  /** `try_compile_native`, with fallback as None. */
  method CompileFunction(p: Program, f: Function) returns (r: Option<TFunc>)
    ensures r == Compile(p, f)
  {
    hide EmitBlock, Heads, Eligible;
    var eligible := CheckEligible(p, f);
    if !eligible {
      return None;
    }
    var builder := new FunctionBuilder(f);
    for bi := 0 to |f.blocks|
      invariant Pending(f, builder.State(), bi)
      invariant EmitBlocks(p, f, builder.State(), bi) == EmitBlocks(p, f, InitialBuilder(f), 0)
    {
      ghost var before := builder.State();
      var done := builder.Block(p, f, bi);
      if !done {
        assert EmitBlocks(p, f, before, bi) == None;
        return None;
      }
      BlockKeepsPending(p, f, before, bi);
    }
    r := Some(TFunc(seq(|f.types|, i requires 0 <= i < |f.types| => ClTyOf(f.types[i])), |f.blocks|, builder.blocks));
  }
}
