// What each emitted fragment computes: loads, conversions, boxing and operators.

module Fragments {
  import opened Arithmetic
  import opened Options
  import opened Mir
  import opened AbiScope
  import opened Clif
  import opened JitEmit
  import opened Typing

  // ----- how machine values stand for Fidan values -----

  /** A scalar is its number; anything else is a live box, except that a local of type nothing may
      also be the null word. */
  ghost predicate Represents(heap: map<nat, Value>, mv: MVal, v: Value, ty: MirTy) {
    match ty
    case TInteger => v.VInt? && mv == M64(Num(v.n))
    case TFloat => v.VFloat? && mv == MF(v.bits)
    case TBoolean => v.VBool? && mv == M8(if v.b then 1 else 0)
    case THandle => v.VHandle? && mv == M64(Num(v.h))
    case TNothing => v.VNothing? && (mv == M64(Num(0)) || LiveBox(heap, mv, v))
    case _ => LiveBox(heap, mv, v)
  }

  ghost predicate LiveBox(heap: map<nat, Value>, mv: MVal, v: Value) {
    mv.M64? && mv.w.Ptr? && mv.w.a in heap && heap[mv.w.a] == v
  }

  ghost predicate VarsRel(f: Function, defined: set<nat>, frame: Frame, vars: map<nat, MVal>, heap: map<nat, Value>) {
    && |frame| == |f.types|
    && forall l :: l in defined ==> l < |f.types| && l in vars && Represents(heap, vars[l], frame[l], f.types[l])
  }

  ghost predicate HeapGrows(h1: map<nat, Value>, h2: map<nat, Value>) {
    forall a :: a in h1 ==> a in h2 && h2[a] == h1[a]
  }

  /** Boxes are only added while a scope is open. */
  ghost predicate ScopeGrows(s1: Scope, s2: Scope) {
    && Ok(s1) && Ok(s2) && s2.depth == s1.depth && s2.context == s1.context && s1.depth > 0
    && HeapGrows(s1.heap, s2.heap)
  }

  lemma RepresentsLater(h1: map<nat, Value>, h2: map<nat, Value>, mv: MVal, v: Value, ty: MirTy)
    requires HeapGrows(h1, h2) && Represents(h1, mv, v, ty)
    ensures Represents(h2, mv, v, ty)
  {
  }

  lemma VarsLater(f: Function, defined: set<nat>, frame: Frame, vars: map<nat, MVal>, h1: map<nat, Value>,
      h2: map<nat, Value>)
    requires HeapGrows(h1, h2) && VarsRel(f, defined, frame, vars, h1)
    ensures VarsRel(f, defined, frame, vars, h2)
  {
    forall l | l in defined
      ensures Represents(h2, vars[l], frame[l], f.types[l])
    {
      RepresentsLater(h1, h2, vars[l], frame[l], f.types[l]);
    }
  }

  lemma VarsFrameOk(f: Function, defined: set<nat>, frame: Frame, vars: map<nat, MVal>, heap: map<nat, Value>)
    requires VarsRel(f, defined, frame, vars, heap)
    ensures FrameOk(f, defined, frame)
  {
  }

  lemma RepresentsType(heap: map<nat, Value>, mv: MVal, v: Value, ty: MirTy)
    requires Represents(heap, mv, v, ty)
    ensures TypeOf(mv) == ClTyOf(ty) && HasTy(v, ty)
  {
  }

  // ----- what a variable may hold at any time -----

  /** Defined or not, a variable has its Cranelift type; a Boolean is 0 or 1, a number no pointer, and a
      boxed local 0 or a live box. */
  ghost predicate Safe(heap: map<nat, Value>, mv: MVal, ty: MirTy) {
    && TypeOf(mv) == ClTyOf(ty)
    && match ty
       case TInteger | THandle => mv.w.Num?
       case TFloat => true
       case TBoolean => mv == M8(0) || mv == M8(1)
       case _ => mv.w == Num(0) || (mv.w.Ptr? && mv.w.a in heap)
  }

  /** A scope is open, and every variable is safe in it. */
  ghost predicate VarsSafe(tys: seq<MirTy>, vars: map<nat, MVal>, s: Scope) {
    s.depth > 0 && forall x :: 0 <= x < |tys| ==> x in vars && Safe(s.heap, vars[x], tys[x])
  }

  lemma RepresentsSafe(heap: map<nat, Value>, mv: MVal, v: Value, ty: MirTy)
    requires Represents(heap, mv, v, ty)
    ensures Safe(heap, mv, ty)
  {
  }

  lemma ZeroSafe(heap: map<nat, Value>, ty: MirTy)
    ensures Safe(heap, ZeroOf(ClTyOf(ty)), ty)
  {
  }

  lemma VarsSafeLater(tys: seq<MirTy>, vars: map<nat, MVal>, s1: Scope, s2: Scope)
    requires HeapGrows(s1.heap, s2.heap) && s2.depth == s1.depth && VarsSafe(tys, vars, s1)
    ensures VarsSafe(tys, vars, s2)
  {
    forall x | 0 <= x < |tys|
      ensures Safe(s2.heap, vars[x], tys[x])
    {
      assert Safe(s1.heap, vars[x], tys[x]);
    }
  }

  // ----- running a fragment -----

  /** Executing `code` from `r` ends in `r'`, touches no variable and no value numbered below `n`, and
      leaves `mv` in `res`. */
  ghost predicate Yields(p: Program, vt: seq<ClTy>, code: seq<Inst>, r: Regs, r': Regs, n: nat, res: nat, mv: MVal) {
    && ExecCode(p, vt, code, r) == Some(r')
    && r'.vars == r.vars
    && EnvKept(r, r', n)
    && res in r'.env && r'.env[res] == mv
  }

  ghost predicate EnvKept(r: Regs, r': Regs, n: nat) {
    forall k :: k in r.env && k < n ==> k in r'.env && r'.env[k] == r.env[k]
  }

  lemma YieldsOne(p: Program, vt: seq<ClTy>, n: nat, op: Op, r: Regs, mv: MVal, m: Machine)
    requires EvalOp(p, op, r) == Some((mv, m))
    ensures Yields(p, vt, [Let(n, op)], r, r.(env := r.env[n := mv], m := m), n, n, mv)
  {
    ExecOne(p, vt, Let(n, op), r);
  }

  lemma YieldsThen(p: Program, vt: seq<ClTy>, code: seq<Inst>, r: Regs, r1: Regs, n: nat, res: nat, mv1: MVal, k: nat,
      op: Op, mv: MVal, m: Machine)
    requires Yields(p, vt, code, r, r1, n, res, mv1) && k >= n
    requires EvalOp(p, op, r1) == Some((mv, m))
    ensures Yields(p, vt, code + [Let(k, op)], r, r1.(env := r1.env[k := mv], m := m), n, k, mv)
  {
    ExecConcat(p, vt, code, [Let(k, op)], r);
    ExecOne(p, vt, Let(k, op), r1);
  }

  lemma YieldsConcat(p: Program, vt: seq<ClTy>, c1: seq<Inst>, c2: seq<Inst>, r: Regs, r1: Regs, r2: Regs, n: nat,
      k: nat, a: nat, b: nat, mv1: MVal, mv2: MVal)
    requires Yields(p, vt, c1, r, r1, n, a, mv1) && Yields(p, vt, c2, r1, r2, k, b, mv2)
    requires a < k && n <= k
    ensures Yields(p, vt, c1 + c2, r, r2, n, b, mv2)
    ensures a in r2.env && r2.env[a] == mv1
  {
    ExecConcat(p, vt, c1, c2, r);
  }

  // ----- loads and conversions -----

  function LoadedValue(op: Operand, r: Regs): MVal
    requires op.Local? ==> op.l in r.vars
  {
    match op
    case Local(l) => r.vars[l]
    case Const(LInt(k)) => M64(Num(k))
    case Const(LFloat(bits)) => MF(bits)
    case Const(LBool(b)) => M8(if b then 1 else 0)
    case Const(_) => M64(Num(0))
  }

  lemma LoadRuns(p: Program, f: Function, vt: seq<ClTy>, n: nat, op: Operand, defined: set<nat>, frame: Frame, r: Regs)
    requires VarsRel(f, defined, frame, r.vars, r.m.scope.heap) && OpIn(f, defined, op)
    ensures var load := LoadOperand(f, n, op); var mv := LoadedValue(op, r);
            && load.next == n + 1 && load.res == n
            && Yields(p, vt, load.code, r, r.(env := r.env[n := mv]), n, n, mv)
            && (JitOperandType(f, op).Some? ==>
                  && TypeOf(mv) == load.ty
                  && JitOperandType(f, op).value == OperandTy(f, op)
                  && Represents(r.m.scope.heap, mv, EvalOperand(frame, op), OperandTy(f, op)))
  {
    YieldsOne(p, vt, n, LoadOperand(f, n, op).code[0].op, r, LoadedValue(op, r), r.m);
  }

  /** A raw word that reads as this value at this type; a Boolean one is exactly 0 or 1. */
  ghost predicate Reads(s: Scope, w: Word, ty: MirTy, v: Value) {
    Decode(s, w, ty) == Some(v) && (ty == TBoolean ==> w == Num(0) || w == Num(1))
  }

  /** A value at its own type becomes a raw word that decodes back to it. */
  lemma NativeToAbiRuns(p: Program, vt: seq<ClTy>, n: nat, v: nat, val: Value, ty: MirTy, r: Regs) returns (r': Regs)
    requires v in r.env && v < n && Represents(r.m.scope.heap, r.env[v], val, ty)
    ensures var raw := NativeToAbi(n, v, TypeOf(r.env[v]), ty);
            && v <= raw.res < raw.next && n <= raw.next && r'.m == r.m
            && raw.res in r'.env
            && Yields(p, vt, raw.code, r, r', n, raw.res, r'.env[raw.res])
            && r'.env[raw.res].M64?
            && Reads(r.m.scope, r'.env[raw.res].w, ty, val)
  {
    var raw := NativeToAbi(n, v, TypeOf(r.env[v]), ty);
    if raw.code == [] {
      r' := r;
    } else {
      var mv := EvalOp(p, raw.code[0].op, r).value.0;
      YieldsOne(p, vt, n, raw.code[0].op, r, mv, r.m);
      r' := r.(env := r.env[n := mv]);
    }
  }

  /** A raw word encoded at a type that fits the destination becomes the destination's value. */
  lemma AbiToNativeRuns(p: Program, vt: seq<ClTy>, n: nat, raw: nat, s0: Scope, val: Value, from: MirTy, ty: MirTy,
      r: Regs) returns (r': Regs)
    requires raw in r.env && raw < n && HasTy(val, from) && RawFits(from, ty)
    requires r.env[raw] == M64(Encode(s0, val, from).1)
    requires HeapGrows(Encode(s0, val, from).0.heap, r.m.scope.heap)
    ensures var native := AbiToNative(n, raw, ty);
            && raw <= native.res < native.next && n <= native.next && r'.m == r.m
            && native.res in r'.env
            && Yields(p, vt, native.code, r, r', n, native.res, r'.env[native.res])
            && Represents(r.m.scope.heap, r'.env[native.res], val, ty)
  {
    var native := AbiToNative(n, raw, ty);
    if native.code == [] {
      r' := r;
    } else {
      var mv := EvalOp(p, native.code[0].op, r).value.0;
      YieldsOne(p, vt, n, native.code[0].op, r, mv, r.m);
      r' := r.(env := r.env[n := mv]);
    }
  }

  // ----- boxing -----

  lemma BoxedLive(s: Scope, v: Value)
    requires Ok(s) && s.depth > 0
    ensures LiveBox(Register(s, v).heap, M64(Ptr(s.next)), v) && ScopeGrows(s, Register(s, v))
  {
    RegisterKeepsOk(s, v);
  }

  lemma BoxLoadedLitRuns(p: Program, vt: seq<ClTy>, n: nat, lit: Lit, r: Regs) returns (r': Regs)
    requires !lit.LStr? && !lit.LNothing?
    ensures var m := r.m.(scope := Register(r.m.scope, LitValue(lit)));
            Yields(p, vt, BoxLit(n, lit).code, r, r', n, n + 1, M64(Ptr(r.m.scope.next))) && r'.m == m
  {
    hide ExecCode, Register;
    var load := LoadLit(n, lit);
    var loaded := LoadedValue(Const(lit), r);
    var mv, m := M64(Ptr(r.m.scope.next)), r.m.(scope := Register(r.m.scope, LitValue(lit)));
    YieldsOne(p, vt, n, load.code[0].op, r, loaded, r.m);
    var r1 := r.(env := r.env[n := loaded]);
    YieldsThen(p, vt, load.code, r, r1, n, n, loaded, n + 1, BoxLit(n, lit).code[1].op, mv, m);
    r' := r1.(env := r1.env[n + 1 := mv], m := m);
  }

  lemma BoxLitRuns(p: Program, vt: seq<ClTy>, n: nat, lit: Lit, r: Regs) returns (r': Regs)
    requires Ok(r.m.scope) && r.m.scope.depth > 0
    ensures var box := BoxLit(n, lit);
            && n <= box.res < box.next && box.res in r'.env
            && Yields(p, vt, box.code, r, r', n, box.res, r'.env[box.res])
            && LiveBox(r'.m.scope.heap, r'.env[box.res], LitValue(lit))
            && r'.m == r.m.(scope := r'.m.scope) && ScopeGrows(r.m.scope, r'.m.scope)
  {
    hide ExecCode, Ok, Register, ScopeGrows, LiveBox;
    BoxedLive(r.m.scope, LitValue(lit));
    var m := r.m.(scope := Register(r.m.scope, LitValue(lit)));
    var mv := M64(Ptr(r.m.scope.next));
    if lit.LStr? || lit.LNothing? {
      YieldsOne(p, vt, n, BoxLit(n, lit).code[0].op, r, mv, m);
      r' := r.(env := r.env[n := mv], m := m);
    } else {
      r' := BoxLoadedLitRuns(p, vt, n, lit, r);
    }
  }

  lemma BoxingEvaluates(p: Program, ty: MirTy, v: nat, val: Value, r: Regs)
    requires v in r.env && Represents(r.m.scope.heap, r.env[v], val, ty) && !Boxed(ty)
    ensures BoxingOp(ty, v).Some?
    ensures EvalOp(p, BoxingOp(ty, v).value, r)
         == Some((M64(Ptr(r.m.scope.next)), r.m.(scope := Register(r.m.scope, val))))
  {
  }

  lemma BoxOperandRuns(p: Program, f: Function, vt: seq<ClTy>, n: nat, op: Operand, defined: set<nat>, frame: Frame,
      r: Regs) returns (r': Regs)
    requires Ok(r.m.scope) && r.m.scope.depth > 0
    requires VarsRel(f, defined, frame, r.vars, r.m.scope.heap) && OpIn(f, defined, op)
    ensures var box := BoxOperand(f, n, op);
            && n <= box.res < box.next && box.res in r'.env
            && Yields(p, vt, box.code, r, r', n, box.res, r'.env[box.res])
            && LiveBox(r'.m.scope.heap, r'.env[box.res], EvalOperand(frame, op))
            && r'.m == r.m.(scope := r'.m.scope) && ScopeGrows(r.m.scope, r'.m.scope)
  {
    hide ExecCode, Ok;
    match op
    case Const(lit) => r' := BoxLitRuns(p, vt, n, lit, r);
    case Local(l) =>
      var load := LoadOperand(f, n, op);
      LoadRuns(p, f, vt, n, op, defined, frame, r);
      var r1 := r.(env := r.env[n := LoadedValue(op, r)]);
      if !Boxed(f.types[l]) {
        var v := EvalOperand(frame, op);
        RegisterKeepsOk(r.m.scope, v);
        var m := r.m.(scope := Register(r.m.scope, v));
        var mv := M64(Ptr(r.m.scope.next));
        var boxing := BoxingOp(f.types[l], n).value;
        BoxingEvaluates(p, f.types[l], n, v, r1);
        YieldsThen(p, vt, load.code, r, r1, n, n, LoadedValue(op, r), n + 1, boxing, mv, m);
        r' := r1.(env := r1.env[n + 1 := mv], m := m);
      } else {
        r' := r1;
      }
  }
}
