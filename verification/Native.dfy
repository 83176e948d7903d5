// One emitted MIR instruction, block edge or terminator against the interpreter's step.

module NativeSteps {
  import opened Arithmetic
  import opened Options
  import opened Mir
  import opened AbiScope
  import opened Clif
  import opened JitEmit
  import opened Typing
  import opened Tiers
  import opened Fragments
  import opened Rvalues
  import opened Points
  import opened States
  import opened SafeRuns

  /** The stored globals have their declared types and no exception is pending. */
  ghost predicate Quiet(p: Program, m: Machine) {
    && GlobalsTyped(p, m.globals)
    && m.exc == None && m.sig == None && Ok(m.scope)
  }

  ghost predicate GlobalsTyped(p: Program, globals: seq<Value>) {
    && |globals| == |p.globals|
    && forall g :: 0 <= g < |globals| ==> HasTy(globals[g], p.globals[g])
  }

  /** How a failed activation leaves the exception slot. */
  ghost predicate Failing(m: Machine, signal: Signal) {
    || (m.exc == Some(Marker) && m.sig == Some(signal))
    || (signal.Error? && m.exc == Some(Coded(signal.code)) && m.sig == None)
  }

  /** Machine and interpreter are in step in the middle of an activation. */
  ghost predicate InStep(p: Program, f: Function, defined: set<nat>, frame: Frame, r: Regs) {
    && Quiet(p, r.m) && r.m.scope.depth > 0
    && VarsRel(f, defined, frame, r.vars, r.m.scope.heap)
    && VarsSafe(f.types, r.vars, r.m.scope) && CertainKept(f, frame)
  }

  /** The local of a certain parameter is not nothing. */
  ghost predicate CertainKept(f: Function, frame: Frame) {
    forall l :: 0 <= l < |frame| && CertainLocal(f, l) ==> !frame[l].VNothing?
  }

  lemma CertainStore(f: Function, frame: Frame, dest: nat, v: Value)
    requires CertainKept(f, frame) && !CertainLocal(f, dest)
    ensures CertainKept(f, Store(frame, dest, v))
  {
  }

  lemma SafeDefine(tys: seq<MirTy>, vars: map<nat, MVal>, s: Scope, x: nat, mv: MVal)
    requires VarsSafe(tys, vars, s) && x < |tys| && Safe(s.heap, mv, tys[x])
    ensures VarsSafe(tys, vars[x := mv], s)
  {
  }

  function VarTypes(f: Function): seq<ClTy> {
    seq(|f.types|, i requires 0 <= i < |f.types| => ClTyOf(f.types[i]))
  }

  /** The code is what the builder had, plus what came later. */
  ghost predicate Within(f: Function, b: Builder, code: TFunc) {
    && CurOpen(b) && |f.blocks| <= |b.blocks|
    && Grows(b.blocks, code.blocks) && code.heads == |f.blocks| && code.varTypes == VarTypes(f)
  }

  /** From one builder point execution goes on at another, and every state on the way is safe. */
  ghost predicate Continues(c: Config, depth: nat, fuel: nat, f: Function, code: TFunc, b: Builder, r: Regs,
      b1: Builder, r1: Regs)
    requires CurOpen(b) && CurOpen(b1)
  {
    && At(c, depth, fuel, code, b, r) == At(c, depth, fuel, code, b1, r1)
    && (SafeAt(c, depth, fuel, f, code, b1, r1) ==> SafeAt(c, depth, fuel, f, code, b, r))
  }

  lemma AppendedContinues(c: Config, depth: nat, fuel: nat, f: Function, code: TFunc, b: Builder, insts: seq<Inst>,
      next: nat, r: Regs, r': Regs)
    requires CurOpen(b) && Grows(Append(b, insts, next).blocks, code.blocks)
    requires ExecCode(c.program, code.varTypes, insts, r) == Some(r')
    requires Careful(c.program, code.varTypes, f.types, insts, r)
    ensures Continues(c, depth, fuel, f, code, b, r, Append(b, insts, next), r')
  {
    hide At, SafeAt, Careful, ExecCode, Grows;
    RunAppended(c, depth, fuel, code, b, insts, next, r, r');
    AppendedSafe(c, depth, fuel, f, code, b, insts, next, r, r');
  }

  lemma CheckContinues(c: Config, depth: nat, fuel: nat, f: Function, code: TFunc, b: Builder, r: Regs)
    requires CurOpen(b) && Grows(ExceptionCheck(b).blocks, code.blocks) && code.heads <= |b.blocks|
    requires VarsSafe(f.types, r.vars, r.m.scope)
    ensures r.m.exc.None? ==> Continues(c, depth, fuel, f, code, b, r, ExceptionCheck(b), r.(env := map[]))
    ensures r.m.exc.Some? ==>
              At(c, depth, fuel, code, b, r) == Returned(Num(0), r.m) && SafeAt(c, depth, fuel, f, code, b, r)
  {
    hide At, SafeAt, VarsSafe, Grows;
    RunCheck(c, depth, fuel, code, b, r);
    if r.m.exc.Some? || SafeAt(c, depth, fuel, f, code, ExceptionCheck(b), r.(env := map[])) {
      CheckSafe(c, depth, fuel, f, code, b, r);
    }
  }

  // ----- storing a result -----

  lemma DefineVar(p: Program, f: Function, defined: set<nat>, frame: Frame, dest: nat, v: Value, id: nat, r: Regs)
      returns (r': Regs)
    requires dest < |f.types| && id in r.env
    requires VarsRel(f, defined, frame, r.vars, r.m.scope.heap)
    requires Represents(r.m.scope.heap, r.env[id], v, f.types[dest])
    ensures ExecCode(p, VarTypes(f), [DefVar(dest, id)], r) == Some(r')
    ensures r' == r.(vars := r.vars[dest := r.env[id]])
    ensures VarsRel(f, defined + {dest}, Store(frame, dest, v), r'.vars, r'.m.scope.heap)
  {
    RepresentsType(r.m.scope.heap, r.env[id], v, f.types[dest]);
    ExecOne(p, VarTypes(f), DefVar(dest, id), r);
    r' := r.(vars := r.vars[dest := r.env[id]]);
  }

  lemma DefineAny(p: Program, f: Function, dest: nat, id: nat, r: Regs) returns (r': Regs)
    requires dest < |f.types| && id in r.env && TypeOf(r.env[id]) == ClTyOf(f.types[dest])
    ensures ExecCode(p, VarTypes(f), [DefVar(dest, id)], r) == Some(r')
    ensures r' == r.(vars := r.vars[dest := r.env[id]])
  {
    ExecOne(p, VarTypes(f), DefVar(dest, id), r);
    r' := r.(vars := r.vars[dest := r.env[id]]);
  }

  // ----- assignments -----

  ghost predicate Stopped(p: Program, end: NativeEnd, m: Machine, signal: Signal) {
    && end.Returned? && end.w == Num(0)
    && Failing(end.m, signal)
    && GlobalsTyped(p, end.m.globals)
    && ScopeGrows(m.scope, end.m.scope)
  }

  lemma CodeAndDef(p: Program, f: Function, code: seq<Inst>, dest: nat, n: nat, res: nat, mv: MVal, r: Regs, r1: Regs,
      r2: Regs)
    requires Yields(p, VarTypes(f), code, r, r1, n, res, mv)
    requires ExecCode(p, VarTypes(f), [DefVar(dest, res)], r1) == Some(r2)
    ensures ExecCode(p, VarTypes(f), code + [DefVar(dest, res)], r) == Some(r2)
  {
    ExecConcat(p, VarTypes(f), code, [DefVar(dest, res)], r);
  }

  /** Operations that leave the value's representation, then the definition of its variable. */
  lemma DefineRuns(p: Program, f: Function, defined: set<nat>, frame: Frame, code: seq<Inst>, dest: nat, n: nat,
      res: nat, v: Value, r: Regs, r1: Regs) returns (r2: Regs)
    requires InStep(p, f, defined, frame, r) && dest < |f.types| && !CertainLocal(f, dest)
    requires Lets(code) && res in r1.env && Yields(p, VarTypes(f), code, r, r1, n, res, r1.env[res])
    requires r1.m == r.m.(scope := r1.m.scope) && ScopeGrows(r.m.scope, r1.m.scope)
    requires Represents(r1.m.scope.heap, r1.env[res], v, f.types[dest])
    ensures ExecCode(p, VarTypes(f), code + [DefVar(dest, res)], r) == Some(r2)
    ensures Careful(p, VarTypes(f), f.types, code + [DefVar(dest, res)], r)
    ensures r2 == r1.(vars := r1.vars[dest := r1.env[res]])
    ensures InStep(p, f, defined + {dest}, Store(frame, dest, v), r2)
  {
    hide ExecCode, VarsSafe, Careful, Lets, GlobalsTyped, Represents, Safe, CertainKept;
    var vt := VarTypes(f);
    VarsSafeLater(f.types, r.vars, r.m.scope, r1.m.scope);
    VarsLater(f, defined, frame, r.vars, r.m.scope.heap, r1.m.scope.heap);
    r2 := DefineVar(p, f, defined, frame, dest, v, res, r1);
    RepresentsSafe(r1.m.scope.heap, r1.env[res], v, f.types[dest]);
    CertainStore(f, frame, dest, v);
    SafeDefine(f.types, r1.vars, r1.m.scope, dest, r1.env[res]);
    CodeAndDef(p, f, code, dest, n, res, r1.env[res], r, r1, r2);
    DefineCareful(p, vt, f.types, code, dest, res, r);
  }

  /** The right-hand side's code and the definition: the value, or zero beside a pending error. */
  lemma AssignDefines(p: Program, f: Function, defined: set<nat>, n: nat, dest: nat, rhs: Rvalue, frame: Frame,
      r: Regs, r1: Regs) returns (r2: Regs)
    requires dest < |f.types| && EmitRvalue(f, n, rhs, f.types[dest]).Some?
    requires InStep(p, f, defined, frame, r) && !CertainLocal(f, dest)
    requires Delivers(p, VarTypes(f), EmitRvalue(f, n, rhs, f.types[dest]).value, r, r1, n,
                      EvalRvalue(p.host, frame, rhs), f.types[dest])
    ensures var frag := EmitRvalue(f, n, rhs, f.types[dest]).value;
            && ExecCode(p, VarTypes(f), frag.code + [DefVar(dest, frag.res)], r) == Some(r2)
            && Careful(p, VarTypes(f), f.types, frag.code + [DefVar(dest, frag.res)], r)
    ensures r2.m == r1.m && VarsSafe(f.types, r2.vars, r2.m.scope)
    ensures match EvalRvalue(p.host, frame, rhs)
            case Done(v) => InStep(p, f, defined + {dest}, Store(frame, dest, v), r2)
            case Raise(_) => true
  {
    hide EmitRvalue, EvalRvalue, ExecCode, VarsSafe, Careful, Lets, GlobalsTyped, Represents, Safe, CertainKept;
    var vt := VarTypes(f);
    var result := EvalRvalue(p.host, frame, rhs);
    var frag := EmitRvalue(f, n, rhs, f.types[dest]).value;
    RvalueLets(f, n, rhs, f.types[dest]);
    if result.Done? {
      r2 := DefineRuns(p, f, defined, frame, frag.code, dest, n, frag.res, result.v, r, r1);
    } else {
      VarsSafeLater(f.types, r.vars, r.m.scope, r1.m.scope);
      r2 := DefineAny(p, f, dest, frag.res, r1);
      ZeroSafe(r1.m.scope.heap, f.types[dest]);
      SafeDefine(f.types, r1.vars, r1.m.scope, dest, r1.env[frag.res]);
      CodeAndDef(p, f, frag.code, dest, n, frag.res, r1.env[frag.res], r, r1, r2);
      DefineCareful(p, vt, f.types, frag.code, dest, frag.res, r);
    }
  }

  lemma AssignRuns(c: Config, depth: nat, fuel: nat, code: TFunc, f: Function, defined: set<nat>, b: Builder,
      dest: nat, rhs: Rvalue, frame: Frame, r: Regs) returns (r': Regs)
    requires HostOk(c.program.host) && CurOpen(b) && EmitInstr(c.program, f, b, Assign(dest, rhs)).Some?
    requires Within(f, EmitInstr(c.program, f, b, Assign(dest, rhs)).value, code) && |f.blocks| <= |b.blocks|
    requires dest < |f.types| && RvalueIn(f, defined, rhs) && RvalueTyped(f, rhs, f.types[dest])
    requires InStep(c.program, f, defined, frame, r) && !CertainLocal(f, dest)
    ensures match EvalRvalue(c.program.host, frame, rhs)
            case Done(v) =>
              && Continues(c, depth, fuel, f, code, b, r,
                  EmitInstr(c.program, f, b, Assign(dest, rhs)).value, r')
              && InStep(c.program, f, defined + {dest}, Store(frame, dest, v), r')
              && r'.m.globals == r.m.globals && ScopeGrows(r.m.scope, r'.m.scope)
            case Raise(error) =>
              && Stopped(c.program, At(c, depth, fuel, code, b, r), r.m, Error(error))
              && At(c, depth, fuel, code, b, r).m.globals == r.m.globals
              && SafeAt(c, depth, fuel, f, code, b, r)
  {
    hide EmitRvalue, EvalRvalue, At, RvalueIn, RvalueTyped, HostOk, ExecCode, Grows, SafeAt, VarsSafe, Careful, Safe,
        Lets, Represents, GlobalsTyped;
    var p, vt := c.program, VarTypes(f);
    var result := EvalRvalue(p.host, frame, rhs);
    var frag := EmitRvalue(f, b.next, rhs, f.types[dest]).value;
    var r1 := RvalueRuns(p, f, vt, b.next, rhs, f.types[dest], defined, frame, r);
    var insts := frag.code + [DefVar(dest, frag.res)];
    var stored := Append(b, insts, frag.next);
    assert stored == DefResult(b, frag, Some(dest));
    var r2 := AssignDefines(p, f, defined, b.next, dest, rhs, frame, r, r1);
    if MayFail(rhs) {
      CheckGrows(stored);
      GrowsTrans(stored.blocks, ExceptionCheck(stored).blocks, code.blocks);
      AppendedContinues(c, depth, fuel, f, code, b, insts, frag.next, r, r2);
      CheckContinues(c, depth, fuel, f, code, stored, r2);
      r' := r2.(env := map[]);
    } else {
      AppendedContinues(c, depth, fuel, f, code, b, insts, frag.next, r, r2);
      r' := r2;
    }
  }

  /** An inlined bare return: the variable holds 0 and is not defined until it is assigned. */
  lemma UnsetRuns(c: Config, depth: nat, fuel: nat, code: TFunc, f: Function, defined: set<nat>, b: Builder, dest: nat,
      frame: Frame, r: Regs) returns (r': Regs)
    requires CurOpen(b) && Unset(f, Assign(dest, Use(Const(LNothing))))
    requires Within(f, EmitInstr(c.program, f, b, Assign(dest, Use(Const(LNothing)))).value, code)
    requires InStep(c.program, f, defined, frame, r) && !CertainLocal(f, dest)
    ensures Continues(c, depth, fuel, f, code, b, r,
        EmitInstr(c.program, f, b, Assign(dest, Use(Const(LNothing)))).value, r')
    ensures InStep(c.program, f, defined - {dest}, Store(frame, dest, VNothing), r')
    ensures r'.m == r.m && ScopeGrows(r.m.scope, r'.m.scope)
  {
    hide At, ExecCode, Grows, SafeAt, VarsSafe, Careful;
    var p, vt, n := c.program, VarTypes(f), b.next;
    var zero, load := M64(Num(0)), [Let(n, Iconst(I64, 0))];
    var r1 := r.(env := r.env[n := zero]);
    YieldsOne(p, vt, n, Iconst(I64, 0), r, zero, r.m);
    r' := DefineAny(p, f, dest, n, r1);
    CodeAndDef(p, f, load, dest, n, n, zero, r, r1, r');
    ZeroSafe(r.m.scope.heap, f.types[dest]);
    SafeDefine(f.types, r.vars, r.m.scope, dest, zero);
    CertainStore(f, frame, dest, VNothing);
    DefineCareful(p, vt, f.types, load, dest, n, r);
    AppendedContinues(c, depth, fuel, f, code, b, load + [DefVar(dest, n)], n + 1, r, r');
  }

  // ----- globals -----

  lemma EncodeGrows(s: Scope, v: Value, ty: MirTy)
    requires Ok(s) && s.depth > 0
    ensures ScopeGrows(s, Encode(s, v, ty).0)
  {
    RegisterKeepsOk(s, v);
  }

  lemma GlobalLoaded(p: Program, f: Function, n: nat, dest: nat, g: nat, r: Regs) returns (r2: Regs)
    requires dest < |f.types| && g < |p.globals| && RawFits(p.globals[g], f.types[dest])
    requires g < |r.m.globals| && HasTy(r.m.globals[g], p.globals[g]) && Ok(r.m.scope) && r.m.scope.depth > 0
    ensures var native := AbiToNative(n + 1, n, f.types[dest]);
            && native.res in r2.env
            && Yields(p, VarTypes(f), [Let(n, LoadGlobalRaw(g))] + native.code, r, r2, n, native.res,
                r2.env[native.res])
            && Represents(r2.m.scope.heap, r2.env[native.res], r.m.globals[g], f.types[dest])
    ensures r2.m == r.m.(scope := r2.m.scope) && ScopeGrows(r.m.scope, r2.m.scope)
  {
    hide ExecCode, Ok, Represents;
    var vt, v, gty, ty := VarTypes(f), r.m.globals[g], p.globals[g], f.types[dest];
    EncodeGrows(r.m.scope, v, gty);
    var (scope, w) := Encode(r.m.scope, v, gty);
    YieldsOne(p, vt, n, LoadGlobalRaw(g), r, M64(w), r.m.(scope := scope));
    var r1 := r.(env := r.env[n := M64(w)], m := r.m.(scope := scope));
    var native := AbiToNative(n + 1, n, ty);
    r2 := AbiToNativeRuns(p, vt, n + 1, n, r.m.scope, v, gty, ty, r1);
    YieldsConcat(p, vt, [Let(n, LoadGlobalRaw(g))], native.code, r, r1, r2, n, n + 1, n, native.res, M64(w),
        r2.env[native.res]);
  }

  lemma LoadGlobalRuns(c: Config, depth: nat, fuel: nat, code: TFunc, f: Function, defined: set<nat>, b: Builder,
      dest: nat, g: nat, frame: Frame, r: Regs) returns (r': Regs)
    requires CurOpen(b) && Within(f, EmitInstr(c.program, f, b, LoadGlobal(dest, g)).value, code)
    requires dest < |f.types| && g < |c.program.globals| && RawFits(c.program.globals[g], f.types[dest])
    requires InStep(c.program, f, defined, frame, r) && !CertainLocal(f, dest)
    ensures Continues(c, depth, fuel, f, code, b, r, EmitInstr(c.program, f, b, LoadGlobal(dest, g)).value, r')
    ensures InStep(c.program, f, defined + {dest}, Store(frame, dest, r.m.globals[g]), r')
    ensures r'.m.globals == r.m.globals && ScopeGrows(r.m.scope, r'.m.scope)
  {
    hide At, ExecCode, Grows, SafeAt, VarsSafe, Careful, Represents, CertainKept, VarsRel, RawFits, Encode, Yields,
        ScopeGrows;
    var p, n := c.program, b.next;
    var native := AbiToNative(n + 1, n, f.types[dest]);
    var loaded := [Let(n, LoadGlobalRaw(g))] + native.code;
    var r2 := GlobalLoaded(p, f, n, dest, g, r);
    OperandLets(f, n + 1, Local(dest), n, I64, f.types[dest]);
    r' := DefineRuns(p, f, defined, frame, loaded, dest, n, native.res, r.m.globals[g], r, r2);
    AppendedContinues(c, depth, fuel, f, code, b, loaded + [DefVar(dest, native.res)], native.next, r, r');
  }

  lemma StoreRuns(p: Program, vt: seq<ClTy>, g: nat, raw: nat, v: Value, r: Regs) returns (r': Regs)
    requires g < |p.globals| == |r.m.globals| && raw in r.env && r.env[raw].M64?
    requires Decode(r.m.scope, r.env[raw].w, p.globals[g]) == Some(v)
    ensures ExecCode(p, vt, [StoreGlobalRaw(g, raw)], r) == Some(r')
    ensures r' == r.(m := r.m.(globals := r.m.globals[g := v]))
  {
    ExecOne(p, vt, StoreGlobalRaw(g, raw), r);
    r' := r.(m := r.m.(globals := r.m.globals[g := v]));
  }

  /** Operations, then one store of a word that is 0 or 1 if the global is a Boolean. */
  lemma StoreCareful(p: Program, vt: seq<ClTy>, tys: seq<MirTy>, code: seq<Inst>, g: nat, raw: nat, r: Regs, r1: Regs)
    requires Lets(code) && ExecCode(p, vt, code, r) == Some(r1)
    requires ExecCode(p, vt, code + [StoreGlobalRaw(g, raw)], r).Some?
    requires Ok(r.m.scope) && r.m.scope.depth > 0 && VarsSafe(tys, r.vars, r.m.scope)
    requires GlobalTy(p, g) == TBoolean ==> raw in r1.env && Bit(r1.env[raw])
    ensures Careful(p, vt, tys, code + [StoreGlobalRaw(g, raw)], r)
  {
    hide VarsSafe, Ok, Step;
    LetsCareful(p, vt, tys, code, r);
    var store := StoreGlobalRaw(g, raw);
    ExecConcat(p, vt, code, [store], r);
    ExecOne(p, vt, store, r1);
    assert Careful(p, vt, tys, [store], r1) by {
      assert [store][1..] == [];
    }
    CarefulConcat(p, vt, tys, code, [store], r);
  }

  /** An operand the raw ABI has a type for becomes a raw word that decodes to it at that type. */
  lemma OperandToAbiRuns(p: Program, f: Function, n: nat, op: Operand, ty: MirTy, defined: set<nat>, frame: Frame,
      r: Regs) returns (r': Regs)
    requires VarsRel(f, defined, frame, r.vars, r.m.scope.heap) && OpIn(f, defined, op)
    requires JitOperandType(f, op) == Some(ty)
    ensures var load := LoadOperand(f, n, op);
            var raw := NativeToAbi(load.next, load.res, load.ty, ty);
            && n <= raw.res < raw.next && n <= raw.next && r'.m == r.m && raw.res in r'.env
            && Yields(p, VarTypes(f), load.code + raw.code, r, r', n, raw.res, r'.env[raw.res])
            && r'.env[raw.res].M64?
            && Reads(r.m.scope, r'.env[raw.res].w, ty, EvalOperand(frame, op))
  {
    hide ExecCode;
    LoadRuns(p, f, VarTypes(f), n, op, defined, frame, r);
    var mv, v := LoadedValue(op, r), EvalOperand(frame, op);
    var load := LoadOperand(f, n, op);
    var r1 := r.(env := r.env[n := mv]);
    r' := NativeToAbiRuns(p, VarTypes(f), n + 1, n, v, ty, r1);
    var raw := NativeToAbi(load.next, load.res, load.ty, ty);
    YieldsConcat(p, VarTypes(f), load.code, raw.code, r, r1, r', n, n + 1, n, raw.res, mv, r'.env[raw.res]);
  }

  lemma StoreGlobalRuns(c: Config, depth: nat, fuel: nat, code: TFunc, f: Function, defined: set<nat>, b: Builder,
      g: nat, op: Operand, frame: Frame, r: Regs) returns (r': Regs)
    requires CurOpen(b) && Within(f, EmitInstr(c.program, f, b, StoreGlobal(g, op)).value, code)
    requires g < |c.program.globals| && OpIn(f, defined, op) && JitOperandType(f, op) == Some(c.program.globals[g])
    requires InStep(c.program, f, defined, frame, r)
    ensures Continues(c, depth, fuel, f, code, b, r, EmitInstr(c.program, f, b, StoreGlobal(g, op)).value, r')
    ensures InStep(c.program, f, defined, frame, r')
    ensures r'.m.globals == r.m.globals[g := EvalOperand(frame, op)] && ScopeGrows(r.m.scope, r'.m.scope)
  {
    hide At, ExecCode, Grows, SafeAt, VarsSafe, Careful, Lets;
    var p, vt, n, ty := c.program, VarTypes(f), b.next, c.program.globals[g];
    VarsFrameOk(f, defined, frame, r.vars, r.m.scope.heap);
    OperandHasTy(f, defined, frame, op);
    var load := LoadOperand(f, n, op);
    var raw := NativeToAbi(load.next, load.res, load.ty, ty);
    var r1 := OperandToAbiRuns(p, f, n, op, ty, defined, frame, r);
    r' := StoreRuns(p, vt, g, raw.res, EvalOperand(frame, op), r1);
    ExecConcat(p, vt, load.code + raw.code, [StoreGlobalRaw(g, raw.res)], r);
    OperandLets(f, n, op, 0, I64, ty);
    OperandLets(f, load.next, op, load.res, load.ty, ty);
    ConcatLets(load.code, raw.code);
    StoreCareful(p, vt, f.types, load.code + raw.code, g, raw.res, r, r1);
    AppendedContinues(c, depth, fuel, f, code, b, load.code + raw.code + [StoreGlobalRaw(g, raw.res)], raw.next, r, r');
  }

  // ----- argument lists -----

  /** Distinct value ids hold words that decode to these values at these types. */
  ghost predicate Carries(scope: Scope, env: map<nat, MVal>, ids: seq<nat>, values: seq<Value>, tys: seq<MirTy>) {
    && |ids| == |values| == |tys|
    && forall i :: 0 <= i < |ids| ==>
         ids[i] in env && env[ids[i]].M64? && Reads(scope, env[ids[i]].w, tys[i], values[i])
  }

  lemma SameAbi(f: Function, n: nat, v: nat, vty: ClTy, op: Operand)
    requires JitOperandType(f, op).Some?
    ensures NativeToAbi(n, v, vty, AbiOperandTy(f, op)) == NativeToAbi(n, v, vty, JitOperandType(f, op).value)
  {
  }

  lemma CarriesMore(scope: Scope, env: map<nat, MVal>, env': map<nat, MVal>, n: nat, ids: seq<nat>, id: nat,
      values: seq<Value>, v: Value, tys: seq<MirTy>, ty: MirTy)
    requires Carries(scope, env, ids, values, tys)
    requires forall k :: k in env && k < n ==> k in env' && env'[k] == env[k]
    requires forall i :: 0 <= i < |ids| ==> ids[i] < n
    requires id in env' && env'[id].M64? && Reads(scope, env'[id].w, ty, v)
    ensures Carries(scope, env', ids + [id], values + [v], tys + [ty])
  {
  }

  lemma OperandRawRuns(p: Program, f: Function, n: nat, op: Operand, ty: MirTy, defined: set<nat>, frame: Frame,
      r: Regs) returns (r': Regs)
    requires VarsRel(f, defined, frame, r.vars, r.m.scope.heap) && OpIn(f, defined, op)
    requires JitOperandType(f, op) == Some(ty)
    ensures var raw := OperandToAbi(f, n, op);
            && n <= raw.res < raw.next && r'.m == r.m && raw.res in r'.env
            && Yields(p, VarTypes(f), raw.code, r, r', n, raw.res, r'.env[raw.res])
            && r'.env[raw.res].M64?
            && Reads(r.m.scope, r'.env[raw.res].w, ty, EvalOperand(frame, op))
  {
    hide ExecCode;
    r' := OperandToAbiRuns(p, f, n, op, ty, defined, frame, r);
    var load := LoadOperand(f, n, op);
    SameAbi(f, load.next, load.res, load.ty, op);
  }

  /** The argument code ran, and every id it lists carries its operand's value. */
  ghost predicate ArgsDone(p: Program, f: Function, n: nat, raws: Args, values: seq<Value>, tys: seq<MirTy>, r: Regs,
      r': Regs) {
    && n <= raws.next && r'.m == r.m && r'.vars == r.vars && EnvKept(r, r', n)
    && ExecCode(p, VarTypes(f), raws.code, r) == Some(r')
    && (forall i :: 0 <= i < |raws.ids| ==> raws.ids[i] < raws.next)
    && Carries(r.m.scope, r'.env, raws.ids, values, tys)
  }

  lemma ArgsStep(p: Program, f: Function, n: nat, before: Args, last: Frag, values: seq<Value>, v: Value,
      tys: seq<MirTy>, ty: MirTy, r: Regs, r1: Regs, r': Regs)
    requires ArgsDone(p, f, n, before, values, tys, r, r1)
    requires before.next <= last.res < last.next && r'.m == r1.m && last.res in r'.env
    requires Yields(p, VarTypes(f), last.code, r1, r', before.next, last.res, r'.env[last.res])
    requires r'.env[last.res].M64? && Reads(r.m.scope, r'.env[last.res].w, ty, v)
    ensures ArgsDone(p, f, n, Args(before.code + last.code, last.next, before.ids + [last.res]), values + [v],
        tys + [ty], r, r')
  {
    hide ExecCode, Reads;
    ExecConcat(p, VarTypes(f), before.code, last.code, r);
    CarriesMore(r.m.scope, r1.env, r'.env, before.next, before.ids, last.res, values, v, tys, ty);
  }

  lemma ArgsExtend(p: Program, f: Function, n: nat, arg: Operand, ty: MirTy, before: Args, values: seq<Value>,
      tys: seq<MirTy>, defined: set<nat>, frame: Frame, r: Regs, r1: Regs) returns (r': Regs)
    requires VarsRel(f, defined, frame, r.vars, r.m.scope.heap)
    requires OpIn(f, defined, arg) && JitOperandType(f, arg) == Some(ty)
    requires ArgsDone(p, f, n, before, values, tys, r, r1)
    ensures var last := OperandToAbi(f, before.next, arg);
            ArgsDone(p, f, n, Args(before.code + last.code, last.next, before.ids + [last.res]),
                     values + [EvalOperand(frame, arg)], tys + [ty], r, r')
  {
    hide JitOperandType, OperandToAbi, OpIn, Carries, ExecCode, Reads, VarsRel, EvalOperand, EnvKept;
    r' := OperandRawRuns(p, f, before.next, arg, ty, defined, frame, r1);
    ArgsStep(p, f, n, before, OperandToAbi(f, before.next, arg), values, EvalOperand(frame, arg), tys, ty, r, r1, r');
  }

  lemma ArgsNone(p: Program, f: Function, n: nat, frame: Frame, r: Regs)
    ensures ArgsDone(p, f, n, EmitArgs(f, n, []), EvalOperands(frame, []), [], r, r)
  {
  }

  lemma EvalSnoc(frame: Frame, args: seq<Operand>)
    requires args != []
    ensures EvalOperands(frame, args) == EvalOperands(frame,
        args[..|args| - 1]) + [EvalOperand(frame, args[|args| - 1])]
  {
    hide EvalOperand;
  }

  lemma {:induction false} ArgsRun(p: Program, f: Function, n: nat, args: seq<Operand>, tys: seq<MirTy>,
      defined: set<nat>, frame: Frame, r: Regs) returns (r': Regs)
    requires VarsRel(f, defined, frame, r.vars, r.m.scope.heap)
    requires |args| == |tys|
    requires forall i :: 0 <= i < |args| ==> OpIn(f, defined, args[i]) && JitOperandType(f, args[i]) == Some(tys[i])
    ensures ArgsDone(p, f, n, EmitArgs(f, n, args), EvalOperands(frame, args), tys, r, r')
    decreases |args|
  {
    hide JitOperandType, OperandToAbi, OpIn, ArgsDone, VarsRel, EvalOperand, EvalOperands, VarTypes;
    if args == [] {
      r' := r;
      ArgsNone(p, f, n, frame, r);
      assert args == [] && tys == [];
    } else {
      var k := |args| - 1;
      EvalSnoc(frame, args);
      var r1 := ArgsRun(p, f, n, args[..k], tys[..k], defined, frame, r);
      r' := ArgsExtend(p, f, n, args[k], tys[k], EmitArgs(f, n, args[..k]), EvalOperands(frame, args[..k]), tys[..k],
          defined, frame, r, r1);
      assert tys == tys[..k] + [tys[k]];
    }
  }

  /** The call hook reads back the argument values. */
  lemma {:induction false} ArgsDecode(params: seq<Param>, vals: seq<MVal>, values: seq<Value>, m: Machine)
    requires |vals| == |values| <= |params|
    requires forall i :: 0 <= i < |vals| ==>
        vals[i].M64? && Decode(m.scope, vals[i].w, AbiTy(params[i])) == Some(values[i])
    ensures DecodeArgs(params, vals, m) == Some(values)
    decreases |vals|
  {
    if vals != [] {
      var k := |vals| - 1;
      ArgsDecode(params, vals[..k], values[..k], m);
      assert values == values[..k] + [values[k]];
    }
  }
}
