// An emitted call: raw arguments out, raw result back, exception check.

module Calls {
  import opened Arithmetic
  import opened Options
  import opened Mir
  import opened AbiScope
  import opened Clif
  import opened JitEmit
  import opened Typing
  import opened Tiers
  import opened Fragments
  import opened Points
  import opened States
  import opened SafeRuns
  import opened NativeSteps
  import opened Edges

  // ----- after the callee returned -----

  lemma ZeroConverts(p: Program, vt: seq<ClTy>, n: nat, raw: nat, ty: MirTy, r: Regs) returns (r': Regs)
    requires raw in r.env && raw < n && r.env[raw] == M64(Num(0))
    ensures var native := AbiToNative(n, raw, ty);
            && raw <= native.res < native.next && n <= native.next && native.res in r'.env && r'.m == r.m
            && Yields(p, vt, native.code, r, r', n, native.res, r'.env[native.res])
            && r'.env[native.res] == ZeroOf(ClTyOf(ty))
  {
    var native := AbiToNative(n, raw, ty);
    if native.code == [] {
      r' := r;
    } else {
      var mv := EvalOp(p, native.code[0].op, r).value.0;
      YieldsOne(p, vt, n, native.code[0].op, r, mv, r.m);
      r' := r.(env := r.env[n := mv]);
    }
  }

  /** The callee's result is stored and execution goes on behind the check. */
  lemma ResultRuns(c: Config, depth: nat, fuel: nat, code: TFunc, f: Function, defined: set<nat>, b: Builder,
      dest: Option<nat>, raw: nat, s0: Scope, v: Value, from: MirTy, frame: Frame, r: Regs) returns (r': Regs)
    requires CurOpen(b) && b.next == raw + 1
    requires var after := AbiToNative(b.next, raw, DestTy(f, dest));
             Within(f, ExceptionCheck(DefResult(b, after, dest)), code) && |f.blocks| <= |b.blocks|
    requires dest.Some? ==>
        dest.value < |f.types| && RawFits(from, f.types[dest.value]) && !CertainLocal(f, dest.value)
    requires InStep(c.program, f, defined, frame, r) && HasTy(v, from)
    requires raw in r.env && r.env[raw] == M64(Encode(s0, v, from).1)
    requires HeapGrows(Encode(s0, v, from).0.heap, r.m.scope.heap)
    ensures var after := AbiToNative(b.next, raw, DestTy(f, dest));
            Continues(c, depth, fuel, f, code, b, r, ExceptionCheck(DefResult(b, after, dest)), r')
    ensures r'.m == r.m
    ensures InStep(c.program, f, if dest.Some? then defined + {dest.value} else defined,
                   if dest.Some? then Store(frame, dest.value, v) else frame, r')
  {
    hide At, ExecCode, Grows, Encode, Represents, SafeAt, VarsSafe, Careful, Lets, GlobalsTyped, CertainKept, VarsRel;
    var p, vt := c.program, VarTypes(f);
    var after := AbiToNative(b.next, raw, DestTy(f, dest));
    var stored := DefResult(b, after, dest);
    CheckGrows(stored);
    GrowsTrans(stored.blocks, ExceptionCheck(stored).blocks, code.blocks);
    if dest.Some? {
      var r1 := AbiToNativeRuns(p, vt, b.next, raw, s0, v, from, f.types[dest.value], r);
      OperandLets(f, b.next, Local(0), raw, I64, f.types[dest.value]);
      var r2 := DefineRuns(p, f, defined, frame, after.code, dest.value, b.next, after.res, v, r, r1);
      AppendedContinues(c, depth, fuel, f, code, b, after.code + [DefVar(dest.value, after.res)], after.next, r, r2);
      CheckContinues(c, depth, fuel, f, code, stored, r2);
      r' := r2.(env := map[]);
    } else {
      assert after.code + [] == [];
      ExecNothing(p, vt, f.types, r);
      AppendedContinues(c, depth, fuel, f, code, b, [], after.next, r, r);
      CheckContinues(c, depth, fuel, f, code, stored, r);
      r' := r.(env := map[]);
    }
  }

  lemma ExecNothing(p: Program, vt: seq<ClTy>, tys: seq<MirTy>, r: Regs)
    ensures ExecCode(p, vt, [], r) == Some(r) && Careful(p, vt, tys, [], r)
  {
  }

  /** After a failed callee nothing of this activation takes effect: it returns 0 at the check. */
  lemma FailureRuns(c: Config, depth: nat, fuel: nat, code: TFunc, f: Function, b: Builder, dest: Option<nat>,
      raw: nat, r: Regs)
    requires CurOpen(b) && b.next == raw + 1
    requires var after := AbiToNative(b.next, raw, DestTy(f, dest));
             Within(f, ExceptionCheck(DefResult(b, after, dest)), code) && |f.blocks| <= |b.blocks|
    requires dest.Some? ==> dest.value < |f.types|
    requires raw in r.env && r.env[raw] == M64(Num(0)) && r.m.exc.Some?
    ensures At(c, depth, fuel, code, b, r) == Returned(Num(0), r.m)
    ensures Ok(r.m.scope) && VarsSafe(f.types, r.vars, r.m.scope) ==> SafeAt(c, depth, fuel, f, code, b, r)
  {
    hide At, ExecCode, Grows, SafeAt, VarsSafe, Careful, Lets, Ok;
    var p, vt := c.program, VarTypes(f);
    var after := AbiToNative(b.next, raw, DestTy(f, dest));
    var stored := DefResult(b, after, dest);
    var insts := after.code + (if dest.Some? then [DefVar(dest.value, after.res)] else []);
    CheckGrows(stored);
    GrowsTrans(stored.blocks, ExceptionCheck(stored).blocks, code.blocks);
    var r2 := ZeroStored(p, f, dest, b.next, raw, r);
    RunAppended(c, depth, fuel, code, b, insts, after.next, r, r2);
    RunCheck(c, depth, fuel, code, stored, r2);
    if Ok(r.m.scope) && VarsSafe(f.types, r.vars, r.m.scope) {
      AppendedSafe(c, depth, fuel, f, code, b, insts, after.next, r, r2);
      CheckSafe(c, depth, fuel, f, code, stored, r2);
    }
  }

  /** The zero of a failed callee, converted and stored. */
  lemma ZeroStored(p: Program, f: Function, dest: Option<nat>, n: nat, raw: nat, r: Regs) returns (r2: Regs)
    requires dest.Some? ==> dest.value < |f.types|
    requires raw in r.env && raw < n && r.env[raw] == M64(Num(0))
    ensures var after := AbiToNative(n, raw, DestTy(f, dest));
            var insts := after.code + (if dest.Some? then [DefVar(dest.value, after.res)] else []);
            && ExecCode(p, VarTypes(f), insts, r) == Some(r2) && r2.m == r.m
            && (Ok(r.m.scope) && VarsSafe(f.types, r.vars, r.m.scope) ==>
                  Careful(p, VarTypes(f), f.types, insts, r) && VarsSafe(f.types, r2.vars, r2.m.scope))
  {
    hide ExecCode, VarsSafe, Careful, Lets, Ok;
    var vt := VarTypes(f);
    var after := AbiToNative(n, raw, DestTy(f, dest));
    var r1 := ZeroConverts(p, vt, n, raw, DestTy(f, dest), r);
    OperandLets(f, n, Local(0), raw, I64, DestTy(f, dest));
    if dest.Some? {
      r2 := DefineAny(p, f, dest.value, after.res, r1);
      CodeAndDef(p, f, after.code, dest.value, n, after.res, r1.env[after.res], r, r1, r2);
      ZeroSafe(r.m.scope.heap, f.types[dest.value]);
    } else {
      assert after.code + [] == after.code;
      r2 := r1;
    }
    if Ok(r.m.scope) && VarsSafe(f.types, r.vars, r.m.scope) {
      OpenScope(f.types, r.vars, r.m.scope);
      if dest.Some? {
        SafeDefine(f.types, r.vars, r.m.scope, dest.value, r1.env[after.res]);
        DefineCareful(p, vt, f.types, after.code, dest.value, after.res, r);
      } else {
        LetsCareful(p, vt, f.types, after.code, r);
      }
    }
  }

  lemma OpenScope(tys: seq<MirTy>, vars: map<nat, MVal>, s: Scope)
    requires VarsSafe(tys, vars, s)
    ensures s.depth > 0
  {
  }

  // ----- up to the call -----

  function ParamTypes(params: seq<Param>): seq<MirTy> {
    seq(|params|, i requires 0 <= i < |params| => AbiTy(params[i]))
  }

  /** The call hook sees exactly the argument values the interpreter would pass. */
  lemma ArgumentsReach(c: Config, depth: nat, f: Function, callee: nat, args: seq<Operand>, n: nat, defined: set<nat>,
      frame: Frame, r: Regs) returns (r1: Regs)
    requires callee < |c.program.functions|
    requires InstrEligible(c.program, f, Call(None, callee, args))
    requires forall i :: 0 <= i < |args| ==> OpIn(f, defined, args[i])
    requires VarsRel(f, defined, frame, r.vars, r.m.scope.heap)
    ensures var raws := EmitArgs(f, n, args);
            && ExecCode(c.program, VarTypes(f), raws.code, r) == Some(r1)
            && r1.m == r.m && r1.vars == r.vars
            && Lookup(r1.env, raws.ids).Some?
            && Carries(r.m.scope, r1.env, raws.ids, EvalOperands(frame, args),
                ParamTypes(c.program.functions[callee].params))
            && DecodeArgs(c.program.functions[callee].params, Lookup(r1.env, raws.ids).value, r.m)
                == Some(EvalOperands(frame, args))
            && BitsOut(c.program.functions[callee].params, raws.ids, r1.env)
  {
    hide ExecCode, VarsRel, OpIn;
    var params := c.program.functions[callee].params;
    r1 := ArgsRun(c.program, f, n, args, ParamTypes(params), defined, frame, r);
    var ids := EmitArgs(f, n, args).ids;
    assert Carries(r.m.scope, r1.env, ids, EvalOperands(frame, args), ParamTypes(params));
    ArgsDecode(params, Lookup(r1.env, ids).value, EvalOperands(frame, args), r.m);
  }
}
