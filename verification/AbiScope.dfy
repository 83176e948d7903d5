// The thread-local JIT ABI scope: boxed values handed across the raw i64 boundary live until the
// outermost native call returns (crates/fidan-codegen-cranelift/src/jit.rs).

module AbiScope {
  import opened Arithmetic
  import opened Options
  import opened Mir

  /** A raw ABI word. Pointers are kept apart from numbers, so reading one as the other is visible. */
  datatype Word = Num(n: i64) | Ptr(a: nat)

  /** `ptrs` is the scope's pointer list, `heap` the boxes alive, `freed` the log of releases. */
  datatype Scope = Scope(
    context: int, depth: nat, ptrs: seq<nat>, heap: map<nat, Value>, next: nat, freed: seq<nat>)

  function Reversed(s: seq<nat>): seq<nat> {
    if s == [] then [] else [s[|s| - 1]] + Reversed(s[..|s| - 1])
  }

  lemma {:induction false} ReversedKeepsCounts(s: seq<nat>)
    ensures multiset(Reversed(s)) == multiset(s)
  {
    if s != [] {
      ReversedKeepsCounts(s[..|s| - 1]);
      assert s == s[..|s| - 1] + [s[|s| - 1]];
    }
  }

  function Elements(s: seq<nat>): set<nat> {
    set a | a in s
  }

  function Enter(s: Scope): Scope {
    s.(depth := s.depth + 1, ptrs := if s.depth == 0 then [] else s.ptrs)
  }

  function Exit(s: Scope): Scope {
    if s.depth > 1 then s.(depth := s.depth - 1)
    else s.(depth := 0, ptrs := [], heap := s.heap - Elements(s.ptrs), freed := s.freed + Reversed(s.ptrs))
  }

  /** Boxes a value; the new pointer is `s.next`. */
  function Register(s: Scope, v: Value): Scope {
    s.(ptrs := s.ptrs + [s.next], heap := s.heap[s.next := v], next := s.next + 1)
  }

  /** Every pointer ever issued is either in the list once or was freed once, never both; exactly
      the listed boxes are alive; outside any scope the list is empty. */
  ghost predicate Ok(s: Scope) {
    && s.next > 0
    && (forall a: nat :: multiset(s.freed)[a] + multiset(s.ptrs)[a] == if 0 < a < s.next then 1 else 0)
    && (forall a: nat :: a in s.heap <==> a in s.ptrs)
    && (s.depth == 0 ==> s.ptrs == [])
  }

  lemma OkBounds(s: Scope)
    requires Ok(s)
    ensures s.next !in s.heap
    ensures forall a: nat :: a in s.heap ==> 0 < a < s.next
  {
    forall a: nat
      ensures a in s.heap ==> 0 < a < s.next
      ensures a == s.next ==> a !in s.heap
    {
      assert multiset(s.freed)[a] + multiset(s.ptrs)[a] == if 0 < a < s.next then 1 else 0;
      assert a in s.ptrs <==> a in multiset(s.ptrs);
    }
  }

  lemma RegisterKeepsOk(s: Scope, v: Value)
    requires Ok(s) && s.depth > 0
    ensures Ok(Register(s, v))
    ensures forall a :: a in s.heap ==> a in Register(s, v).heap && Register(s, v).heap[a] == s.heap[a]
  {
    OkBounds(s);
    var t := Register(s, v);
    assert multiset(t.ptrs) == multiset(s.ptrs) + multiset{s.next};
    forall a: nat
      ensures multiset(t.freed)[a] + multiset(t.ptrs)[a] == if 0 < a < t.next then 1 else 0
    {
      assert multiset(s.freed)[a] + multiset(s.ptrs)[a] == if 0 < a < s.next then 1 else 0;
    }
    forall a: nat
      ensures a in t.heap <==> a in t.ptrs
    {
      assert a in s.heap <==> a in s.ptrs;
      assert a in t.ptrs <==> a in multiset(t.ptrs);
      assert a in s.ptrs <==> a in multiset(s.ptrs);
    }
  }

  lemma EnterKeepsOk(s: Scope)
    requires Ok(s)
    ensures Ok(Enter(s)) && Enter(s).heap == s.heap && Enter(s).ptrs == s.ptrs
  {
  }

  lemma ExitKeepsOk(s: Scope)
    requires Ok(s) && s.depth > 0
    ensures Ok(Exit(s))
    ensures s.depth == 1 ==> Exit(s).heap == map[]
  {
    if s.depth == 1 {
      var t := Exit(s);
      ReversedKeepsCounts(s.ptrs);
      assert multiset(t.freed) == multiset(s.freed) + multiset(s.ptrs);
      assert multiset(t.ptrs) == multiset{};
      forall a: nat
        ensures multiset(t.freed)[a] + multiset(t.ptrs)[a] == if 0 < a < t.next then 1 else 0
        ensures a !in t.heap
      {
        assert multiset(s.freed)[a] + multiset(s.ptrs)[a] == if 0 < a < s.next then 1 else 0;
        assert a in s.heap <==> a in s.ptrs;
      }
    }
  }

  // ----- nested runs -----

  /** What happens while a context is active: values are boxed, or native code is entered again. */
  datatype Act = Box(v: Value) | WithContext(context: int, body: seq<Act>)

  function RunAct(s: Scope, act: Act): Scope
    decreases act, 0
  {
    match act
    case Box(v) => Register(s, v)
    case WithContext(context, body) =>
      Exit(RunActs(Enter(s.(context := context)), body)).(context := s.context)
  }

  function RunActs(s: Scope, acts: seq<Act>): Scope
    decreases acts, 1
  {
    if acts == [] then s
    else RunActs(RunAct(s, acts[0]), acts[1..])
  }

  /** No value is boxed outside every context. */
  predicate Scoped(depth: nat, acts: seq<Act>) {
    depth == 0 ==> forall act :: act in acts ==> act.WithContext?
  }

  /** Over every properly nested run: depth and context come back as they were; while a context
      stays open nothing is freed and every live box keeps its value; and once the outermost one is
      left, every box ever registered has been freed exactly once and none is alive. */
  lemma {:induction false} ScopeOwnership(s: Scope, acts: seq<Act>)
    requires Ok(s) && Scoped(s.depth, acts)
    ensures var t := RunActs(s, acts);
            && Ok(t) && t.depth == s.depth && t.context == s.context && t.next >= s.next
            && (s.depth > 0 ==>
                  && t.freed == s.freed
                  && s.ptrs <= t.ptrs
                  && forall a :: a in s.heap ==> a in t.heap && t.heap[a] == s.heap[a])
            && (s.depth == 0 ==>
                  && t.ptrs == [] && t.heap == map[]
                  && forall a: nat :: 0 < a < t.next ==> multiset(t.freed)[a] == 1)
    decreases acts, 1
  {
    if acts == [] {
      if s.depth == 0 {
        assert s.ptrs == [];
        assert forall a: nat :: a !in s.heap;
        assert s.heap == map[];
      }
    } else {
      ActOwnership(s, acts[0]);
      ScopeOwnership(RunAct(s, acts[0]), acts[1..]);
    }
  }

  lemma {:induction false} ActOwnership(s: Scope, act: Act)
    requires Ok(s) && Scoped(s.depth, [act])
    ensures var t := RunAct(s, act);
            && Ok(t) && t.depth == s.depth && t.context == s.context && t.next >= s.next
            && (s.depth > 0 ==>
                  && t.freed == s.freed
                  && s.ptrs <= t.ptrs
                  && forall a :: a in s.heap ==> a in t.heap && t.heap[a] == s.heap[a])
    decreases act, 0
  {
    match act
    case Box(v) =>
      assert act in [act];
      RegisterKeepsOk(s, v);
    case WithContext(context, body) =>
      var entered := Enter(s.(context := context));
      EnterKeepsOk(s.(context := context));
      ScopeOwnership(entered, body);
      ExitKeepsOk(RunActs(entered, body));
  }

  // ----- raw words -----

  function Encode(s: Scope, v: Value, ty: MirTy): (Scope, Word) {
    match (v, ty)
    case (VInt(n), TInteger) => (s, Num(n))
    case (VFloat(bits), TFloat) => (s, Num(bits))
    case (VBool(b), TBoolean) => (s, Num(if b then 1 else 0))
    case (VHandle(w), THandle) => (s, Num(w))
    case _ => (Register(s, v), Ptr(s.next))
  }

  /** None is undefined behaviour: a pointer read as a scalar, or a dereference of no live box. */
  function Decode(s: Scope, w: Word, ty: MirTy): Option<Value> {
    match (ty, w)
    case (TInteger, Num(n)) => Some(VInt(n))
    case (TFloat, Num(n)) => Some(VFloat(n))
    case (TBoolean, Num(n)) => Some(VBool(n != 0))
    case (THandle, Num(n)) => Some(VHandle(n))
    case (_, Num(n)) => if n == 0 && !IsScalar(ty) then Some(VNothing) else None
    case (_, Ptr(a)) => if a in s.heap && !IsScalar(ty) then Some(s.heap[a]) else None
  }

  lemma StaysScoped(depth: nat, acts: seq<Act>)
    requires depth > 0
    ensures Scoped(depth, acts)
  {
  }

  /** A scalar travels as itself only between the same types, anything else only between boxed ones. */
  predicate Portable(v: Value, from: MirTy, to: MirTy) {
    if IsScalar(from) && HasTy(v, from) then from == to else !IsScalar(to)
  }

  lemma WordReads(s: Scope, u: Scope, v: Value, from: MirTy, to: MirTy)
    requires var w := Encode(s, v, from).1; w.Ptr? ==> w.a in u.heap && u.heap[w.a] == v
    ensures Decode(u, Encode(s, v, from).1, to) == Some(v) <==> Portable(v, from, to)
  {
    hide Register;
  }

  /** A word encoded at one type and read at another, while the scope stays open and whatever runs in
      between, gives the value back exactly if it is portable between the two types. */
  lemma RoundTripLater(s: Scope, v: Value, from: MirTy, to: MirTy, acts: seq<Act>)
    requires Ok(s) && s.depth > 0
    ensures var (t, w) := Encode(s, v, from); Decode(RunActs(t, acts), w, to) == Some(v) <==> Portable(v, from, to)
  {
    hide Ok, RunActs, Scoped, Decode, Portable;
    var (t, w) := Encode(s, v, from);
    RegisterKeepsOk(s, v);
    StaysScoped(t.depth, acts);
    ScopeOwnership(t, acts);
    var u := RunActs(t, acts);
    if w.Ptr? {
      assert w.a in u.heap && u.heap[w.a] == v;
    }
    WordReads(s, u, v, from, to);
  }

  // ----- the thread-local cells -----

  lemma FreeStep(drained: seq<nat>, i: nat)
    requires i < |drained|
    ensures Reversed(drained[..i + 1]) == [drained[i]] + Reversed(drained[..i])
    ensures Elements(drained[i..]) == {drained[i]} + Elements(drained[i + 1..])
  {
    assert drained[..i + 1][..i] == drained[..i];
    assert drained[i..] == [drained[i]] + drained[i + 1..];
  }

  lemma FreeEnds(drained: seq<nat>)
    ensures Reversed(drained[..|drained|]) == Reversed(drained) && Elements(drained[|drained|..]) == {}
    ensures Reversed(drained[..0]) == [] && Elements(drained[0..]) == Elements(drained)
  {
    assert drained[..|drained|] == drained && drained[0..] == drained;
  }

  class AbiThread {
    var context: int
    var depth: nat
    var values: seq<nat>
    var boxes: map<nat, Value>
    var nextBox: nat
    ghost var freed: seq<nat>

    ghost function State(): Scope
      reads this
    {
      Scope(context, depth, values, boxes, nextBox, freed)
    }

    constructor ()
      ensures Ok(State()) && depth == 0
    {
      context, depth, values, boxes, nextBox, freed := 0, 0, [], map[], 1, [];
    }

    method EnterScope()
      modifies this
      ensures State() == Enter(old(State()))
    {
      if depth == 0 {
        values := [];
      }
      depth := depth + 1;
    }

    method RegisterBox(v: Value) returns (w: Word)
      modifies this
      ensures State() == Register(old(State()), v) && w == Ptr(old(nextBox))
    {
      w := Ptr(nextBox);
      boxes := boxes[nextBox := v];
      values := values + [nextBox];
      nextBox := nextBox + 1;
    }

    /** Frees each listed box, last registered first. */
    method ExitScope()
      requires Ok(State()) && depth > 0
      modifies this
      ensures State() == Exit(old(State()))
    {
      hide Reversed, Elements, Ok;
      depth := depth - 1;
      if depth == 0 {
        var drained := values;
        ghost var alive, before := boxes, freed;
        values := [];
        var i := |drained|;
        FreeEnds(drained);
        while i > 0
          invariant 0 <= i <= |drained|
          invariant freed + Reversed(drained[..i]) == before + Reversed(drained)
          invariant boxes == alive - Elements(drained[i..])
          invariant context == old(context) && depth == 0 && nextBox == old(nextBox) && values == []
        {
          i := i - 1;
          FreeStep(drained, i);
          assert freed + ([drained[i]] + Reversed(drained[..i])) == freed + [drained[i]] + Reversed(drained[..i]);
          freed := freed + [drained[i]];
          boxes := boxes - {drained[i]};
        }
        assert freed == freed + Reversed(drained[..0]);
      }
    }

    method EncodeValue(v: Value, ty: MirTy) returns (w: Word)
      modifies this
      ensures (State(), w) == Encode(old(State()), v, ty)
    {
      match (v, ty)
      case (VInt(n), TInteger) => w := Num(n);
      case (VFloat(bits), TFloat) => w := Num(bits);
      case (VBool(b), TBoolean) => w := Num(if b then 1 else 0);
      case (VHandle(h), THandle) => w := Num(h);
      case _ => w := RegisterBox(v);
    }

    /** Runs the nested activity under a new context and restores the previous one. */
    method Run(act: Act)
      requires Ok(State()) && Scoped(depth, [act])
      modifies this
      ensures State() == RunAct(old(State()), act) && Ok(State())
      decreases act, 0
    {
      ActOwnership(State(), act);
      match act
      case Box(v) =>
        var _ := RegisterBox(v);
      case WithContext(inner, body) =>
        var previous := context;
        EnterKeepsOk(State().(context := inner));
        context := inner;
        EnterScope();
        ghost var entered := State();
        ScopeOwnership(entered, body);
        var i := 0;
        while i < |body|
          invariant 0 <= i <= |body|
          invariant Ok(State()) && depth == entered.depth
          invariant RunActs(State(), body[i..]) == RunActs(entered, body)
        {
          assert body[i..][0] == body[i] && body[i..][1..] == body[i + 1..];
          ActOwnership(State(), body[i]);
          Run(body[i]);
          i := i + 1;
        }
        ExitScope();
        context := previous;
    }
  }
}
