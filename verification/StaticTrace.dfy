// The static execution trace of a source range: statements in preorder, capped at 250 steps
// (crates/fidan-cli/src/ai_analysis.rs).

module StaticTrace {
  import opened Options

  const MAX_STEPS: nat := 250

  type Body = seq<nat>

  /** The statements nested in a statement, by kind of statement. */
  datatype Shape =
    | If(thenBody: Body, elseIfs: seq<Body>, elseBody: Option<Body>)
    | Loop(body: Body)
    | Attempt(tried: Body, catches: seq<Body>, otherwise: Option<Body>, finallyBody: Option<Body>)
    | Arms(arms: seq<Body>)
    | Action(actionBody: Body)
    | Plain

  /** `text` is what the trace says about the statement, `start` the offset it begins at. */
  datatype Stmt = Stmt(text: string, start: nat, shape: Shape)

  datatype Item =
    | ActionItem(text: string, start: nat, body: Body)
    | VariableItem(text: string, start: nat)
    | StatementItem(id: nat)
    | OtherItem

  datatype Step = Step(text: string, line: nat)

  datatype File = File(src: string, arena: seq<Stmt>, items: seq<Item>)

  // ----- lines and children -----

  function Newlines(s: string): nat {
    if s == [] then 0 else (if s[0] == '\n' then 1 else 0) + Newlines(s[1..])
  }

  function OffsetLine(src: string, offset: nat): nat {
    Newlines(src[..if offset <= |src| then offset else |src|]) + 1
  }

  function Flatten(bodies: seq<Body>): Body {
    if bodies == [] then [] else bodies[0] + Flatten(bodies[1..])
  }

  function Maybe(body: Option<Body>): Body {
    if body.Some? then body.value else []
  }

  function Children(shape: Shape): Body {
    match shape
    case If(thenBody, elseIfs, elseBody) => thenBody + Flatten(elseIfs) + Maybe(elseBody)
    case Loop(body) => body
    case Attempt(tried, catches, otherwise,
        finallyBody) => tried + Flatten(catches) + Maybe(otherwise) + Maybe(finallyBody)
    case Arms(arms) => Flatten(arms)
    case Action(body) => body
    case Plain => []
  }

  /** The statements listed in one of a statement's bodies. */
  ghost predicate InBody(shape: Shape, id: nat) {
    match shape
    case If(thenBody, elseIfs, elseBody) =>
      id in thenBody || (exists k :: 0 <= k < |elseIfs| && id in elseIfs[k]) || (elseBody.Some? && id in elseBody.value)
    case Loop(body) => id in body
    case Attempt(tried, catches, otherwise, finallyBody) =>
      || id in tried || (exists k :: 0 <= k < |catches| && id in catches[k])
      || (otherwise.Some? && id in otherwise.value) || (finallyBody.Some? && id in finallyBody.value)
    case Arms(arms) => exists k :: 0 <= k < |arms| && id in arms[k]
    case Action(body) => id in body
    case Plain => false
  }

  lemma {:induction false} FlattenSplits(bodies: seq<Body>, k: nat)
    requires k < |bodies|
    ensures Flatten(bodies) == Flatten(bodies[..k]) + bodies[k] + Flatten(bodies[k + 1..])
  {
    if k == 0 {
      assert bodies[..0] == [];
    } else {
      FlattenSplits(bodies[1..], k - 1);
      assert bodies[1..][..k - 1] == bodies[..k][1..] && bodies[1..][k - 1 + 1..] == bodies[k + 1..];
    }
  }

  lemma {:induction false} FlattenHolds(bodies: seq<Body>, id: nat)
    ensures id in Flatten(bodies) <==> exists k :: 0 <= k < |bodies| && id in bodies[k]
  {
    if bodies != [] {
      FlattenHolds(bodies[1..], id);
      if k :| 0 <= k < |bodies[1..]| && id in bodies[1..][k] {
        assert bodies[k + 1] == bodies[1..][k];
      }
      if k :| 0 < k < |bodies| && id in bodies[k] {
        assert bodies[1..][k - 1] == bodies[k];
      }
    }
  }

  /** A statement's children are the statements of its bodies, and nothing else. */
  lemma ChildrenAre(shape: Shape, id: nat)
    ensures id in Children(shape) <==> InBody(shape, id)
  {
    match shape
    case If(_, elseIfs, _) => FlattenHolds(elseIfs, id);
    case Attempt(_, catches, _, _) => FlattenHolds(catches, id);
    case Arms(arms) => FlattenHolds(arms, id);
    case _ =>
  }

  /** The bodies appear whole and in source order: then, else-ifs, else; attempt, catches, otherwise, finally;
      arms and tasks as they are listed. */
  lemma ChildrenInOrder(shape: Shape)
    ensures match shape
            case If(thenBody, elseIfs, elseBody) =>
              && thenBody <= Children(shape)
              && (elseIfs == [] ==> Children(shape) == thenBody + (if elseBody.Some? then elseBody.value else []))
              && forall k :: 0 <= k < |elseIfs| ==>
                   Children(shape) == thenBody + Flatten(elseIfs[..k]) + elseIfs[k] + Flatten(elseIfs[k + 1..])
                       + if elseBody.Some? then elseBody.value else []
            case Loop(body) => Children(shape) == body
            case Attempt(tried, catches, otherwise, finallyBody) =>
              var after := (if otherwise.Some? then otherwise.value else []) +
                  if finallyBody.Some? then finallyBody.value else [];
              && tried <= Children(shape)
              && (catches == [] ==> Children(shape) == tried + after)
              && forall k :: 0 <= k < |catches| ==>
                   Children(shape) == tried + Flatten(catches[..k]) + catches[k] + Flatten(catches[k + 1..]) + after
            case Arms(arms) =>
              && (arms == [] ==> Children(shape) == [])
              && forall k :: 0 <= k < |arms| ==>
                   Children(shape) == Flatten(arms[..k]) + arms[k] + Flatten(arms[k + 1..])
            case Action(body) => Children(shape) == body
            case Plain => Children(shape) == []
  {
    hide Flatten;
    match shape
    case If(thenBody, elseIfs, elseBody) =>
      Around(thenBody, elseIfs, Maybe(elseBody));
    case Attempt(tried, catches, otherwise, finallyBody) =>
      Around(tried, catches, Maybe(otherwise) + Maybe(finallyBody));
      Grouped(tried + Flatten(catches), Maybe(otherwise), Maybe(finallyBody));
    case Arms(arms) =>
      OnlyArms(arms);
    case _ =>
  }

  lemma Grouped(a: Body, b: Body, c: Body)
    ensures a + b + c == a + (b + c)
  {
  }

  lemma AroundAt(before: Body, bodies: seq<Body>, after: Body, k: nat)
    requires k < |bodies|
    ensures before + Flatten(bodies) + after
         == before + Flatten(bodies[..k]) + bodies[k] + Flatten(bodies[k + 1..]) + after
  {
    hide Flatten;
    FlattenSplits(bodies, k);
    Regrouped(before, Flatten(bodies[..k]), bodies[k], Flatten(bodies[k + 1..]));
  }

  lemma Around(before: Body, bodies: seq<Body>, after: Body)
    ensures before <= before + Flatten(bodies) + after
    ensures bodies == [] ==> before + Flatten(bodies) + after == before + after
    ensures forall k :: 0 <= k < |bodies| ==>
        before + Flatten(bodies) + after
            == before + Flatten(bodies[..k]) + bodies[k] + Flatten(bodies[k + 1..]) + after
  {
    hide Flatten;
    EmptyBetween(before, bodies, after);
    forall k | 0 <= k < |bodies|
      ensures before + Flatten(bodies) + after
           == before + Flatten(bodies[..k]) + bodies[k] + Flatten(bodies[k + 1..]) + after
    {
      AroundAt(before, bodies, after, k);
    }
  }

  lemma EmptyBetween(before: Body, bodies: seq<Body>, after: Body)
    ensures bodies == [] ==> before + Flatten(bodies) + after == before + after
  {
    assert before + [] == before;
  }

  lemma OnlyArms(arms: seq<Body>)
    ensures arms == [] ==> Flatten(arms) == []
    ensures forall k :: 0 <= k < |arms| ==> Flatten(arms) == Flatten(arms[..k]) + arms[k] + Flatten(arms[k + 1..])
  {
    forall k | 0 <= k < |arms|
      ensures Flatten(arms) == Flatten(arms[..k]) + arms[k] + Flatten(arms[k + 1..])
    {
      FlattenSplits(arms, k);
    }
  }

  lemma Regrouped(a: Body, b: Body, c: Body, d: Body)
    ensures a + (b + c + d) == a + b + c + d
  {
  }

  lemma FlattenMore(bodies: seq<Body>, k: nat)
    requires k < |bodies|
    ensures Flatten(bodies[..k + 1]) == Flatten(bodies[..k]) + bodies[k]
  {
    FlattenSplits(bodies[..k + 1], k);
    assert bodies[..k + 1][..k] == bodies[..k] && bodies[..k + 1][k + 1..] == [];
  }

  method Extended(start: Body, bodies: seq<Body>) returns (nested: Body)
    ensures nested == start + Flatten(bodies)
  {
    nested := start;
    for k := 0 to |bodies|
      invariant nested == start + Flatten(bodies[..k])
    {
      FlattenMore(bodies, k);
      nested := nested + bodies[k];
    }
    assert bodies[..|bodies|] == bodies;
  }

  method ChildIds(shape: Shape) returns (nested: Body)
    ensures nested == Children(shape)
  {
    match shape
    case If(thenBody, elseIfs, elseBody) =>
      nested := Extended(thenBody, elseIfs);
      if elseBody.Some? {
        nested := nested + elseBody.value;
      }
    case Loop(body) =>
      nested := body;
    case Attempt(tried, catches, otherwise, finallyBody) =>
      nested := Extended(tried, catches);
      if otherwise.Some? {
        nested := nested + otherwise.value;
      }
      if finallyBody.Some? {
        nested := nested + finallyBody.value;
      }
    case Arms(arms) =>
      nested := Extended([], arms);
    case Action(body) =>
      nested := body;
    case Plain =>
      nested := [];
  }

  ghost predicate Under(ids: Body, bound: nat) {
    forall i :: 0 <= i < |ids| ==> ids[i] < bound
  }

  /** Every id is in the arena, and children come before their parents. */
  ghost predicate Forest(f: File) {
    && (forall i :: 0 <= i < |f.arena| ==> Under(Children(f.arena[i].shape), i))
    && (forall item :: item in f.items ==>
          && (item.StatementItem? ==> item.id < |f.arena|)
          && (item.ActionItem? ==> Under(item.body, |f.arena|)))
  }

  // ----- the uncapped trace -----

  datatype Range = Range(first: nat, last: nat)

  function StepAt(f: File, range: Range, text: string, start: nat): seq<Step> {
    var line := OffsetLine(f.src, start);
    if range.first <= line <= range.last then [Step(text, line)] else []
  }

  /** A statement's own step, then those of its children, in range or not. */
  ghost function Walk(f: File, range: Range, id: nat): seq<Step>
    requires Forest(f) && id < |f.arena|
    decreases id, 1, 0
  {
    StepAt(f, range, f.arena[id].text, f.arena[id].start) + WalkAll(f, range, Children(f.arena[id].shape), id)
  }

  ghost function WalkAll(f: File, range: Range, ids: Body, bound: nat): seq<Step>
    requires Forest(f) && bound <= |f.arena| && Under(ids, bound)
    decreases bound, 0, |ids|
  {
    if ids == [] then [] else Walk(f, range, ids[0]) + WalkAll(f, range, ids[1..], bound)
  }

  ghost function WalkItem(f: File, range: Range, item: Item): seq<Step>
    requires Forest(f) && item in f.items
  {
    match item
    case ActionItem(text, start, body) => StepAt(f, range, text, start) + WalkAll(f, range, body, |f.arena|)
    case VariableItem(text, start) => StepAt(f, range, text, start)
    case StatementItem(id) => Walk(f, range, id)
    case OtherItem => []
  }

  ghost function WalkItems(f: File, range: Range, items: seq<Item>): seq<Step>
    requires Forest(f) && forall item :: item in items ==> item in f.items
  {
    if items == [] then [] else WalkItem(f, range, items[0]) + WalkItems(f, range, items[1..])
  }

  // ----- what the walk shows -----

  /** `id` is `root` or nested in it at any depth. */
  ghost predicate Nested(f: File, root: nat, id: nat)
    requires root < |f.arena|
    decreases root
  {
    id == root || exists child: nat :: child < root && InBody(f.arena[root].shape, child) && Nested(f, child, id)
  }

  /** Statement `id`'s line of the trace, if it starts in the range. */
  ghost predicate IsStep(f: File, range: Range, id: nat, step: Step)
    requires id < |f.arena|
  {
    var line := 1 + |set k | 0 <= k < f.arena[id].start && k < |f.src| && f.src[k] == '\n'|;
    range.first <= line <= range.last && step == Step(f.arena[id].text, line)
  }

  ghost predicate ShownIn(f: File, range: Range, root: nat, step: Step)
    requires root < |f.arena|
  {
    exists id: nat :: id < |f.arena| && Nested(f, root, id) && IsStep(f, range, id, step)
  }

  /** A line number is one more than the newlines before the offset. */
  lemma {:induction false} NewlinesCount(s: string)
    ensures Newlines(s) == |set k | 0 <= k < |s| && s[k] == '\n'|
    decreases |s|
  {
    if s != [] {
      var n := |s| - 1;
      NewlinesCount(s[..n]);
      NewlinesSnoc(s[..n], s[n]);
      assert s == s[..n] + [s[n]];
      var before, all := set k | 0 <= k < n && s[..n][k] == '\n', set k | 0 <= k < |s| && s[k] == '\n';
      assert all == before + if s[n] == '\n' then {n} else {};
    }
  }

  lemma {:induction false} NewlinesSnoc(s: string, c: char)
    ensures Newlines(s + [c]) == Newlines(s) + if c == '\n' then 1 else 0
  {
    if s == [] {
      assert [] + [c] == [c];
    } else {
      NewlinesSnoc(s[1..], c);
      assert (s + [c])[1..] == s[1..] + [c];
    }
  }

  lemma StepIs(f: File, range: Range, id: nat, step: Step)
    requires id < |f.arena|
    ensures step in StepAt(f, range, f.arena[id].text, f.arena[id].start) <==> IsStep(f, range, id, step)
  {
    var start := f.arena[id].start;
    var before := f.src[..if start <= |f.src| then start else |f.src|];
    NewlinesCount(before);
    assert (set k | 0 <= k < |before| && before[k] == '\n') ==
        set k | 0 <= k < start && k < |f.src| && f.src[k] == '\n';
  }

  /** The walk from a statement shows exactly the in-range statements nested in it. */
  lemma {:induction false} WalkShows(f: File, range: Range, root: nat, step: Step)
    requires Forest(f) && root < |f.arena|
    ensures step in Walk(f, range, root) <==> ShownIn(f, range, root, step)
    decreases root, 1, 0
  {
    hide IsStep, StepAt, InBody, Children;
    var children := Children(f.arena[root].shape);
    assert Under(children, root);
    WalkAllShows(f, range, children, root, step);
    StepIs(f, range, root, step);
    if ShownIn(f, range, root, step) {
      var id: nat :| id < |f.arena| && Nested(f, root, id) && IsStep(f, range, id, step);
      if id != root {
        var child: nat :| child < root && InBody(f.arena[root].shape, child) && Nested(f, child, id);
        ChildrenAre(f.arena[root].shape, child);
        assert ShownIn(f, range, child, step);
      }
    }
    if IsStep(f, range, root, step) {
      assert Nested(f, root, root);
    } else if step in Walk(f, range, root) {
      var i :| 0 <= i < |children| && ShownIn(f, range, children[i], step);
      var id: nat :| id < |f.arena| && Nested(f, children[i], id) && IsStep(f, range, id, step);
      ChildrenAre(f.arena[root].shape, children[i]);
      assert Nested(f, root, id);
    }
  }

  lemma {:induction false} WalkAllShows(f: File, range: Range, ids: Body, bound: nat, step: Step)
    requires Forest(f) && bound <= |f.arena| && Under(ids, bound)
    ensures step in WalkAll(f, range, ids, bound) <==> exists i :: 0 <= i < |ids| && ShownIn(f, range, ids[i], step)
    decreases bound, 0, |ids|
  {
    hide ShownIn, Walk;
    if ids != [] {
      WalkShows(f, range, ids[0], step);
      WalkAllShows(f, range, ids[1..], bound, step);
      if i :| 0 <= i < |ids[1..]| && ShownIn(f, range, ids[1..][i], step) {
        assert ids[i + 1] == ids[1..][i];
      }
      if i :| 0 <= i < |ids| && ShownIn(f, range, ids[i], step) {
        assert i > 0 ==> ids[1..][i - 1] == ids[i];
      }
    }
  }

  // ----- the order of the walk -----

  datatype Seen = Seen(text: string, start: nat)

  /** Something shown for a statement nested in `root`. */
  ghost predicate InStmt(f: File, root: nat, s: Seen)
    requires root < |f.arena|
  {
    exists id: nat :: id < |f.arena| && Nested(f, root, id) && s == Seen(f.arena[id].text, f.arena[id].start)
  }

  ghost predicate InList(f: File, ids: Body, s: Seen)
    requires Under(ids, |f.arena|)
  {
    exists k :: 0 <= k < |ids| && InStmt(f, ids[k], s)
  }

  ghost predicate InItem(f: File, item: Item, s: Seen)
    requires Forest(f) && item in f.items
  {
    match item
    case ActionItem(text, start, body) => s == Seen(text, start) || InList(f, body, s)
    case VariableItem(text, start) => s == Seen(text, start)
    case StatementItem(id) => InStmt(f, id, s)
    case OtherItem => false
  }

  /** Listed statements follow one another in the text, with all that is nested in them. */
  ghost predicate Follow(f: File, ids: Body)
    requires Under(ids, |f.arena|)
  {
    forall a, b, s, t :: 0 <= a < b < |ids| && InStmt(f, ids[a], s) && InStmt(f, ids[b], t) ==> s.start < t.start
  }

  /** A file as it is parsed: what is nested in something starts behind it, and what is listed earlier starts
      earlier. */
  ghost predicate SourceOrdered(f: File)
    requires Forest(f)
  {
    && (forall root :: 0 <= root < |f.arena| ==>
          var children := Children(f.arena[root].shape);
          Under(children, |f.arena|) && Follow(f, children) &&
              forall s :: InList(f, children, s) ==> f.arena[root].start < s.start)
    && (forall item :: item in f.items && item.ActionItem? ==>
          Follow(f, item.body) && forall s :: InList(f, item.body, s) ==> item.start < s.start)
    && forall a, b, s, t :: 0 <= a < b < |f.items| && InItem(f, f.items[a], s) && InItem(f, f.items[b], t) ==>
         s.start < t.start
  }

  ghost predicate Ascends(seen: seq<Seen>) {
    forall a, b :: 0 <= a < b < |seen| ==> seen[a].start < seen[b].start
  }

  function Shown(f: File, range: Range, seen: seq<Seen>): seq<Step> {
    if seen == [] then [] else StepAt(f, range, seen[0].text, seen[0].start) + Shown(f, range, seen[1..])
  }

  lemma {:induction false} ShownTogether(f: File, range: Range, a: seq<Seen>, b: seq<Seen>)
    ensures Shown(f, range, a + b) == Shown(f, range, a) + Shown(f, range, b)
  {
    hide StepAt;
    if a == [] {
      assert a + b == b;
    } else {
      ShownTogether(f, range, a[1..], b);
      assert (a + b)[1..] == a[1..] + b && (a + b)[0] == a[0];
      Regroup(StepAt(f, range, a[0].text, a[0].start), Shown(f, range, a[1..]), Shown(f, range, b));
    }
  }

  lemma AscendTogether(a: seq<Seen>, b: seq<Seen>)
    requires Ascends(a) && Ascends(b) && forall s, t :: s in a && t in b ==> s.start < t.start
    ensures Ascends(a + b)
  {
  }

  lemma InStmtStep(f: File, root: nat, s: Seen)
    requires Forest(f) && root < |f.arena|
    ensures Under(Children(f.arena[root].shape), |f.arena|)
    ensures InStmt(f, root, s) <==>
              s == Seen(f.arena[root].text, f.arena[root].start) || InList(f, Children(f.arena[root].shape), s)
  {
    hide Children, InBody;
    var children := Children(f.arena[root].shape);
    assert Under(children, root);
    if InStmt(f, root, s) {
      var id: nat :| id < |f.arena| && Nested(f, root, id) && s == Seen(f.arena[id].text, f.arena[id].start);
      if id != root {
        var child: nat :| child < root && InBody(f.arena[root].shape, child) && Nested(f, child, id);
        ChildrenAre(f.arena[root].shape, child);
        assert InStmt(f, child, s);
      }
    }
    if InList(f, children, s) {
      var k :| 0 <= k < |children| && InStmt(f, children[k], s);
      ChildrenAre(f.arena[root].shape, children[k]);
      var id: nat :| id < |f.arena| && Nested(f, children[k], id) && s == Seen(f.arena[id].text, f.arena[id].start);
      assert Nested(f, root, id);
    }
    if s == Seen(f.arena[root].text, f.arena[root].start) {
      assert Nested(f, root, root);
    }
  }

  lemma {:induction false} WalkInOrder(f: File, range: Range, root: nat) returns (seen: seq<Seen>)
    requires Forest(f) && SourceOrdered(f) && root < |f.arena|
    ensures Walk(f, range, root) == Shown(f, range, seen) && Ascends(seen)
    ensures forall s :: s in seen <==> InStmt(f, root, s)
    decreases root, 1, 0
  {
    hide StepAt, InStmt, Children, Follow;
    var own, children := Seen(f.arena[root].text, f.arena[root].start), Children(f.arena[root].shape);
    assert Under(children, root) && Follow(f, children);
    var below := WalkAllInOrder(f, range, children, root);
    seen := [own] + below;
    assert seen[1..] == below;
    forall s
      ensures s in seen <==> InStmt(f, root, s)
    {
      InStmtStep(f, root, s);
    }
  }

  lemma {:induction false} WalkAllInOrder(f: File, range: Range, ids: Body, bound: nat) returns (seen: seq<Seen>)
    requires Forest(f) && SourceOrdered(f) && bound <= |f.arena| && Under(ids, bound) && Follow(f, ids)
    ensures WalkAll(f, range, ids, bound) == Shown(f, range, seen) && Ascends(seen)
    ensures forall s :: s in seen <==> InList(f, ids, s)
    decreases bound, 0, |ids|
  {
    hide InStmt, Walk, SourceOrdered, Forest, Ascends, Children, Follow, StepAt, Shown, InList;
    if ids == [] {
      seen := [];
      NothingWalked(f, range, ids, bound);
    } else {
      var first := WalkInOrder(f, range, ids[0]);
      FollowRest(f, ids);
      var rest := WalkAllInOrder(f, range, ids[1..], bound);
      seen := first + rest;
      ShownTogether(f, range, first, rest);
      forall s
        ensures InList(f, ids, s) <==> InStmt(f, ids[0], s) || InList(f, ids[1..], s)
      {
        ListStep(f, ids, s);
      }
      forall s, t | s in first && t in rest
        ensures s.start < t.start
      {
        FirstBefore(f, ids, s, t);
      }
      AscendTogether(first, rest);
    }
  }

  lemma FirstBefore(f: File, ids: Body, s: Seen, t: Seen)
    requires Under(ids, |f.arena|) && ids != [] && Follow(f, ids)
    requires InStmt(f, ids[0], s) && Under(ids[1..], |f.arena|) && InList(f, ids[1..], t)
    ensures s.start < t.start
  {
    hide InStmt;
    var k :| 0 <= k < |ids[1..]| && InStmt(f, ids[1..][k], t);
    assert ids[1..][k] == ids[k + 1];
  }

  lemma NothingAscends()
    ensures Ascends([])
  {
  }

  lemma NothingWalked(f: File, range: Range, ids: Body, bound: nat)
    requires Forest(f) && bound <= |f.arena| && Under(ids, bound) && ids == []
    ensures WalkAll(f, range, ids, bound) == Shown(f, range, []) && Ascends([])
    ensures forall s :: !InList(f, ids, s)
  {
  }

  lemma ListStep(f: File, ids: Body, s: Seen)
    requires Under(ids, |f.arena|) && ids != []
    ensures Under(ids[1..], |f.arena|)
    ensures InList(f, ids, s) <==> InStmt(f, ids[0], s) || InList(f, ids[1..], s)
  {
    hide InStmt;
    if InList(f, ids[1..], s) {
      var k :| 0 <= k < |ids[1..]| && InStmt(f, ids[1..][k], s);
      assert ids[k + 1] == ids[1..][k];
    }
    if k :| 0 < k < |ids| && InStmt(f, ids[k], s) {
      assert ids[1..][k - 1] == ids[k];
    }
  }

  lemma FollowRest(f: File, ids: Body)
    requires Under(ids, |f.arena|) && ids != [] && Follow(f, ids)
    ensures Under(ids[1..], |f.arena|) && Follow(f, ids[1..])
  {
    hide InStmt;
    forall a, b, s, t | 0 <= a < b < |ids[1..]| && InStmt(f, ids[1..][a], s) && InStmt(f, ids[1..][b], t)
      ensures s.start < t.start
    {
      assert ids[1..][a] == ids[a + 1] && ids[1..][b] == ids[b + 1];
    }
  }

  lemma ItemInOrder(f: File, range: Range, item: Item) returns (seen: seq<Seen>)
    requires Forest(f) && SourceOrdered(f) && item in f.items
    ensures WalkItem(f, range, item) == Shown(f, range, seen) && Ascends(seen)
    ensures forall s :: s in seen <==> InItem(f, item, s)
  {
    hide StepAt, InStmt, Walk;
    match item
    case ActionItem(text, start, body) =>
      var below := WalkAllInOrder(f, range, body, |f.arena|);
      seen := [Seen(text, start)] + below;
      assert seen[1..] == below;
    case VariableItem(text, start) =>
      seen := [Seen(text, start)];
      assert seen[1..] == [];
    case StatementItem(id) =>
      seen := WalkInOrder(f, range, id);
    case OtherItem =>
      seen := [];
  }

  lemma {:induction false} ItemsInOrder(f: File, range: Range, n: nat) returns (seen: seq<Seen>)
    requires Forest(f) && SourceOrdered(f) && n <= |f.items|
    ensures WalkItems(f, range, f.items[n..]) == Shown(f, range, seen) && Ascends(seen)
    ensures forall s :: s in seen <==> exists k :: n <= k < |f.items| && InItem(f, f.items[k], s)
    decreases |f.items| - n
  {
    hide InItem, WalkItem, Ascends;
    if n == |f.items| {
      seen := [];
      NothingAscends();
    } else {
      var first := ItemInOrder(f, range, f.items[n]);
      var rest := ItemsInOrder(f, range, n + 1);
      assert f.items[n..][1..] == f.items[n + 1..];
      seen := first + rest;
      ShownTogether(f, range, first, rest);
      AscendTogether(first, rest);
    }
  }

  /** For a file as it is parsed, the uncapped trace shows the in-range ones among all statements of its actions
      and at its top level, however deeply nested, each once and in the order in which they start. */
  lemma TraceIsInOrder(f: File, range: Range) returns (seen: seq<Seen>)
    requires Forest(f) && SourceOrdered(f)
    ensures WalkItems(f, range, f.items) == Shown(f, range, seen)
    ensures forall a, b :: 0 <= a < b < |seen| ==> seen[a].start < seen[b].start
    ensures forall s :: s in seen <==> exists k :: 0 <= k < |f.items| && InItem(f, f.items[k], s)
  {
    hide InItem, WalkItem;
    seen := ItemsInOrder(f, range, 0);
    assert f.items[0..] == f.items;
  }

  function Prefix(steps: seq<Step>): seq<Step> {
    if |steps| <= MAX_STEPS then steps else steps[..MAX_STEPS]
  }

  /** What the trace holds after visiting what yields `full` uncapped: its first steps, and the flag
      exactly once the cap is reached. */
  ghost predicate Capped(steps: seq<Step>, truncated: bool, full: seq<Step>) {
    steps == Prefix(full) && (truncated <==> |full| >= MAX_STEPS)
  }

  lemma CappedStays(steps: seq<Step>, full: seq<Step>, more: seq<Step>)
    requires Capped(steps, true, full)
    ensures Capped(steps, true, full + more)
  {
  }

  // ----- the collector -----

  class Tracer {
    var steps: seq<Step>
    var truncated: bool

    constructor ()
      ensures steps == [] && !truncated
    {
      steps, truncated := [], false;
    }

    method Push(f: File, range: Range, text: string, start: nat, ghost full: seq<Step>)
      requires Capped(steps, truncated, full) && !truncated
      modifies this
      ensures Capped(steps, truncated, full + StepAt(f, range, text, start))
    {
      var line := OffsetLine(f.src, start);
      if range.first <= line <= range.last {
        steps := steps + [Step(text, line)];
        if |steps| >= MAX_STEPS {
          truncated := true;
        }
      } else {
        assert full + [] == full;
      }
    }

    method CollectStmt(f: File, range: Range, id: nat, ghost full: seq<Step>)
      requires Forest(f) && id < |f.arena| && Capped(steps, truncated, full) && !truncated
      modifies this
      ensures Capped(steps, truncated, full + Walk(f, range, id))
      decreases id, 1
    {
      var stmt := f.arena[id];
      ghost var own, rest := StepAt(f, range, stmt.text, stmt.start), WalkAll(f, range, Children(stmt.shape), id);
      Push(f, range, stmt.text, stmt.start, full);
      assert full + Walk(f, range, id) == full + own + rest;
      if truncated {
        CappedStays(steps, full + own, rest);
        return;
      }
      var children := ChildIds(stmt.shape);
      CollectStmts(f, range, children, id, full + own);
    }

    method CollectStmts(f: File, range: Range, ids: Body, ghost bound: nat, ghost full: seq<Step>)
      requires Forest(f) && bound <= |f.arena| && Under(ids, bound)
      requires Capped(steps, truncated, full)
      modifies this
      ensures Capped(steps, truncated, full + WalkAll(f, range, ids, bound))
      decreases bound, 0, |ids|
    {
      hide Capped, Forest, Walk, Children;
      ghost var so := full;
      assert ids[0..] == ids;
      for i := 0 to |ids|
        invariant Capped(steps, truncated, so)
        invariant so + WalkAll(f, range, ids[i..], bound) == full + WalkAll(f, range, ids, bound)
      {
        assert ids[i..][1..] == ids[i + 1..];
        if truncated {
          CappedStays(steps, so, WalkAll(f, range, ids[i..], bound));
          return;
        }
        CollectStmt(f, range, ids[i], so);
        Regroup(so, Walk(f, range, ids[i]), WalkAll(f, range, ids[i + 1..], bound));
        so := so + Walk(f, range, ids[i]);
      }
      assert so + [] == so;
    }

    method CollectItem(f: File, range: Range, item: Item, ghost full: seq<Step>)
      requires Forest(f) && item in f.items && Capped(steps, truncated, full) && !truncated
      modifies this
      ensures Capped(steps, truncated, full + WalkItem(f, range, item))
    {
      match item
      case ActionItem(text, start, body) =>
        ghost var own, rest := StepAt(f, range, text, start), WalkAll(f, range, body, |f.arena|);
        Push(f, range, text, start, full);
        assert full + WalkItem(f, range, item) == full + own + rest;
        if truncated {
          CappedStays(steps, full + own, rest);
          return;
        }
        CollectStmts(f, range, body, |f.arena|, full + own);
      case VariableItem(text, start) =>
        Push(f, range, text, start, full);
      case StatementItem(id) =>
        CollectStmt(f, range, id, full);
      case OtherItem =>
        assert full + [] == full;
    }
  }

  lemma Regroup(a: seq<Step>, b: seq<Step>, c: seq<Step>)
    ensures a + (b + c) == a + b + c
  {
  }

  /** The trace is the first steps of the uncapped in-range preorder walk, and it is marked truncated
      exactly when that walk has at least 250 steps. */
  method BuildStaticTrace(f: File, range: Range) returns (steps: seq<Step>, truncated: bool)
    requires Forest(f)
    ensures steps <= WalkItems(f, range, f.items)
    ensures |steps| == |WalkItems(f, range, f.items)| || |steps| == MAX_STEPS < |WalkItems(f, range, f.items)|
    ensures truncated <==> |WalkItems(f, range, f.items)| >= MAX_STEPS
  {
    hide Forest, WalkItem;
    var tracer := new Tracer();
    ghost var so: seq<Step> := [];
    assert f.items[0..] == f.items;
    for i := 0 to |f.items|
      invariant Capped(tracer.steps, tracer.truncated, so)
      invariant so + WalkItems(f, range, f.items[i..]) == WalkItems(f, range, f.items)
    {
      assert f.items[i..][1..] == f.items[i + 1..];
      if tracer.truncated {
        CappedStays(tracer.steps, so, WalkItems(f, range, f.items[i..]));
        return tracer.steps, tracer.truncated;
      }
      tracer.CollectItem(f, range, f.items[i], so);
      Regroup(so, WalkItem(f, range, f.items[i]), WalkItems(f, range, f.items[i + 1..]));
      so := so + WalkItem(f, range, f.items[i]);
    }
    assert so + [] == so;
    return tracer.steps, tracer.truncated;
  }
}
