// Accepting proposed hunks: the whole batch if it does not make the diagnostics worse, else one hunk at a
// time, keeping those that do not (crates/fidan-cli/src/fix.rs).

module FixLoop {
  import opened Text
  import opened Options
  import opened LineDiff
  import opened Sorting
  import opened Splicing
  import opened HunkApply
  import opened HunkOrder

  /** What analysing a source yields, as counted. */
  datatype State = State(lex: nat, parse: nat, types: nat, diagnostics: nat)

  datatype Mode = Diagnostics | Improve

  /** Lexicographic order of the scores. */
  predicate Lower(a: State, b: State) {
    || a.lex < b.lex
    || (a.lex == b.lex && a.parse < b.parse)
    || (a.lex == b.lex && a.parse == b.parse && a.types < b.types)
    || (a.lex == b.lex && a.parse == b.parse && a.types == b.types && a.diagnostics < b.diagnostics)
  }

  /** A candidate must lower the score, or in Improve mode not raise it. */
  predicate Acceptable(candidate: State, baseline: State, mode: Mode) {
    match mode
    case Diagnostics => Lower(candidate, baseline)
    case Improve => Lower(candidate, baseline) || candidate == baseline
  }

  lemma AcceptableChain(a: State, b: State, c: State, mode: Mode)
    requires Acceptable(a, b, mode) && Acceptable(b, c, mode)
    ensures Acceptable(a, c, mode)
  {
  }

  /** Lexing errors count before parse errors, those before type errors, and those before the number of
      diagnostics; a candidate may raise the score in no mode, and in Diagnostics mode must lower it. */
  lemma ScoresCompare(a: State, b: State)
    ensures var x, y := [a.lex, a.parse, a.types, a.diagnostics], [b.lex, b.parse, b.types, b.diagnostics];
            Lower(a, b) <==> exists k :: 0 <= k < 4 && x[..k] == y[..k] && x[k] < y[k]
    ensures Acceptable(a, b, Diagnostics) <==> Lower(a, b)
    ensures Acceptable(a, b, Improve) <==> !Lower(b, a)
  {
    var x, y := [a.lex, a.parse, a.types, a.diagnostics], [b.lex, b.parse, b.types, b.diagnostics];
    assert x[0] == y[0] ==> x[..1] == y[..1];
    assert x[0] == y[0] && x[1] == y[1] ==> x[..2] == y[..2];
    assert x[0] == y[0] && x[1] == y[1] && x[2] == y[2] ==> x[..3] == y[..3];
    assert x[..0] == y[..0];
    if Lower(a, b) {
      var k := if a.lex < b.lex then 0 else if a.parse < b.parse then 1 else if a.types < b.types then 2 else 3;
      assert x[..k] == y[..k] && x[k] < y[k];
    } else if k :| 0 <= k < 4 && x[..k] == y[..k] && x[k] < y[k] {
      assert forall j :: 0 <= j < k ==> x[j] == x[..k][j] == y[..k][j] == y[j];
    }
  }

  datatype Selection = Selection(source: string, accepted: seq<Applied>, rejected: nat)

  /** The one-at-a-time loop from a current source and its state. */
  function Continue(analyze: string -> State, mode: Mode, source: string, state: State,
      hunks: seq<Hunk>): Option<Selection>
    decreases |hunks|
  {
    if hunks == [] then Some(Selection(source, [], 0))
    else
      match BatchText(source, [hunks[0]])
      case None => None
      case Some((candidate, applied)) =>
        var next := analyze(candidate);
        if applied != [] && Acceptable(next, state, mode) then
          match Continue(analyze, mode, candidate, next, hunks[1..])
          case None => None
          case Some(rest) => Some(rest.(accepted := applied + rest.accepted))
        else
          match Continue(analyze, mode, source, state, hunks[1..])
          case None => None
          case Some(rest) => Some(rest.(rejected := rest.rejected + 1))
  }

  function Select(analyze: string -> State, mode: Mode, source: string, baseline: State,
      hunks: seq<Hunk>): Option<Selection> {
    if hunks == [] then Some(Selection(source, [], 0))
    else
      match BatchText(source, hunks)
      case None => None
      case Some((candidate, applied)) =>
        if applied != [] && Acceptable(analyze(candidate), baseline, mode) then
          Some(Selection(candidate, applied, Less(|hunks|, |applied|)))
        else
          match Continue(analyze, mode, source, baseline, Sort(LaterHunk, hunks))
          case None => None
          case Some(rest) => Some(rest.(accepted := Sort(EarlierLine, rest.accepted)))
  }

  method SelectHunks(analyze: string -> State, mode: Mode, source: string, baseline: State, hunks: seq<Hunk>)
      returns (r: Option<Selection>)
    ensures r == Select(analyze, mode, source, baseline, hunks)
  {
    hide BatchText, Acceptable;
    if hunks == [] {
      return Some(Selection(source, [], 0));
    }
    var batch := ApplyHunks(source, hunks);
    if batch == None {
      return None;
    }
    if batch.value.1 != [] && Acceptable(analyze(batch.value.0), baseline, mode) {
      return Some(Selection(batch.value.0, batch.value.1, Less(|hunks|, |batch.value.1|)));
    }
    var current, state := source, baseline;
    var accepted: seq<Applied>, rejected := [], 0;
    var ordered := Sort(LaterHunk, hunks);
    assert ordered[0..] == ordered;
    TogetherEnds([], 0, source, Continue(analyze, mode, source, baseline, ordered));
    for i := 0 to |ordered|
      invariant Continue(analyze, mode, source, baseline, ordered)
             == Together(accepted, rejected, Continue(analyze, mode, current, state, ordered[i..]))
      invariant baseline == analyze(source) ==> state == analyze(current)
      invariant accepted != [] ==> state == analyze(current)
    {
      assert ordered[i..][1..] == ordered[i + 1..];
      ghost var took, refused := accepted, rejected;
      var one := ApplyHunks(current, [ordered[i]]);
      if one == None {
        return None;
      }
      if one.value.1 == [] {
        rejected := rejected + 1;
      } else {
        var candidate := analyze(one.value.0);
        if Acceptable(candidate, state, mode) {
          current, state := one.value.0, candidate;
          accepted := accepted + one.value.1;
        } else {
          rejected := rejected + 1;
        }
      }
      ghost var rest := Continue(analyze, mode, current, state, ordered[i + 1..]);
      if rest.Some? {
        TogetherOne(took, refused, one.value.1, rest);
      }
    }
    TogetherEnds(accepted, rejected, current, None);
    assert Continue(analyze, mode, source, baseline, ordered) == Some(Selection(current, accepted, rejected));
    r := Some(Selection(current, Sort(EarlierLine, accepted), rejected));
  }

  function Together(accepted: seq<Applied>, rejected: nat, rest: Option<Selection>): Option<Selection> {
    match rest
    case None => None
    case Some(s) => Some(Selection(s.source, accepted + s.accepted, rejected + s.rejected))
  }

  lemma TogetherEnds(accepted: seq<Applied>, rejected: nat, source: string, rest: Option<Selection>)
    ensures Together([], 0, rest) == rest
    ensures Together(accepted, rejected, Some(Selection(source, [], 0))) == Some(Selection(source, accepted, rejected))
  {
    assert accepted + [] == accepted;
    if rest.Some? {
      assert [] + rest.value.accepted == rest.value.accepted;
    }
  }

  lemma TogetherOne(accepted: seq<Applied>, rejected: nat, applied: seq<Applied>, rest: Option<Selection>)
    requires rest.Some?
    ensures Together(accepted, rejected, Some(rest.value.(accepted := applied + rest.value.accepted)))
         == Together(accepted + applied, rejected, rest)
    ensures Together(accepted, rejected, Some(rest.value.(rejected := rest.value.rejected + 1)))
         == Together(accepted, rejected + 1, rest)
  {
    assert accepted + (applied + rest.value.accepted) == accepted + applied + rest.value.accepted;
  }

  // ----- what is promised -----

  lemma OneApplied(source: string, h: Hunk)
    requires BatchText(source, [h]).Some?
    ensures |BatchText(source, [h]).value.1| <= 1
  {
    hide Batch, Resolve, Splice, Lines, Joined;
    BatchOfOne(Lines(source), h);
  }

  lemma {:induction false} ResolvedCount(lines: seq<Line>, hunks: seq<Hunk>)
    ensures |ResolveAll(lines, hunks)| <= |hunks|
  {
    hide Resolve;
    if hunks != [] {
      ResolvedCount(lines, hunks[1..]);
    }
  }

  lemma SortLength<T>(less: (T, T) -> bool, s: seq<T>)
    ensures |Sort(less, s)| == |s|
  {
    SortCounts(less, s);
    assert |multiset(Sort(less, s))| == |Sort(less, s)| && |multiset(s)| == |s|;
  }

  lemma BatchCount(source: string, hunks: seq<Hunk>)
    requires BatchText(source, hunks).Some?
    ensures |BatchText(source, hunks).value.1| <= |hunks|
  {
    hide Resolve, Lines, Joined;
    var rs := ResolveAll(Lines(source), hunks);
    ResolvedCount(Lines(source), hunks);
    SortLength(LaterStart, rs);
    SortLength(EarlierLine, Displays(Sort(LaterStart, rs)));
  }

  /** Going on from a state: every hunk is accepted or rejected; nothing accepted leaves the source as it
      is; and whatever was accepted, the source now analyses to an acceptable state. */
  lemma {:induction false} ContinueKeepsPromises(analyze: string -> State, mode: Mode, source: string,
      state: State, hunks: seq<Hunk>)
    requires Continue(analyze, mode, source, state, hunks).Some?
    ensures var r := Continue(analyze, mode, source, state, hunks).value;
            && |r.accepted| + r.rejected == |hunks|
            && (r.accepted == [] ==> r.source == source)
            && (r.accepted != [] ==> Acceptable(analyze(r.source), state, mode))
    decreases |hunks|
  {
    hide BatchText, Acceptable;
    if hunks != [] {
      OneApplied(source, hunks[0]);
      var (candidate, applied) := BatchText(source, [hunks[0]]).value;
      var next := analyze(candidate);
      if applied != [] && Acceptable(next, state, mode) {
        ContinueKeepsPromises(analyze, mode, candidate, next, hunks[1..]);
        var rest := Continue(analyze, mode, candidate, next, hunks[1..]).value;
        if rest.accepted != [] {
          AcceptableChain(analyze(rest.source), next, state, mode);
        }
      } else {
        ContinueKeepsPromises(analyze, mode, source, state, hunks[1..]);
      }
    }
  }

  /** The outcome of a selection: accepted and rejected hunks add up; without an accepted hunk the source
      is unchanged; with one, its score is strictly below the baseline in Diagnostics mode and not above
      it in Improve mode. */
  lemma SelectionPromises(analyze: string -> State, mode: Mode, source: string, baseline: State, hunks: seq<Hunk>)
    requires Select(analyze, mode, source, baseline, hunks).Some?
    ensures var r := Select(analyze, mode, source, baseline, hunks).value;
            && |r.accepted| + r.rejected == |hunks|
            && (r.accepted == [] ==> r.source == source)
            && (r.accepted != [] && mode == Diagnostics ==> Lower(analyze(r.source), baseline))
            && (r.accepted != [] && mode == Improve ==> !Lower(baseline, analyze(r.source)))
  {
    hide BatchText, Continue;
    if hunks != [] {
      BatchCount(source, hunks);
      var (candidate, applied) := BatchText(source, hunks).value;
      if !(applied != [] && Acceptable(analyze(candidate), baseline, mode)) {
        var sorted := Sort(LaterHunk, hunks);
        SortLength(LaterHunk, hunks);
        ContinueKeepsPromises(analyze, mode, source, baseline, sorted);
        SortLength(EarlierLine, Continue(analyze, mode, source, baseline, sorted).value.accepted);
      }
    }
  }

  // ----- what one run of the loop is -----

  /** One hunk tried on a source in a state: it is taken exactly if it applies and what it leaves analyses to an
      acceptable state; otherwise nothing changes. `note` is what it reports. */
  ghost predicate TriedOne(analyze: string -> State, mode: Mode, h: Hunk, source: string, state: State,
      source': string, state': State, note: seq<Applied>)
  {
    && BatchText(source, [h]).Some?
    && var (candidate, applied) := BatchText(source, [h]).value;
       if applied != [] && Acceptable(analyze(candidate), state, mode)
       then source' == candidate && state' == analyze(candidate) && note == applied
       else source' == source && state' == state && note == []
  }

  function Joint(notes: seq<seq<Applied>>): seq<Applied> {
    if notes == [] then [] else notes[0] + Joint(notes[1..])
  }

  /** One hunk after another, each on what its predecessors left. */
  ghost predicate TriedAll(analyze: string -> State, mode: Mode, hunks: seq<Hunk>, sources: seq<string>,
      states: seq<State>, notes: seq<seq<Applied>>)
  {
    && |sources| == |states| == |hunks| + 1 && |notes| == |hunks|
    && forall k :: 0 <= k < |hunks| ==>
         TriedOne(analyze, mode, hunks[k], sources[k], states[k], sources[k + 1], states[k + 1], notes[k])
  }

  lemma TriedCons(analyze: string -> State, mode: Mode, hunks: seq<Hunk>, source: string, state: State,
      note: seq<Applied>, sources: seq<string>, states: seq<State>, notes: seq<seq<Applied>>)
    requires hunks != [] && TriedAll(analyze, mode, hunks[1..], sources, states, notes)
    requires TriedOne(analyze, mode, hunks[0], source, state, sources[0], states[0], note)
    ensures TriedAll(analyze, mode, hunks, [source] + sources, [state] + states, [note] + notes)
  {
    hide TriedOne;
    forall k | 0 < k < |hunks|
      ensures TriedOne(analyze, mode, hunks[k], ([source] + sources)[k], ([state] + states)[k],
          ([source] + sources)[k + 1], ([state] + states)[k + 1], ([note] + notes)[k])
    {
      assert TriedOne(analyze, mode, hunks[1..][k - 1], sources[k - 1], states[k - 1], sources[k], states[k],
          notes[k - 1]);
    }
  }

  lemma {:induction false} ContinueTries(analyze: string -> State, mode: Mode, source: string, state: State,
      hunks: seq<Hunk>) returns (sources: seq<string>, states: seq<State>, notes: seq<seq<Applied>>)
    ensures Continue(analyze, mode, source, state, hunks).Some?
    ensures TriedAll(analyze, mode, hunks, sources, states, notes)
    ensures sources[0] == source && states[0] == state
    ensures var r := Continue(analyze, mode, source, state, hunks).value;
            r.source == sources[|hunks|] && r.accepted == Joint(notes)
    decreases |hunks|
  {
    hide BatchText, Acceptable, TriedAll;
    if hunks == [] {
      sources, states, notes := [source], [state], [];
      assert TriedAll(analyze, mode, hunks, sources, states, notes) by {
        TriedNone(analyze, mode, source, state);
      }
    } else {
      OneAlwaysApplies(source, hunks[0]);
      var (candidate, applied) := BatchText(source, [hunks[0]]).value;
      var taken := applied != [] && Acceptable(analyze(candidate), state, mode);
      var source1, state1 := if taken then candidate else source, if taken then analyze(candidate) else state;
      var note := if taken then applied else [];
      var more, later, rest := ContinueTries(analyze, mode, source1, state1, hunks[1..]);
      TriedCons(analyze, mode, hunks, source, state, note, more, later, rest);
      TriedLengths(analyze, mode, hunks[1..], more, later, rest);
      sources, states, notes := [source] + more, [state] + later, [note] + rest;
      assert notes[1..] == rest;
    }
  }

  lemma TriedNone(analyze: string -> State, mode: Mode, source: string, state: State)
    ensures TriedAll(analyze, mode, [], [source], [state], [])
  {
  }

  lemma TriedLengths(analyze: string -> State, mode: Mode, hunks: seq<Hunk>, sources: seq<string>,
      states: seq<State>, notes: seq<seq<Applied>>)
    requires TriedAll(analyze, mode, hunks, sources, states, notes)
    ensures |sources| == |states| == |hunks| + 1 && |notes| == |hunks|
  {
  }

  lemma OneAlwaysApplies(source: string, h: Hunk)
    ensures BatchText(source, [h]).Some?
  {
    hide Batch, Resolve, Splice, Lines, Joined;
    BatchOfOne(Lines(source), h);
  }

  /** The hunks meant for these lines, as they are listed. */
  function Spanning(hunks: seq<Hunk>, start: nat, end: nat): seq<Hunk> {
    Filter((h: Hunk) => h.lineStart == start && h.lineEnd == end, hunks)
  }

  function OnLine(edits: seq<Applied>, line: nat): seq<Applied> {
    Filter((a: Applied) => a.lineStart == line, edits)
  }

  /** The hunks of a selection, in the order they are tried: last line first, of those that start together the
      one that ends last first, and of those that also end together the one proposed first. */
  ghost predicate LastFirst(hunks: seq<Hunk>, order: seq<Hunk>) {
    && multiset(order) == multiset(hunks)
    && (forall start, end :: Spanning(order, start, end) == Spanning(hunks, start, end))
    && forall i, j :: 0 <= i < j < |order| ==>
         || order[i].lineStart > order[j].lineStart
         || (order[i].lineStart == order[j].lineStart && order[i].lineEnd >= order[j].lineEnd)
  }

  /** The accepted edits, in order of line. */
  ghost predicate InLineOrder(edits: seq<Applied>, listed: seq<Applied>) {
    && multiset(listed) == multiset(edits)
    && (forall line :: OnLine(listed, line) == OnLine(edits, line))
    && forall i, j :: 0 <= i < j < |listed| ==> listed[i].lineStart <= listed[j].lineStart
  }

  /** What a selection is. If the whole batch changes something and is acceptable, it is the result. Otherwise
      every hunk is tried in turn, last line first: each source is the one before with that hunk applied, exactly
      if that changes something and is acceptable against the state reached, and the source before it otherwise;
      the last one is the result, and the hunks taken are listed in order of line. */
  lemma SelectionTries(analyze: string -> State, mode: Mode, source: string, baseline: State, hunks: seq<Hunk>)
    requires hunks != []
    ensures Select(analyze, mode, source, baseline, hunks).Some? <==> BatchText(source, hunks).Some?
    ensures BatchText(source, hunks).Some? ==>
              var r, batch := Select(analyze, mode, source, baseline, hunks).value, BatchText(source, hunks).value;
              if batch.1 != [] && Acceptable(analyze(batch.0), baseline, mode)
              then r.source == batch.0 && r.accepted == batch.1 && r.rejected == |hunks| - |batch.1|
              else exists order, sources, states, notes ::
                     && LastFirst(hunks, order) && TriedAll(analyze, mode, order, sources, states, notes)
                     && sources[0] == source && states[0] == baseline && sources[|order|] == r.source
                     && InLineOrder(Joint(notes), r.accepted) && r.rejected == |hunks| - |r.accepted|
  {
    hide BatchText, Acceptable, Continue, TriedAll, Joint;
    if BatchText(source, hunks).Some? {
      BatchCount(source, hunks);
      var order := Sort(LaterHunk, hunks);
      SortLength(LaterHunk, hunks);
      var sources, states, notes := ContinueTries(analyze, mode, source, baseline, order);
      TriedLengths(analyze, mode, order, sources, states, notes);
      SelectionPromises(analyze, mode, source, baseline, hunks);
      TriedLastFirst(hunks);
      ListedInOrder(Joint(notes));
    }
  }

  lemma TriedLastFirst(hunks: seq<Hunk>)
    ensures LastFirst(hunks, Sort(LaterHunk, hunks))
  {
    var order := Sort(LaterHunk, hunks);
    SortCounts(LaterHunk, hunks);
    SortOrdered(LaterHunk, hunks);
    assert forall i, j :: 0 <= i < j < |order| ==> !LaterHunk(order[j], order[i]);
    forall start, end
      ensures Spanning(order, start, end) == Spanning(hunks, start, end)
    {
      SortStable(LaterHunk, (h: Hunk) => h.lineStart == start && h.lineEnd == end, hunks);
    }
  }

  lemma ListedInOrder(edits: seq<Applied>)
    ensures InLineOrder(edits, Sort(EarlierLine, edits))
  {
    forall line
      ensures OnLine(Sort(EarlierLine, edits), line) == OnLine(edits, line)
    {
      SortStable(EarlierLine, (a: Applied) => a.lineStart == line, edits);
    }
    SortCounts(EarlierLine, edits);
    SortOrdered(EarlierLine, edits);
    var listed := Sort(EarlierLine, edits);
    assert forall i, j :: 0 <= i < j < |listed| ==> !EarlierLine(listed[j], listed[i]);
  }

  /** Source and state after `k` hunks of the one-at-a-time loop. */
  function Reached(analyze: string -> State, mode: Mode, source: string, state: State, hunks: seq<Hunk>,
      k: nat): (string, State)
    requires k <= |hunks|
    decreases k
  {
    if k == 0 then (source, state)
    else
      match BatchText(source, [hunks[0]])
      case None => (source, state)
      case Some((candidate, applied)) =>
        if applied != [] && Acceptable(analyze(candidate), state, mode) then
          Reached(analyze, mode, candidate, analyze(candidate), hunks[1..], k - 1)
        else Reached(analyze, mode, source, state, hunks[1..], k - 1)
  }

  /** At every point of the loop the state is the analysis of the source, its score has not risen, and in
      Diagnostics mode it has fallen strictly unless the source is still the first one. */
  lemma {:induction false} StateIsAnalysis(analyze: string -> State, mode: Mode, source: string,
      hunks: seq<Hunk>, k: nat)
    requires k <= |hunks|
    ensures var (current, state) := Reached(analyze, mode, source, analyze(source), hunks, k);
            && state == analyze(current)
            && !Lower(analyze(source), state)
            && (current != source && mode == Diagnostics ==> Lower(state, analyze(source)))
    decreases k
  {
    hide BatchText;
    if k > 0 {
      StateIsAnalysis(analyze, mode, source, hunks[1..], k - 1);
      if BatchText(source, [hunks[0]]).Some? {
        StateIsAnalysis(analyze, mode, BatchText(source, [hunks[0]]).value.0, hunks[1..], k - 1);
      }
    }
  }

  /** The loop hands back the source it reached. */
  lemma {:induction false} ContinueReaches(analyze: string -> State, mode: Mode, source: string, state: State,
      hunks: seq<Hunk>)
    requires Continue(analyze, mode, source, state, hunks).Some?
    ensures Continue(analyze, mode, source, state, hunks).value.source
        == Reached(analyze, mode, source, state, hunks, |hunks|).0
    decreases |hunks|
  {
    hide BatchText, Acceptable;
    if hunks != [] {
      var (candidate, applied) := BatchText(source, [hunks[0]]).value;
      if applied != [] && Acceptable(analyze(candidate), state, mode) {
        ContinueReaches(analyze, mode, candidate, analyze(candidate), hunks[1..]);
      } else {
        ContinueReaches(analyze, mode, source, state, hunks[1..]);
      }
    }
  }
}
