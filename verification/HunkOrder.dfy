// Applying hunks one at a time, each matched again against the current lines, against applying them as
// one batch (crates/fidan-cli/src/fix.rs).

module HunkOrder {
  import opened Text
  import opened Options
  import opened LineDiff
  import opened Sorting
  import opened Splicing
  import opened HunkApply

  predicate LaterHunk(a: Hunk, b: Hunk) {
    a.lineStart > b.lineStart || (a.lineStart == b.lineStart && a.lineEnd > b.lineEnd)
  }

  /** One batch of one hunk after another. */
  function OneByOne(lines: seq<Line>, hunks: seq<Hunk>): Option<(seq<Line>, seq<Applied>)>
    decreases |hunks|
  {
    if hunks == [] then Some((lines, []))
    else
      match Batch(lines, [hunks[0]])
      case None => None
      case Some((lines1, applied)) =>
        match OneByOne(lines1, hunks[1..])
        case None => None
        case Some((result, more)) => Some((result, applied + more))
  }

  // ----- search windows -----

  function InsertionPoint(lines: seq<Line>, h: Hunk): nat {
    var hint := Less(h.lineStart, 1);
    if hint <= |lines| then hint else |lines|
  }

  /** The first line a hunk can touch, and the line after the last one it can look at. */
  function WindowStart(lines: seq<Line>, h: Hunk): nat {
    if TextLines(h.oldText) == [] then InsertionPoint(lines, h)
    else Less(Less(h.lineStart, 1), HUNK_POSITION_TOLERANCE)
  }

  function WindowEnd(lines: seq<Line>, h: Hunk): nat {
    if TextLines(h.oldText) == [] then InsertionPoint(lines, h) + 1
    else Less(h.lineStart, 1) + HUNK_POSITION_TOLERANCE + |TextLines(h.oldText)|
  }

  /** In descending order, each window ends before the previous one starts. */
  ghost predicate Separated(lines: seq<Line>, hunks: seq<Hunk>) {
    forall i, j :: 0 <= i < j < |hunks| ==> WindowEnd(lines, hunks[j]) <= WindowStart(lines, hunks[i])
  }

  lemma ResolvedInWindow(lines: seq<Line>, h: Hunk)
    requires Resolve(lines, h).Some?
    ensures var r := Resolve(lines, h).value;
            && WindowStart(lines, h) <= r.start && r.end <= WindowEnd(lines, h) && r.start < WindowEnd(lines, h)
            && r.note.lineStart == r.start + 1
  {
    hide Trim, TextLines, Replacement, MatchesAt;
    var expected, hint := TextLines(h.oldText), Less(h.lineStart, 1);
    if expected != [] {
      NearestIsClosest(lines, expected, hint);
    }
  }

  // ----- a hunk resolves the same as long as its window is untouched -----

  lemma {:induction false} NearestStable(lines: seq<Line>, lines': seq<Line>, expected: seq<Line>, hint: nat, d: nat,
      b: nat)
    requires b <= |lines| && b <= |lines'| && lines[..b] == lines'[..b]
    requires hint + HUNK_POSITION_TOLERANCE + |expected| <= b
    ensures NearestFrom(lines, expected, hint, d) == NearestFrom(lines', expected, hint, d)
    decreases HUNK_POSITION_TOLERANCE + 1 - d
  {
    hide MatchesAt;
    if d <= HUNK_POSITION_TOLERANCE {
      MatchStable(lines, lines', expected, Less(hint, d), b);
      MatchStable(lines, lines', expected, hint + d, b);
      NearestStable(lines, lines', expected, hint, d + 1, b);
    }
  }

  lemma MatchStable(lines: seq<Line>, lines': seq<Line>, expected: seq<Line>, s: nat, b: nat)
    requires s + |expected| <= b <= |lines| && b <= |lines'| && lines[..b] == lines'[..b]
    ensures MatchesAt(lines, expected, s) <==> MatchesAt(lines', expected, s)
  {
    SliceStable(lines, lines', s, s + |expected|, b);
  }

  lemma SliceStable(lines: seq<Line>, lines': seq<Line>, s: nat, n: nat, b: nat)
    requires s <= n <= b <= |lines| && b <= |lines'| && lines[..b] == lines'[..b]
    ensures lines[s..n] == lines'[s..n]
  {
    forall i | s <= i < n
      ensures lines[i] == lines'[i]
    {
      assert lines[i] == lines[..b][i] && lines'[i] == lines'[..b][i];
    }
  }

  /** The match found, and the lines it covers, are the same. */
  lemma FoundStable(lines: seq<Line>, lines': seq<Line>, expected: seq<Line>, hint: nat, b: nat)
    requires b <= |lines| && b <= |lines'| && lines[..b] == lines'[..b]
    requires expected != [] && hint + HUNK_POSITION_TOLERANCE + |expected| <= b
    ensures Nearest(lines', expected, hint) == Nearest(lines, expected, hint)
    ensures var found := Nearest(lines, expected, hint);
            found.Some? ==>
              var n := found.value + |expected|;
              n <= |lines| && n <= |lines'| && lines[found.value] == lines'[found.value] &&
                  lines[found.value..n] == lines'[found.value..n]
  {
    hide MatchesAt, NearestFrom;
    NearestStable(lines, lines', expected, hint, 0, b);
    NearestIsClosest(lines, expected, hint);
    var found := Nearest(lines, expected, hint);
    if found.Some? {
      var s := found.value;
      InRange(lines, expected, s);
      SliceStable(lines, lines', s, s + |expected|, b);
      assert lines[s] == lines[s..s + |expected|][0] == lines'[s..s + |expected|][0] == lines'[s];
    }
  }

  lemma ResolveStable(lines: seq<Line>, lines': seq<Line>, h: Hunk, b: nat)
    requires b <= |lines| && b <= |lines'| && lines[..b] == lines'[..b]
    requires WindowEnd(lines, h) <= b
    ensures Resolve(lines', h) == Resolve(lines, h)
  {
    hide Trim, TextLines, Replacement, MatchesAt, Nearest, SameTrimmed;
    var expected, hint := TextLines(h.oldText), Less(h.lineStart, 1);
    if expected != [] {
      FoundStable(lines, lines', expected, hint, b);
    }
  }

  // ----- one batch of one hunk -----

  lemma BatchOfOne(lines: seq<Line>, h: Hunk)
    ensures match Resolve(lines, h)
            case None => Batch(lines, [h]) == Some((lines, []))
            case Some(r) => Batch(lines, [h]) == Some((Splice(lines, r), [r.note]))
  {
    hide Resolve, Splice;
    assert [h][1..] == [];
    match Resolve(lines, h)
    case None =>
      assert ResolveAll(lines, [h]) == [];
      assert Displays([]) == [];
      assert Sort(EarlierLine, []) == [];
    case Some(r) =>
      assert ResolveAll(lines, [h]) == [r];
      SortOfOne(LaterStart, r);
      SortOfOne(EarlierLine, r.note);
      assert [r][1..] == [];
      assert SpliceAll(lines, [r]) == Some(Splice(lines, r));
      assert Displays([r]) == [r.note];
  }

  lemma SortOfOne<T>(less: (T, T) -> bool, x: T)
    ensures Sort(less, [x]) == [x]
  {
    assert [x][1..] == [];
    assert Sort(less, []) == [];
    assert Insert(less, x, []) == [x];
  }

  /** Current lines differ from the snapshot only from `b` on, and the hunks still to come stay below. */
  ghost predicate Below(snapshot: seq<Line>, lines: seq<Line>, hunks: seq<Hunk>, b: nat) {
    || lines == snapshot
    || (&& b <= |lines| && b <= |snapshot| && lines[..b] == snapshot[..b]
        && forall h :: h in hunks ==> WindowEnd(snapshot, h) <= b)
  }

  lemma DisplaysCons(r: Resolved, rs: seq<Resolved>)
    ensures Displays([r] + rs) == [r.note] + Displays(rs)
  {
  }

  lemma StillBelow(snapshot: seq<Line>, lines: seq<Line>, hunks: seq<Hunk>, b: nat, r: Resolved)
    requires hunks != [] && Separated(snapshot, hunks) && Below(snapshot, lines, hunks, b)
    requires Resolve(snapshot, hunks[0]) == Some(r) && r.start <= r.end <= |lines|
    ensures Below(snapshot, Splice(lines, r), hunks[1..], r.start)
  {
    hide Resolve, WindowStart, WindowEnd;
    ResolvedInWindow(snapshot, hunks[0]);
    var lines1 := Splice(lines, r);
    assert hunks[0] in hunks;
    forall h | h in hunks[1..]
      ensures WindowEnd(snapshot, h) <= r.start
    {
      var j :| 0 < j < |hunks| && hunks[j] == h;
    }
    assert lines1[..r.start] == lines[..r.start];
    if lines != snapshot {
      assert lines[..r.start] == lines[..b][..r.start] == snapshot[..b][..r.start] == snapshot[..r.start];
    }
  }

  lemma {:induction false} OneByOneSplices(snapshot: seq<Line>, lines: seq<Line>, hunks: seq<Hunk>, b: nat)
    requires Separated(snapshot, hunks) && Below(snapshot, lines, hunks, b)
    ensures var rs := ResolveAll(snapshot, hunks);
            && SpliceAll(lines, rs).Some?
            && OneByOne(lines, hunks) == Some((SpliceAll(lines, rs).value, Displays(rs)))
    decreases |hunks|
  {
    hide Resolve, Splice, Batch, WindowStart, WindowEnd;
    if hunks == [] {
      assert Displays([]) == [];
    } else {
      var h := hunks[0];
      if lines != snapshot {
        assert h in hunks;
        ResolveStable(snapshot, lines, h, b);
      }
      BatchOfOne(lines, h);
      assert Separated(snapshot, hunks[1..]);
      match Resolve(snapshot, h)
      case None =>
        OneByOneSplices(snapshot, lines, hunks[1..], b);
        assert forall a: seq<Applied> :: [] + a == a;
      case Some(r) =>
        StillBelow(snapshot, lines, hunks, b, r);
        OneByOneSplices(snapshot, Splice(lines, r), hunks[1..], r.start);
        DisplaysCons(r, ResolveAll(snapshot, hunks[1..]));
        assert ([r] + ResolveAll(snapshot, hunks[1..]))[1..] == ResolveAll(snapshot, hunks[1..]);
    }
  }

  // ----- the batch visits the same ranges in the same order -----

  lemma {:induction false} ResolvedFrom(lines: seq<Line>, hunks: seq<Hunk>, r: Resolved)
    requires r in ResolveAll(lines, hunks)
    ensures exists j :: 0 <= j < |hunks| && Resolve(lines, hunks[j]) == Some(r)
  {
    hide Resolve;
    if Resolve(lines, hunks[0]) != Some(r) {
      ResolvedFrom(lines, hunks[1..], r);
      var j :| 0 <= j < |hunks[1..]| && Resolve(lines, hunks[1..][j]) == Some(r);
      assert hunks[j + 1] == hunks[1..][j];
    }
  }

  lemma {:induction false} ResolvedDescend(lines: seq<Line>, hunks: seq<Hunk>)
    requires Separated(lines, hunks)
    ensures Strict(LaterStart, ResolveAll(lines, hunks))
  {
    hide Resolve, WindowStart, WindowEnd;
    if hunks != [] {
      assert Separated(lines, hunks[1..]);
      ResolvedDescend(lines, hunks[1..]);
      if Resolve(lines, hunks[0]).Some? {
        ResolvedInWindow(lines, hunks[0]);
        var rest := ResolveAll(lines, hunks[1..]);
        forall q | q in rest
          ensures q.start < Resolve(lines, hunks[0]).value.start
        {
          ResolvedFrom(lines, hunks[1..], q);
          var j :| 0 <= j < |hunks[1..]| && Resolve(lines, hunks[1..][j]) == Some(q);
          assert hunks[1..][j] == hunks[j + 1];
          ResolvedInWindow(lines, hunks[j + 1]);
        }
      }
    }
  }

  lemma {:induction false} ResolveInsert(lines: seq<Line>, h: Hunk, hunks: seq<Hunk>)
    ensures multiset(ResolveAll(lines, Insert(LaterHunk, h, hunks))) == multiset(ResolveAll(lines, [h] + hunks))
  {
    hide Resolve;
    assert ([h] + hunks)[1..] == hunks;
    if hunks != [] && LaterHunk(hunks[0], h) {
      ResolveInsert(lines, h, hunks[1..]);
      assert ([h] + hunks[1..])[1..] == hunks[1..];
      var rest := Insert(LaterHunk, h, hunks[1..]);
      assert ([hunks[0]] + rest)[1..] == rest;
    }
  }

  lemma {:induction false} ResolveSorted(lines: seq<Line>, hunks: seq<Hunk>)
    ensures multiset(ResolveAll(lines, Sort(LaterHunk, hunks))) == multiset(ResolveAll(lines, hunks))
  {
    hide Resolve;
    if hunks != [] {
      var rest := Sort(LaterHunk, hunks[1..]);
      ResolveSorted(lines, hunks[1..]);
      ResolveInsert(lines, hunks[0], rest);
      assert ([hunks[0]] + rest)[1..] == rest;
    }
  }

  /** For hunks with separated search windows: applied one at a time, last first, each matched again in
      the text its predecessors left, they give the lines and the reported positions of one batch. */
  lemma OneByOneIsBatch(lines: seq<Line>, hunks: seq<Hunk>)
    requires Separated(lines, Sort(LaterHunk, hunks))
    ensures var single, batch := OneByOne(lines, Sort(LaterHunk, hunks)), Batch(lines, hunks);
            && single.Some? && batch.Some?
            && single.value.0 == batch.value.0
            && Sort(EarlierLine, single.value.1) == batch.value.1
  {
    hide Resolve, WindowStart, WindowEnd, OneByOne, Splice;
    var sorted := Sort(LaterHunk, hunks);
    var rs := ResolveAll(lines, sorted);
    ResolvedDescend(lines, sorted);
    ResolveSorted(lines, hunks);
    SortIsStrict(LaterStart, ResolveAll(lines, hunks), rs);
    OneByOneSplices(lines, lines, sorted, 0);
  }

  // ----- on texts -----

  /** One batch of one hunk after another, the text being split and joined each time; a hunk that does not
      apply leaves it alone. */
  function OneByOneText(source: string, hunks: seq<Hunk>): Option<(string, seq<Applied>)>
    decreases |hunks|
  {
    if hunks == [] then Some((source, []))
    else
      match BatchText(source, [hunks[0]])
      case None => None
      case Some((candidate, applied)) =>
        match OneByOneText(if applied == [] then source else candidate, hunks[1..])
        case None => None
        case Some((result, more)) => Some((result, applied + more))
  }

  /** What each applied hunk but the last leaves can be joined and split again. */
  predicate CleanBetween(lines: seq<Line>, newline: bool, hunks: seq<Hunk>)
    decreases |hunks|
  {
    if |hunks| <= 1 then true
    else
      match Batch(lines, [hunks[0]])
      case None => true
      case Some((lines1, applied)) =>
        (applied == [] || Clean(lines1, newline)) && CleanBetween(lines1, newline, hunks[1..])
  }

  /** Lines without a newline in them. */
  predicate Proper(lines: seq<Line>) {
    forall i :: 0 <= i < |lines| ==> '\n' !in lines[i]
  }

  lemma ProperIndent(indent: string, lines: seq<Line>)
    requires Proper(lines) && '\n' !in indent
    ensures Proper(seq(|lines|, i requires 0 <= i < |lines| => indent + lines[i]))
  {
  }

  lemma {:induction false} IndentWithin(line: Line)
    ensures forall c :: c in Indent(line) ==> c in line
  {
    if line != [] && IsSpace(line[0]) {
      IndentWithin(line[1..]);
    }
  }

  lemma ProperResolved(lines: seq<Line>, h: Hunk)
    requires Proper(lines) && Resolve(lines, h).Some?
    ensures Proper(Resolve(lines, h).value.replacement)
  {
    hide Trim, MatchesAt, Nearest, SameTrimmed, Lines, DropNewlines, Indent;
    LinesKeepText(DropNewlines(h.newText));
    var expected := TextLines(h.oldText);
    if expected != [] {
      var s := Nearest(lines, expected, Less(h.lineStart, 1)).value;
      IndentWithin(lines[s]);
      ProperIndent(Indent(lines[s]), TextLines(h.newText));
    }
  }

  lemma ProperBatch(lines: seq<Line>, h: Hunk)
    requires Proper(lines)
    ensures Batch(lines, [h]).Some? && Proper(Batch(lines, [h]).value.0)
    ensures Batch(lines, [h]).value.1 == [] ==> Batch(lines, [h]).value.0 == lines
  {
    hide Batch, Resolve;
    BatchOfOne(lines, h);
    if Resolve(lines, h).Some? {
      ProperResolved(lines, h);
    }
  }

  /** Texts follow their lines as long as what lies between can be split again. */
  lemma {:induction false} TextFollowsLines(source: string, hunks: seq<Hunk>)
    requires CleanBetween(Lines(source), EndsLine(source), hunks)
    ensures OneByOneText(source, hunks).Some? && OneByOne(Lines(source), hunks).Some?
    ensures var (text, applied) := OneByOneText(source, hunks).value;
            var (lines, positions) := OneByOne(Lines(source), hunks).value;
            && applied == positions
            && text == if applied == [] then source else Joined(lines, EndsLine(source))
    ensures OneByOneText(source, hunks).value.1 == [] ==> OneByOne(Lines(source), hunks).value.0 == Lines(source)
    decreases |hunks|
  {
    hide Batch, Lines, Joined, Clean, EndsLine, Proper;
    if hunks != [] {
      var lines := Lines(source);
      SourceProper(source);
      ProperBatch(lines, hunks[0]);
      var (lines1, applied) := Batch(lines, [hunks[0]]).value;
      var text1 := Joined(lines1, EndsLine(source));
      assert BatchText(source, [hunks[0]]) == Some((text1, applied));
      if applied == [] {
        assert hunks[1..] == [] || CleanBetween(lines, EndsLine(source), hunks[1..]);
        CleanShort(lines, EndsLine(source), hunks[1..]);
        TextFollowsLines(source, hunks[1..]);
        assert [] + OneByOneText(source, hunks[1..]).value.1 == OneByOneText(source, hunks[1..]).value.1;
        assert [] + OneByOne(lines, hunks[1..]).value.1 == OneByOne(lines, hunks[1..]).value.1;
      } else if |hunks| == 1 {
        assert hunks[1..] == [];
        assert applied + [] == applied;
      } else {
        Rejoin(lines1, EndsLine(source));
        TextFollowsLines(text1, hunks[1..]);
      }
    }
  }

  lemma SourceProper(source: string)
    ensures Proper(Lines(source))
  {
    LinesKeepText(source);
  }

  lemma CleanShort(lines: seq<Line>, newline: bool, hunks: seq<Hunk>)
    requires hunks == [] || CleanBetween(lines, newline, hunks)
    ensures CleanBetween(lines, newline, hunks)
  {
  }

  lemma Rejoin(lines: seq<Line>, newline: bool)
    requires Proper(lines) && Clean(lines, newline)
    ensures Lines(Joined(lines, newline)) == lines && EndsLine(Joined(lines, newline)) == newline
  {
    RejoinExactly(lines, newline);
  }

  /** For hunks with separated search windows, and texts that can be split again in between: applied one at a
      time, last first, they give the text and the reported positions of one batch. */
  lemma OneByOneTextIsBatch(source: string, hunks: seq<Hunk>)
    requires Separated(Lines(source), Sort(LaterHunk, hunks))
    requires CleanBetween(Lines(source), EndsLine(source), Sort(LaterHunk, hunks))
    ensures var single, batch := OneByOneText(source, Sort(LaterHunk, hunks)), BatchText(source, hunks);
            && single.Some? && batch.Some?
            && Sort(EarlierLine, single.value.1) == batch.value.1
            && single.value.0 == if batch.value.1 == [] then source else batch.value.0
  {
    hide Batch, Lines, Joined, OneByOne, CleanBetween, Separated, EndsLine;
    OneByOneIsBatch(Lines(source), hunks);
    TextFollowsLines(source, Sort(LaterHunk, hunks));
    var applied := OneByOneText(source, Sort(LaterHunk, hunks)).value.1;
    SortEmpty(EarlierLine, applied);
  }

  lemma SortEmpty<T>(less: (T, T) -> bool, s: seq<T>)
    ensures Sort(less, s) == [] <==> s == []
  {
    SortCounts(less, s);
    assert |multiset(Sort(less, s))| == |Sort(less, s)| && |multiset(s)| == |s|;
  }
}
