// Applying proposed hunks to a file's lines: nearest verified position, then splices from the end
// (crates/fidan-cli/src/fix.rs).

module HunkApply {
  import opened Text
  import opened Options
  import opened LineDiff
  import opened Sorting
  import opened Splicing

  const HUNK_POSITION_TOLERANCE: nat := 5

  /** A proposed edit; positions are the model's claims, 1-based. */
  datatype Hunk = Hunk(lineStart: nat, lineEnd: nat, oldText: string, newText: string, reason: string)

  /** An applied edit, as reported: actual 1-based position, replaced lines and new lines. */
  datatype Applied = Applied(lineStart: nat, lineEnd: nat, oldLines: seq<Line>, newLines: seq<Line>, reason: string)

  /** A hunk's range in the snapshot and what replaces it. */
  type Resolved = Edit<Line, Applied>

  // ----- text to lines -----

  function DropNewlines(s: string): string {
    if s != [] && s[|s| - 1] == '\n' then DropNewlines(s[..|s| - 1]) else s
  }

  /** Up to the next newline, and what follows it. */
  function FirstLine(s: string): (r: (Line, string))
    ensures s != [] ==> |r.1| < |s|
  {
    if s == [] then ([], [])
    else if s[0] == '\n' then ([], s[1..])
    else
      var rest := FirstLine(s[1..]);
      ([s[0]] + rest.0, rest.1)
  }

  predicate EndsReturn(line: string) {
    line != [] && line[|line| - 1] == '\r'
  }

  /** Without the carriage return that belongs to the newline behind it. */
  function DropReturn(line: string): Line {
    if EndsReturn(line) then line[..|line| - 1] else line
  }

  function Lines(s: string): seq<Line>
    decreases |s|
  {
    if s == [] then []
    else
      var (line, rest) := FirstLine(s);
      [if '\n' in s then DropReturn(line) else line] + Lines(rest)
  }

  function TextLines(text: string): seq<Line> {
    Lines(DropNewlines(text))
  }

  /** The lines of a text are those of what its final newlines follow. */
  lemma {:induction false} TextLinesAre(body: string, newlines: string)
    requires forall c :: c in newlines ==> c == '\n'
    requires body == [] || body[|body| - 1] != '\n'
    ensures TextLines(body + newlines) == Lines(body)
    decreases |newlines|
  {
    hide Lines;
    if newlines == [] {
      assert body + newlines == body;
    } else {
      var n := |newlines| - 1;
      assert newlines[n] in newlines && forall c :: c in newlines[..n] ==> c in newlines;
      TextLinesAre(body, newlines[..n]);
      assert (body + newlines)[..|body + newlines| - 1] == body + newlines[..n];
    }
  }

  /** Each line followed by a newline. */
  function Unlines(lines: seq<Line>): string {
    if lines == [] then [] else lines[0] + "\n" + Unlines(lines[1..])
  }

  /** The text with every carriage return in front of a newline taken away. */
  function Normal(s: string): string {
    if s == [] then []
    else if |s| > 1 && s[0] == '\r' && s[1] == '\n' then Normal(s[1..])
    else [s[0]] + Normal(s[1..])
  }

  lemma {:induction false} FirstLineSplits(s: string)
    requires s != []
    ensures '\n' !in FirstLine(s).0
    ensures '\n' !in s ==> FirstLine(s) == (s, []) && Normal(s) == s
    ensures '\n' in s ==> Normal(s) == DropReturn(FirstLine(s).0) + "\n" + Normal(FirstLine(s).1)
  {
    assert s == [s[0]] + s[1..];
    if s[0] == '\n' {
      assert Normal(s) == "\n" + Normal(s[1..]);
    } else if |s| > 1 {
      FirstLineSplits(s[1..]);
      var (line, rest) := FirstLine(s[1..]);
      if '\n' in s {
        assert '\n' in s[1..];
        if s[0] == '\r' && s[1] == '\n' {
          assert DropReturn([s[0]] + line) == [] == DropReturn(line);
        } else {
          assert DropReturn([s[0]] + line) == [s[0]] + DropReturn(line);
          assert [s[0]] + DropReturn(line) + "\n" + Normal(rest) == [s[0]] + (DropReturn(line) + "\n" + Normal(rest));
        }
      }
    }
  }

  lemma UnlinesCons(line: Line, lines: seq<Line>)
    ensures Unlines([line] + lines) == line + "\n" + Unlines(lines)
  {
    assert ([line] + lines)[1..] == lines;
  }

  /** Splitting into lines loses nothing but carriage returns in front of newlines, and whether the last line
      has a newline. */
  lemma {:induction false} LinesKeepText(s: string)
    ensures Unlines(Lines(s)) == if s == [] || EndsLine(s) then Normal(s) else Normal(s) + "\n"
    ensures forall i :: 0 <= i < |Lines(s)| ==> '\n' !in Lines(s)[i]
    decreases |s|
  {
    hide Unlines, FirstLine;
    if s == [] {
      NoLines();
    } else {
      var (line, rest) := FirstLine(s);
      FirstLineSplits(s);
      LinesKeepText(rest);
      UnlinesCons(if '\n' in s then DropReturn(line) else line, Lines(rest));
      if '\n' in s {
        FirstLineRest(s);
        assert DropReturn(line) + "\n" + (Normal(rest) + "\n") == DropReturn(line) + "\n" + Normal(rest) + "\n";
      } else {
        NoLines();
        assert s + "\n" + [] == s + "\n";
      }
    }
  }

  lemma NoLines()
    ensures Unlines([]) == [] && Lines([]) == []
  {
  }

  lemma {:induction false} FirstLineRest(s: string)
    requires '\n' in s
    ensures FirstLine(s).1 == [] ==> EndsLine(s)
    ensures FirstLine(s).1 != [] ==> FirstLine(s).1[|FirstLine(s).1| - 1] == s[|s| - 1]
  {
    assert s == [s[0]] + s[1..];
    if s[0] != '\n' {
      FirstLineRest(s[1..]);
    }
  }

  predicate EndsLine(s: string) {
    s != [] && s[|s| - 1] == '\n'
  }

  // ----- lines to text -----

  /** The lines with newlines between them. */
  function Join(lines: seq<Line>): string {
    if lines == [] then [] else if |lines| == 1 then lines[0] else lines[0] + "\n" + Join(lines[1..])
  }

  function Joined(lines: seq<Line>, newline: bool): string {
    Join(lines) + (if newline then "\n" else "")
  }

  /** No line ends in a carriage return that a newline will follow, and the text does not end in an empty
      line without one. */
  predicate Clean(lines: seq<Line>, newline: bool) {
    && (if newline then lines != [] else lines == [] || lines[|lines| - 1] != [])
    && forall i :: 0 <= i < |lines| && (newline || i < |lines| - 1) ==> !EndsReturn(lines[i])
  }

  lemma {:induction false} FirstLineOf(line: Line, rest: string)
    requires '\n' !in line
    ensures FirstLine(line + "\n" + rest) == (line, rest) && FirstLine(line) == (line, [])
    ensures '\n' in line + "\n" + rest
  {
    if line == [] {
      assert line + "\n" + rest == "\n" + rest;
    } else {
      FirstLineOf(line[1..], rest);
      assert (line + "\n" + rest)[1..] == line[1..] + "\n" + rest;
      assert line == [line[0]] + line[1..];
    }
    assert (line + "\n" + rest)[|line|] == '\n';
  }

  /** Lines that are joined and split again come back, and with them whether the text ends in a newline,
      exactly if they are clean. */
  lemma {:induction false} RejoinExactly(lines: seq<Line>, newline: bool)
    requires forall i :: 0 <= i < |lines| ==> '\n' !in lines[i]
    ensures Lines(Joined(lines, newline)) == lines && EndsLine(Joined(lines, newline)) == newline <==>
              Clean(lines, newline)
    decreases |lines|
  {
    if lines == [] {
      assert Joined(lines, newline) == if newline then "\n" else "";
      FirstLineOf([], []);
      assert [] + "\n" + [] == "\n";
    } else {
      var line, rest := lines[0], Joined(lines[1..], newline);
      if |lines| == 1 && !newline {
        assert Joined(lines, newline) == line;
        FirstLineOf(line, []);
      } else if |lines| == 1 {
        assert Joined(lines, newline) == line + "\n" + [];
        FirstLineOf(line, []);
      } else {
        assert Joined(lines, newline) == line + "\n" + rest;
        FirstLineOf(line, rest);
        RejoinExactly(lines[1..], newline);
        assert Lines(Joined(lines, newline)) == [DropReturn(line)] + Lines(rest);
        RejoinSteps(lines, newline);
      }
    }
  }

  /** Clean lines stay so without the first. */
  lemma RejoinSteps(lines: seq<Line>, newline: bool)
    requires |lines| > 1
    ensures var rest := Joined(lines[1..], newline);
            && Clean(lines, newline) == (!EndsReturn(lines[0]) && Clean(lines[1..], newline))
            && EndsLine(lines[0] + "\n" + rest) == (rest == [] || EndsLine(rest))
            && (DropReturn(lines[0]) == lines[0] <==> !EndsReturn(lines[0]))
            && (rest == [] ==> Lines(rest) != lines[1..])
  {
    assert forall i :: 0 < i < |lines| ==> lines[i] == lines[1..][i - 1];
  }

  // ----- indentation -----

  function Indent(s: Line): string {
    if s != [] && IsSpace(s[0]) then [s[0]] + Indent(s[1..]) else []
  }

  /** The new lines, with the file's indentation restored if it is longer than the model's. The file's is
      measured in UTF-8 bytes, the model's in characters. */
  function Replacement(here: Line, oldLines: seq<Line>, newText: string): seq<Line> {
    var lines := if newText == [] then [] else TextLines(newText);
    var fileIndent := Indent(here);
    var modelIndent := if oldLines == [] then 0 else |Indent(oldLines[0])|;
    if Utf8Length(fileIndent) > modelIndent
    then seq(|lines|, i requires 0 <= i < |lines| => fileIndent + lines[i])
    else lines
  }

  lemma {:induction false} IndentTrimmed(indent: string, line: Line)
    requires forall c :: c in indent ==> IsSpace(c)
    ensures Trim(indent + line) == Trim(line)
  {
    hide TrimEnd;
    if indent == [] {
      assert indent + line == line;
    } else {
      IndentTrimmed(indent[1..], line);
      assert (indent + line)[1..] == indent[1..] + line;
    }
  }

  /** The indentation is the longest start that is white space. */
  lemma {:induction false} IndentIsSpace(s: Line)
    ensures forall c :: c in Indent(s) ==> IsSpace(c)
    ensures Indent(s) <= s && (Indent(s) < s ==> !IsSpace(s[|Indent(s)|]))
  {
    if s != [] && IsSpace(s[0]) {
      IndentIsSpace(s[1..]);
      assert s == [s[0]] + s[1..];
    }
  }

  /** Restoring indentation changes leading white space only. */
  lemma ReplacementKeepsText(here: Line, oldLines: seq<Line>, newText: string)
    ensures SameTrimmed(Replacement(here, oldLines, newText), if newText == [] then [] else TextLines(newText))
  {
    hide Trim, TextLines;
    IndentIsSpace(here);
    var lines := if newText == [] then [] else TextLines(newText);
    forall i | 0 <= i < |lines|
      ensures Trim(Indent(here) + lines[i]) == Trim(lines[i])
    {
      IndentTrimmed(Indent(here), lines[i]);
    }
  }

  // ----- the nearest position -----

  predicate SameTrimmed(xs: seq<Line>, ys: seq<Line>) {
    |xs| == |ys| && forall k :: 0 <= k < |xs| ==> Trim(xs[k]) == Trim(ys[k])
  }

  predicate MatchesAt(lines: seq<Line>, expected: seq<Line>, start: nat) {
    start + |expected| <= |lines| && SameTrimmed(lines[start..start + |expected|], expected)
  }

  function Less(a: nat, b: nat): nat {
    if a < b then 0 else a - b
  }

  function Distance(a: nat, b: nat): nat {
    if a < b then b - a else a - b
  }

  /** Offsets from `d` to the tolerance, the lower candidate first. */
  function NearestFrom(lines: seq<Line>, expected: seq<Line>, hint: nat, d: nat): Option<nat>
    decreases HUNK_POSITION_TOLERANCE + 1 - d
  {
    if d > HUNK_POSITION_TOLERANCE then None
    else if MatchesAt(lines, expected, Less(hint, d)) then Some(Less(hint, d))
    else if MatchesAt(lines, expected, hint + d) then Some(hint + d)
    else NearestFrom(lines, expected, hint, d + 1)
  }

  function Nearest(lines: seq<Line>, expected: seq<Line>, hint: nat): Option<nat> {
    NearestFrom(lines, expected, hint, 0)
  }

  /** `s` is a matching start within the tolerance, and no other is nearer or as near and lower. */
  ghost predicate Closest(lines: seq<Line>, expected: seq<Line>, hint: nat, s: nat) {
    && MatchesAt(lines, expected, s) && Distance(s, hint) <= HUNK_POSITION_TOLERANCE
    && forall t: nat :: MatchesAt(lines, expected, t) && t != s ==>
         Distance(s, hint) < Distance(t, hint) || (Distance(s, hint) == Distance(t, hint) && s < t)
  }

  lemma {:induction false} NearestFromCloses(lines: seq<Line>, expected: seq<Line>, hint: nat, d: nat)
    requires forall t: nat :: MatchesAt(lines, expected, t) ==> Distance(t, hint) >= d
    ensures forall s: nat :: NearestFrom(lines, expected, hint, d) == Some(s) <==> Closest(lines, expected, hint, s)
    decreases HUNK_POSITION_TOLERANCE + 1 - d
  {
    hide MatchesAt;
    if d <= HUNK_POSITION_TOLERANCE {
      var lo, hi := Less(hint, d), hint + d;
      forall t: nat | MatchesAt(lines, expected, t) && Distance(t, hint) == d
        ensures t == lo || t == hi
      {
      }
      if MatchesAt(lines, expected, lo) {
        assert Closest(lines, expected, hint, lo);
      } else if MatchesAt(lines, expected, hi) {
        assert Closest(lines, expected, hint, hi);
      } else {
        NearestFromCloses(lines, expected, hint, d + 1);
      }
    }
  }

  /** The search finds the matching start nearest to the hint within five lines, ties going low, and
      fails only if there is none. */
  lemma NearestIsClosest(lines: seq<Line>, expected: seq<Line>, hint: nat)
    ensures forall s: nat :: Nearest(lines, expected, hint) == Some(s) <==> Closest(lines, expected, hint, s)
    ensures Nearest(lines, expected, hint) == None <==>
              forall t: nat :: MatchesAt(lines, expected, t) ==> Distance(t, hint) > HUNK_POSITION_TOLERANCE
  {
    hide MatchesAt;
    NearestFromCloses(lines, expected, hint, 0);
    if forall t: nat :: MatchesAt(lines, expected, t) ==> Distance(t, hint) > HUNK_POSITION_TOLERANCE {
      assert forall s: nat :: !Closest(lines, expected, hint, s);
    } else if Nearest(lines, expected, hint) == None {
      var t: nat :| MatchesAt(lines, expected, t) && Distance(t, hint) <= HUNK_POSITION_TOLERANCE;
      NoneFrom(lines, expected, hint, 0, t);
    }
  }

  lemma {:induction false} NoneFrom(lines: seq<Line>, expected: seq<Line>, hint: nat, d: nat, t: nat)
    requires MatchesAt(lines, expected, t) && d <= Distance(t, hint) <= HUNK_POSITION_TOLERANCE
    ensures NearestFrom(lines, expected, hint, d).Some?
    decreases HUNK_POSITION_TOLERANCE + 1 - d
  {
    hide MatchesAt;
    if Distance(t, hint) == d {
      assert t == Less(hint, d) || t == hint + d;
    } else {
      NoneFrom(lines, expected, hint, d + 1, t);
    }
  }

  method FindStart(lines: seq<Line>, expected: seq<Line>, hint: nat) returns (r: Option<nat>)
    ensures r == Nearest(lines, expected, hint)
  {
    hide MatchesAt;
    if MatchesAt(lines, expected, hint) {
      return Some(hint);
    }
    var d := 1;
    while d <= HUNK_POSITION_TOLERANCE
      invariant 1 <= d <= HUNK_POSITION_TOLERANCE + 1
      invariant Nearest(lines, expected, hint) == NearestFrom(lines, expected, hint, d)
    {
      var lo, hi := Less(hint, d), hint + d;
      if MatchesAt(lines, expected, lo) {
        return Some(lo);
      }
      if lo != hi && MatchesAt(lines, expected, hi) {
        return Some(hi);
      }
      d := d + 1;
    }
    r := None;
  }

  // ----- resolving and splicing -----

  /** The range a hunk replaces and with what; none for a hunk that changes nothing or matches nowhere. */
  function Resolve(lines: seq<Line>, h: Hunk): (r: Option<Resolved>)
    ensures r.Some? ==> r.value.start <= r.value.end <= |lines|
  {
    if Trim(h.oldText) == Trim(h.newText) then None
    else
      var hint := Less(h.lineStart, 1);
      var expected := TextLines(h.oldText);
      if expected == [] then
        var at := if hint <= |lines| then hint else |lines|;
        var added := TextLines(h.newText);
        if added == [] then None
        else Some(Edit(at, at, added, Applied(at + 1, at + 1, [], added, h.reason)))
      else
        match Nearest(lines, expected, hint)
        case None => None
        case Some(s) =>
          NearestIsClosest(lines, expected, hint);
          var existing := lines[s..s + |expected|];
          var replacement := Replacement(lines[s], expected, h.newText);
          if SameTrimmed(existing, replacement) then None
          else Some(Edit(s, s + |expected|, replacement,
                             Applied(s + 1, s + |expected|, existing, replacement, h.reason)))
  }

  function ResolveAll(lines: seq<Line>, hunks: seq<Hunk>): (rs: seq<Resolved>)
    ensures forall r :: r in rs ==> r.start <= r.end <= |lines|
  {
    if hunks == [] then []
    else
      match Resolve(lines, hunks[0])
      case None => ResolveAll(lines, hunks[1..])
      case Some(r) => [r] + ResolveAll(lines, hunks[1..])
  }

  predicate EarlierLine(a: Applied, b: Applied) {
    a.lineStart < b.lineStart
  }

  function Displays(rs: seq<Resolved>): seq<Applied> {
    seq(|rs|, i requires 0 <= i < |rs| => rs[i].note)
  }

  /** All hunks resolved against one snapshot and spliced from the end. */
  function Batch(lines: seq<Line>, hunks: seq<Hunk>): Option<(seq<Line>, seq<Applied>)> {
    var rs := Sort(LaterStart, ResolveAll(lines, hunks));
    match SpliceAll(lines, rs)
    case None => None
    case Some(result) => Some((result, Sort(EarlierLine, Displays(rs))))
  }

  /** A batch applied to a text: split, spliced and joined again, a final newline being kept. */
  function BatchText(source: string, hunks: seq<Hunk>): Option<(string, seq<Applied>)> {
    if hunks == [] then Some((source, []))
    else
      match Batch(Lines(source), hunks)
      case None => None
      case Some((lines, applied)) => Some((Joined(lines, EndsLine(source)), applied))
  }

  method ApplyHunks(source: string, hunks: seq<Hunk>) returns (r: Option<(string, seq<Applied>)>)
    ensures r == BatchText(source, hunks)
  {
    hide Resolve, Splice, Lines, Joined;
    if hunks == [] {
      return Some((source, []));
    }
    var lines := Lines(source);
    var resolved: seq<Resolved> := [];
    for i := 0 to |hunks|
      invariant resolved + ResolveAll(lines, hunks[i..]) == ResolveAll(lines, hunks)
    {
      assert hunks[i..][1..] == hunks[i + 1..];
      var one := ResolveOne(lines, hunks[i]);
      if one.Some? {
        resolved := resolved + [one.value];
      }
    }
    assert hunks[|hunks|..] == [] && resolved + [] == resolved;
    assert resolved == ResolveAll(lines, hunks);
    var sorted := Sort(LaterStart, resolved);
    var current := lines;
    assert sorted[0..] == sorted;
    for i := 0 to |sorted|
      invariant SpliceAll(current, sorted[i..]) == SpliceAll(lines, sorted)
    {
      assert sorted[i..][1..] == sorted[i + 1..];
      if !(sorted[i].start <= sorted[i].end <= |current|) {
        return None;
      }
      current := Splice(current, sorted[i]);
    }
    r := Some((Joined(current, EndsLine(source)), Sort(EarlierLine, Displays(sorted))));
  }

  method ResolveOne(lines: seq<Line>, h: Hunk) returns (r: Option<Resolved>)
    ensures r == Resolve(lines, h)
  {
    hide Trim, MatchesAt, TextLines, Replacement;
    if Trim(h.oldText) == Trim(h.newText) {
      return None;
    }
    var hint := Less(h.lineStart, 1);
    var expected := TextLines(h.oldText);
    if expected == [] {
      var at := if hint <= |lines| then hint else |lines|;
      var added := TextLines(h.newText);
      if added == [] {
        return None;
      }
      return Some(Edit(at, at, added, Applied(at + 1, at + 1, [], added, h.reason)));
    }
    var found := FindStart(lines, expected, hint);
    if found == None {
      return None;
    }
    var s := found.value;
    NearestIsClosest(lines, expected, hint);
    assert s + |expected| <= |lines| by {
      InRange(lines, expected, s);
    }
    var existing := lines[s..s + |expected|];
    var replacement := Replacement(lines[s], expected, h.newText);
    if SameTrimmed(existing, replacement) {
      return None;
    }
    r := Some(Edit(s, s + |expected|, replacement, Applied(s + 1, s + |expected|, existing, replacement, h.reason)));
  }

  lemma InRange(lines: seq<Line>, expected: seq<Line>, s: nat)
    requires MatchesAt(lines, expected, s)
    ensures s + |expected| <= |lines|
  {
  }

  /** The file's indentation goes in front of every new line if it is longer than that of the old text's first
      line, and nothing does otherwise. */
  lemma ReplacementIs(here: Line, oldLines: seq<Line>, newText: string)
    requires oldLines != []
    ensures var lines, added := Replacement(here, oldLines, newText), TextLines(newText);
            && |lines| == |added|
            && forall i :: 0 <= i < |added| ==>
                 lines[i] == (if Utf8Length(Indent(here)) > |Indent(oldLines[0])| then Indent(here) else "") + added[i]
  {
  }

  /** When a hunk takes effect: its texts differ, and either it only inserts and has something to insert, or its
      old text matches somewhere within five lines of the hint and the block at the closest match is not
      already its new text, white space around lines aside. */
  lemma ResolvesExactly(lines: seq<Line>, h: Hunk)
    ensures var hint, expected, added := Less(h.lineStart, 1), TextLines(h.oldText), TextLines(h.newText);
            Resolve(lines, h).Some? <==>
              && Trim(h.oldText) != Trim(h.newText)
              && (expected == [] ==> added != [])
              && (expected != [] ==>
                    exists s: nat :: Closest(lines, expected, hint, s) &&
                      !SameTrimmed(lines[s..s + |expected|], added))
  {
    hide Trim, TextLines, MatchesAt, NearestFrom, Closest, Replacement, SameTrimmed;
    var hint, expected, added := Less(h.lineStart, 1), TextLines(h.oldText), TextLines(h.newText);
    if Trim(h.oldText) != Trim(h.newText) && expected != [] {
      NearestIsClosest(lines, expected, hint);
      forall s: nat | Closest(lines, expected, hint, s)
        ensures Nearest(lines, expected, hint) == Some(s) && s + |expected| <= |lines|
        ensures SameTrimmed(lines[s..s + |expected|], Replacement(lines[s], expected, h.newText)) <==>
                  SameTrimmed(lines[s..s + |expected|], added)
      {
        ClosestMatches(lines, expected, hint, s);
        NewLines(h.newText);
        ReplacementKeepsText(lines[s], expected, h.newText);
        SameTrimmedTo(lines[s..s + |expected|], Replacement(lines[s], expected, h.newText), added);
      }
      if Nearest(lines, expected, hint).Some? {
        assert Closest(lines, expected, hint, Nearest(lines, expected, hint).value);
      }
    }
  }

  lemma NewLines(newText: string)
    ensures (if newText == [] then [] else TextLines(newText)) == TextLines(newText)
  {
  }

  lemma ClosestMatches(lines: seq<Line>, expected: seq<Line>, hint: nat, s: nat)
    requires Closest(lines, expected, hint, s)
    ensures s + |expected| <= |lines|
  {
  }

  lemma SameTrimmedTo(xs: seq<Line>, ys: seq<Line>, zs: seq<Line>)
    requires SameTrimmed(ys, zs)
    ensures SameTrimmed(xs, ys) <==> SameTrimmed(xs, zs)
  {
    hide Trim;
  }

  /** What a hunk that takes effect does. If it replaces lines, it replaces exactly as many as its old text has,
      at the matching start nearest to its hint; one that only inserts does so at its hint or at the end. The
      new lines are its new text's, the file's indentation restored where the model dropped it; and the report
      says where, what was there, what is there now, and why. */
  lemma ResolvedSitsClosest(lines: seq<Line>, h: Hunk)
    requires Resolve(lines, h).Some?
    ensures var r, expected, hint := Resolve(lines, h).value, TextLines(h.oldText), Less(h.lineStart, 1);
            var added := TextLines(h.newText);
            && r.end == r.start + |expected|
            && (expected != [] ==> Closest(lines, expected, hint, r.start))
            && (expected == [] ==> r.start == if hint <= |lines| then hint else |lines|)
            && (expected == [] ==> r.replacement == added)
            && (expected != [] ==>
                  && |r.replacement| == |added|
                  && forall i :: 0 <= i < |added| ==>
                       r.replacement[i] == (if Utf8Length(Indent(lines[r.start])) > |Indent(expected[0])|
                           then Indent(lines[r.start]) else "") + added[i])
            && r.note == Applied(r.start + 1, if expected == [] then r.start + 1 else r.end, lines[r.start..r.end],
                r.replacement, h.reason)
  {
    hide Trim, TextLines, Replacement, MatchesAt, Closest, NearestFrom, Indent, Utf8Length, SameTrimmed;
    var expected := TextLines(h.oldText);
    NearestIsClosest(lines, expected, Less(h.lineStart, 1));
    if expected != [] {
      ReplacementIs(lines[Resolve(lines, h).value.start], expected, h.newText);
    }
  }

  /** The resolved ranges are those of the hunks that take effect, in their order. */
  lemma {:induction false} ResolveAllMore(lines: seq<Line>, hunks: seq<Hunk>, h: Hunk)
    ensures ResolveAll(lines, []) == []
    ensures ResolveAll(lines, hunks + [h]) == ResolveAll(lines, hunks) +
        match Resolve(lines, h)
        case None => []
        case Some(r) => [r]
  {
    hide Resolve;
    if hunks == [] {
      assert [] + [h] == [h] && [h][1..] == [];
    } else {
      ResolveAllMore(lines, hunks[1..], h);
      assert (hunks + [h])[1..] == hunks[1..] + [h] && (hunks + [h])[0] == hunks[0];
    }
  }

  /** The ranges of a batch in the order they are spliced: last start first, ties as the hunks were proposed. */
  ghost predicate FromTheEnd(ranges: seq<Resolved>, order: seq<Resolved>) {
    && multiset(order) == multiset(ranges)
    && (forall i, j :: 0 <= i < j < |order| ==> order[i].start >= order[j].start)
    && forall start :: StartingAt(order, start) == StartingAt(ranges, start)
  }

  function StartingAt(rs: seq<Resolved>, start: nat): seq<Resolved> {
    Filter((r: Resolved) => r.start == start, rs)
  }

  lemma SortedFromTheEnd(rs: seq<Resolved>)
    ensures FromTheEnd(rs, Sort(LaterStart, rs))
  {
    var order := Sort(LaterStart, rs);
    SortCounts(LaterStart, rs);
    SortOrdered(LaterStart, rs);
    assert forall i, j :: 0 <= i < j < |order| ==> !LaterStart(order[j], order[i]);
    forall start
      ensures StartingAt(order, start) == StartingAt(rs, start)
    {
      SortStable(LaterStart, (r: Resolved) => r.start == start, rs);
    }
  }

  /** What a batch is, whatever its hunks resolve to: their ranges are spliced in turn, last start first, each into
      what the ones before it left. If one no longer fits, the program panics; otherwise the last text is the
      result, and what is reported is one entry per range, in order of line. */
  lemma BatchInTurn(lines: seq<Line>, hunks: seq<Hunk>) returns (order: seq<Resolved>, texts: seq<seq<Line>>)
    ensures FromTheEnd(ResolveAll(lines, hunks), order) && InTurn(texts, order) && texts[0] == lines
    ensures Batch(lines, hunks).Some? ==>
              && |texts| == |order| + 1 && Batch(lines, hunks).value.0 == texts[|order|]
              && multiset(Batch(lines, hunks).value.1)
                  == multiset(seq(|order|, i requires 0 <= i < |order| => order[i].note))
              && forall i, j :: 0 <= i < j < |Batch(lines, hunks).value.1| ==>
                   Batch(lines, hunks).value.1[i].lineStart <= Batch(lines, hunks).value.1[j].lineStart
    ensures Batch(lines, hunks).None? ==>
              var k := |texts| - 1; k < |order| && !(order[k].start <= order[k].end <= |texts[k]|)
  {
    hide Resolve;
    order := Sort(LaterStart, ResolveAll(lines, hunks));
    SortedFromTheEnd(ResolveAll(lines, hunks));
    texts := SpliceInTurn(lines, order);
    SortCounts(EarlierLine, Displays(order));
    SortOrdered(EarlierLine, Displays(order));
    var listed := Sort(EarlierLine, Displays(order));
    assert forall i, j :: 0 <= i < j < |listed| ==> !EarlierLine(listed[j], listed[i]);
  }

  /** One batch, for hunks that resolve to disjoint ranges with distinct starts: every range of the
      snapshot is replaced at once. */
  lemma BatchReplacesAtOnce(lines: seq<Line>, hunks: seq<Hunk>)
    requires Disjoint(lines, ResolveAll(lines, hunks))
    ensures Batch(lines, hunks).Some?
    ensures Batch(lines, hunks).value.0 == Simultaneous(lines, ResolveAll(lines, hunks))
  {
    hide Resolve, Simultaneous, Disjoint;
    BatchIsSimultaneous(lines, ResolveAll(lines, hunks));
  }
}
