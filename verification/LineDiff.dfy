// The line diff shown for a proposed fix: a longest-common-subsequence table filled from the end, and
// a walk over it (crates/fidan-cli/src/fix.rs).

module LineDiff {
  import opened Text

  type Line = string

  /** Lines are compared by their trimmed text. */
  function Keys(lines: seq<Line>): (keys: seq<string>)
    ensures |keys| == |lines|
  {
    seq(|lines|, i requires 0 <= i < |lines| => Trim(lines[i]))
  }

  // ----- longest common subsequences -----

  predicate Subsequence(c: seq<string>, xs: seq<string>)
    decreases |xs|
  {
    || c == []
    || (xs != [] && ((c[0] == xs[0] && Subsequence(c[1..], xs[1..])) || Subsequence(c, xs[1..])))
  }

  predicate Common(c: seq<string>, xs: seq<string>, ys: seq<string>) {
    Subsequence(c, xs) && Subsequence(c, ys)
  }

  function Max(a: nat, b: nat): nat {
    if a >= b then a else b
  }

  /** The recurrence of the table. */
  function Lcs(xs: seq<string>, ys: seq<string>): nat
    decreases |xs| + |ys|
  {
    if xs == [] || ys == [] then 0
    else if xs[0] == ys[0] then Lcs(xs[1..], ys[1..]) + 1
    else Max(Lcs(xs[1..], ys), Lcs(xs, ys[1..]))
  }

  lemma {:induction false} TailSubsequence(c: seq<string>, xs: seq<string>)
    requires Subsequence(c, xs) && c != []
    ensures xs != [] && Subsequence(c[1..], xs[1..])
    decreases |xs|
  {
    if !(c[0] == xs[0] && Subsequence(c[1..], xs[1..])) {
      TailSubsequence(c, xs[1..]);
      SkipHead(c[1..], xs[1..]);
    }
  }

  lemma SkipHead(c: seq<string>, xs: seq<string>)
    requires xs != [] && Subsequence(c, xs[1..])
    ensures Subsequence(c, xs)
  {
  }

  /** Nothing common is longer. */
  lemma {:induction false} LcsBounds(c: seq<string>, xs: seq<string>, ys: seq<string>)
    requires Common(c, xs, ys)
    ensures |c| <= Lcs(xs, ys)
    decreases |xs| + |ys|
  {
    if c != [] {
      TailSubsequence(c, xs);
      TailSubsequence(c, ys);
      if xs[0] == ys[0] {
        LcsBounds(c[1..], xs[1..], ys[1..]);
      } else if c[0] != xs[0] {
        LcsBounds(c, xs[1..], ys);
      } else {
        LcsBounds(c, xs, ys[1..]);
      }
    }
  }

  lemma {:induction false} LcsAttained(xs: seq<string>, ys: seq<string>) returns (c: seq<string>)
    ensures Common(c, xs, ys) && |c| == Lcs(xs, ys)
    decreases |xs| + |ys|
  {
    if xs == [] || ys == [] {
      c := [];
    } else if xs[0] == ys[0] {
      var tail := LcsAttained(xs[1..], ys[1..]);
      c := [xs[0]] + tail;
      assert c[1..] == tail;
    } else if Lcs(xs[1..], ys) >= Lcs(xs, ys[1..]) {
      c := LcsAttained(xs[1..], ys);
    } else {
      c := LcsAttained(xs, ys[1..]);
    }
  }

  /** The recurrence computes the true length: some common subsequence has it and none is longer. */
  lemma LcsIsLongest(xs: seq<string>, ys: seq<string>)
    ensures exists c :: Common(c, xs, ys) && |c| == Lcs(xs, ys)
    ensures forall c :: Common(c, xs, ys) ==> |c| <= Lcs(xs, ys)
  {
    var _ := LcsAttained(xs, ys);
    forall c | Common(c, xs, ys)
      ensures |c| <= Lcs(xs, ys)
    {
      LcsBounds(c, xs, ys);
    }
  }

  // ----- edit scripts -----

  datatype Op = Context(line: Line) | Remove(line: Line) | Add(line: Line)

  function NewSide(ops: seq<Op>): seq<Line> {
    if ops == [] then []
    else if ops[0].Remove? then NewSide(ops[1..])
    else [ops[0].line] + NewSide(ops[1..])
  }

  function OldSide(ops: seq<Op>): seq<Line> {
    if ops == [] then []
    else if ops[0].Add? then OldSide(ops[1..])
    else [ops[0].line] + OldSide(ops[1..])
  }

  function Contexts(ops: seq<Op>): seq<Line> {
    if ops == [] then []
    else if ops[0].Context? then [ops[0].line] + Contexts(ops[1..])
    else Contexts(ops[1..])
  }

  function Changes(ops: seq<Op>): nat {
    if ops == [] then 0
    else (if ops[0].Context? then 0 else 1) + Changes(ops[1..])
  }

  /** The script turns `old` into `new`: exact on the new side, up to surrounding white space on the
      old side, where kept lines show their new text. */
  predicate Edits(ops: seq<Op>, oldLines: seq<Line>, newLines: seq<Line>) {
    NewSide(ops) == newLines && Keys(OldSide(ops)) == Keys(oldLines)
  }

  lemma KeysCons(line: Line, lines: seq<Line>)
    ensures Keys([line] + lines) == [Trim(line)] + Keys(lines)
  {
  }

  lemma {:induction false} ContextsCommon(ops: seq<Op>)
    ensures Common(Keys(Contexts(ops)), Keys(OldSide(ops)), Keys(NewSide(ops)))
    ensures Changes(ops) + 2 * |Contexts(ops)| == |OldSide(ops)| + |NewSide(ops)|
  {
    hide Trim;
    if ops != [] {
      var rest := ops[1..];
      ContextsCommon(rest);
      KeysCons(ops[0].line, Contexts(rest));
      KeysCons(ops[0].line, OldSide(rest));
      KeysCons(ops[0].line, NewSide(rest));
      assert Keys([ops[0].line] + Contexts(rest))[1..] == Keys(Contexts(rest));
      assert Keys([ops[0].line] + OldSide(rest))[1..] == Keys(OldSide(rest));
      assert Keys([ops[0].line] + NewSide(rest))[1..] == Keys(NewSide(rest));
    }
  }

  /** What the walk over the table produces. */
  function Walk(oldLines: seq<Line>, newLines: seq<Line>): seq<Op>
    decreases |oldLines| + |newLines|
  {
    if oldLines == [] && newLines == [] then []
    else if oldLines != [] && newLines != [] && Trim(oldLines[0]) == Trim(newLines[0]) then
      [Context(newLines[0])] + Walk(oldLines[1..], newLines[1..])
    else if newLines != [] && (oldLines == [] ||
        Lcs(Keys(oldLines), Keys(newLines[1..])) >= Lcs(Keys(oldLines[1..]), Keys(newLines))) then
      [Add(newLines[0])] + Walk(oldLines, newLines[1..])
    else
      [Remove(oldLines[0])] + Walk(oldLines[1..], newLines)
  }

  lemma KeysTail(lines: seq<Line>)
    requires lines != []
    ensures Keys(lines)[1..] == Keys(lines[1..]) && Keys(lines)[0] == Trim(lines[0])
  {
  }

  lemma {:induction false} WalkEdits(oldLines: seq<Line>, newLines: seq<Line>)
    ensures Edits(Walk(oldLines, newLines), oldLines, newLines)
    ensures |Contexts(Walk(oldLines, newLines))| == Lcs(Keys(oldLines), Keys(newLines))
    decreases |oldLines| + |newLines|
  {
    hide Trim;
    if oldLines != [] {
      KeysTail(oldLines);
    }
    if newLines != [] {
      KeysTail(newLines);
    }
    if oldLines == [] && newLines == [] {
    } else if oldLines != [] && newLines != [] && Trim(oldLines[0]) == Trim(newLines[0]) {
      WalkEdits(oldLines[1..], newLines[1..]);
      var rest := Walk(oldLines[1..], newLines[1..]);
      assert Walk(oldLines, newLines)[1..] == rest;
      KeysCons(newLines[0], OldSide(rest));
      KeysCons(oldLines[0], oldLines[1..]);
      assert oldLines == [oldLines[0]] + oldLines[1..];
    } else if newLines != [] && (oldLines == [] ||
        Lcs(Keys(oldLines), Keys(newLines[1..])) >= Lcs(Keys(oldLines[1..]), Keys(newLines))) {
      WalkEdits(oldLines, newLines[1..]);
      assert Walk(oldLines, newLines)[1..] == Walk(oldLines, newLines[1..]);
    } else {
      WalkEdits(oldLines[1..], newLines);
      var rest := Walk(oldLines[1..], newLines);
      assert Walk(oldLines, newLines)[1..] == rest;
      KeysCons(oldLines[0], OldSide(rest));
      KeysCons(oldLines[0], oldLines[1..]);
      assert oldLines == [oldLines[0]] + oldLines[1..];
    }
  }

  /** Removed lines are shown with their exact old text. */
  lemma {:induction false} RemovalsExact(oldLines: seq<Line>, newLines: seq<Line>)
    ensures forall op :: op in Walk(oldLines, newLines) && op.Remove? ==> op.line in oldLines
    decreases |oldLines| + |newLines|
  {
    if oldLines == [] && newLines == [] {
    } else if oldLines != [] && newLines != [] && Trim(oldLines[0]) == Trim(newLines[0]) {
      RemovalsExact(oldLines[1..], newLines[1..]);
    } else if newLines != [] && (oldLines == [] ||
        Lcs(Keys(oldLines), Keys(newLines[1..])) >= Lcs(Keys(oldLines[1..]), Keys(newLines))) {
      RemovalsExact(oldLines, newLines[1..]);
    } else {
      RemovalsExact(oldLines[1..], newLines);
    }
  }

  /** No edit script between the two texts adds and removes fewer lines. */
  lemma WalkIsMinimal(oldLines: seq<Line>, newLines: seq<Line>, ops: seq<Op>)
    requires Edits(ops, oldLines, newLines)
    ensures Changes(Walk(oldLines, newLines)) <= Changes(ops)
  {
    hide Walk, Keys, Lcs, Subsequence;
    WalkEdits(oldLines, newLines);
    ContextsCommon(Walk(oldLines, newLines));
    ContextsCommon(ops);
    LcsBounds(Keys(Contexts(ops)), Keys(oldLines), Keys(newLines));
  }

  // ----- which of the shortest scripts -----

  function Rank(op: Op): nat {
    if op.Context? then 0 else if op.Add? then 1 else 2
  }

  /** At the first place where the two scripts do different things, `a` keeps rather than adds, and adds rather
      than removes. */
  predicate ComesFirst(a: seq<Op>, b: seq<Op>)
    decreases |a|
  {
    || a == [] || (b != [] && Rank(a[0]) < Rank(b[0]))
    || (b != [] && Rank(a[0]) == Rank(b[0]) && ComesFirst(a[1..], b[1..]))
  }

  lemma EditsTail(ops: seq<Op>, oldLines: seq<Line>, newLines: seq<Line>)
    requires Edits(ops, oldLines, newLines)
    ensures ops == [] <==> oldLines == [] && newLines == []
    ensures ops != [] && !ops[0].Remove? ==> newLines != [] && ops[0].line == newLines[0]
    ensures ops != [] && !ops[0].Add? ==> oldLines != [] && Trim(ops[0].line) == Trim(oldLines[0])
    ensures ops != [] ==>
        Edits(ops[1..], if ops[0].Add? then oldLines else oldLines[1..],
            if ops[0].Remove? then newLines else newLines[1..])
  {
    hide Trim;
    if ops != [] {
      KeysCons(ops[0].line, OldSide(ops[1..]));
      if !ops[0].Add? {
        assert |Keys(OldSide(ops))| == |Keys(oldLines)|;
        KeysTail(OldSide(ops));
        KeysTail(oldLines);
      }
    }
  }

  lemma ShortestChanges(oldLines: seq<Line>, newLines: seq<Line>)
    ensures Changes(Walk(oldLines, newLines)) == |oldLines| + |newLines| - 2 * Lcs(Keys(oldLines), Keys(newLines))
  {
    hide Walk, Keys, Lcs;
    WalkEdits(oldLines, newLines);
    ContextsCommon(Walk(oldLines, newLines));
    KeysLength(OldSide(Walk(oldLines, newLines)));
    KeysLength(oldLines);
  }

  lemma KeysLength(lines: seq<Line>)
    ensures |Keys(lines)| == |lines|
  {
  }

  /** Of all shortest scripts the program shows the one that keeps a line as early as it can, and adds before it
      removes unless a common line would be lost by that. */
  lemma {:induction false} WalkComesFirst(oldLines: seq<Line>, newLines: seq<Line>, ops: seq<Op>)
    requires Edits(ops, oldLines, newLines) && Changes(ops) == Changes(Walk(oldLines, newLines))
    ensures ComesFirst(Walk(oldLines, newLines), ops)
    decreases |oldLines| + |newLines|
  {
    hide Trim, Edits, Keys, Lcs;
    var walk := Walk(oldLines, newLines);
    WalkEdits(oldLines, newLines);
    EditsTail(ops, oldLines, newLines);
    EditsTail(walk, oldLines, newLines);
    if walk != [] && Rank(walk[0]) == Rank(ops[0]) {
      var old', new' := if ops[0].Add? then oldLines else oldLines[1..],
          if ops[0].Remove? then newLines else newLines[1..];
      assert walk[1..] == Walk(old', new');
      WalkComesFirst(old', new', ops[1..]);
    } else if walk != [] && ops[0].Add? && walk[0].Remove? {
      WalkIsMinimal(oldLines, newLines[1..], ops[1..]);
      ShortestChanges(oldLines, newLines[1..]);
      ShortestChanges(oldLines[1..], newLines);
    }
  }

  // ----- the table and the walk -----

  /** What belongs at row `i`, column `j`: the length for the two suffixes. */
  function Entry(oldLines: seq<Line>, newLines: seq<Line>, i: nat, j: nat): nat
    requires i <= |oldLines| && j <= |newLines|
  {
    Lcs(Keys(oldLines)[i..], Keys(newLines)[j..])
  }

  lemma EntryStep(oldLines: seq<Line>, newLines: seq<Line>, i: nat, j: nat)
    requires i <= |oldLines| && j <= |newLines|
    ensures i == |oldLines| || j == |newLines| ==> Entry(oldLines, newLines, i, j) == 0
    ensures i < |oldLines| && j < |newLines| ==>
              Entry(oldLines, newLines, i, j) == if Trim(oldLines[i]) == Trim(newLines[j]) then
                  Entry(oldLines, newLines, i + 1, j + 1) + 1
                                         else Max(Entry(oldLines, newLines, i + 1, j),
                                             Entry(oldLines, newLines, i, j + 1))
  {
    hide Trim;
    if i < |oldLines| && j < |newLines| {
      assert Keys(oldLines)[i..][1..] == Keys(oldLines)[i + 1..] && Keys(newLines)[j..][1..] == Keys(newLines)[j + 1..];
    }
  }

  method FillTable(oldLines: seq<Line>, newLines: seq<Line>) returns (dp: array2<nat>)
    ensures fresh(dp) && dp.Length0 == |oldLines| + 1 && dp.Length1 == |newLines| + 1
    ensures forall i, j :: 0 <= i <= |oldLines| && 0 <= j <= |newLines| ==> dp[i, j] == Entry(oldLines, newLines, i, j)
  {
    hide Trim, Entry;
    var m, n := |oldLines|, |newLines|;
    dp := new nat[m + 1, n + 1]((i, j) => 0);
    forall b | 0 <= b <= n
      ensures Entry(oldLines, newLines, m, b) == 0
    {
      EntryStep(oldLines, newLines, m, b);
    }
    for i := m downto 0
      invariant forall a, b :: i <= a <= m && 0 <= b <= n ==> dp[a, b] == Entry(oldLines, newLines, a, b)
      invariant forall a, b :: 0 <= a < i && 0 <= b <= n ==> dp[a, b] == 0
    {
      EntryStep(oldLines, newLines, i, n);
      for j := n downto 0
        invariant forall a, b :: i < a <= m && 0 <= b <= n ==> dp[a, b] == Entry(oldLines, newLines, a, b)
        invariant forall b :: j <= b <= n ==> dp[i, b] == Entry(oldLines, newLines, i, b)
        invariant forall a, b :: 0 <= a < i && 0 <= b <= n ==> dp[a, b] == 0
      {
        EntryStep(oldLines, newLines, i, j);
        dp[i, j] := if Trim(oldLines[i]) == Trim(newLines[j]) then dp[i + 1, j + 1] + 1
            else Max(dp[i + 1, j], dp[i, j + 1]);
      }
    }
  }

  lemma KeysFrom(lines: seq<Line>, i: nat)
    requires i <= |lines|
    ensures Keys(lines)[i..] == Keys(lines[i..])
  {
  }

  /** What is still to be shown from line `i` and line `j` on. */
  function Rest(oldLines: seq<Line>, newLines: seq<Line>, i: nat, j: nat): seq<Op>
    requires i <= |oldLines| && j <= |newLines|
  {
    Walk(oldLines[i..], newLines[j..])
  }

  /** One step of the walk, read off the table. */
  lemma RestStep(oldLines: seq<Line>, newLines: seq<Line>, i: nat, j: nat)
    requires i <= |oldLines| && j <= |newLines| && (i < |oldLines| || j < |newLines|)
    ensures Rest(oldLines, newLines, i, j) ==
            if i < |oldLines| && j < |newLines| && Trim(oldLines[i]) == Trim(newLines[j]) then
              [Context(newLines[j])] + Rest(oldLines, newLines, i + 1, j + 1)
            else if j < |newLines| && (i >= |oldLines| ||
                Entry(oldLines, newLines, i, j + 1) >= Entry(oldLines, newLines, i + 1, j)) then
              [Add(newLines[j])] + Rest(oldLines, newLines, i, j + 1)
            else
              [Remove(oldLines[i])] + Rest(oldLines, newLines, i + 1, j)
  {
    hide Trim, Lcs;
    KeysFrom(oldLines, i);
    KeysFrom(newLines, j);
    if i < |oldLines| {
      assert oldLines[i..][1..] == oldLines[i + 1..];
      KeysFrom(oldLines, i + 1);
    }
    if j < |newLines| {
      assert newLines[j..][1..] == newLines[j + 1..];
      KeysFrom(newLines, j + 1);
    }
  }

  lemma RestEnds(oldLines: seq<Line>, newLines: seq<Line>)
    ensures Rest(oldLines, newLines, 0, 0) == Walk(oldLines, newLines)
    ensures Rest(oldLines, newLines, |oldLines|, |newLines|) == []
  {
    assert oldLines[0..] == oldLines && newLines[0..] == newLines;
  }

  /** The diff as the program computes it. */
  method Diff(oldLines: seq<Line>, newLines: seq<Line>) returns (ops: seq<Op>)
    ensures ops == Walk(oldLines, newLines)
  {
    hide Trim, Rest, Entry, Walk, Lcs, Keys;
    var m, n := |oldLines|, |newLines|;
    var dp := FillTable(oldLines, newLines);
    ops := [];
    var i, j := 0, 0;
    RestEnds(oldLines, newLines);
    while i < m || j < n
      invariant 0 <= i <= m && 0 <= j <= n
      invariant forall a, b :: 0 <= a <= m && 0 <= b <= n ==> dp[a, b] == Entry(oldLines, newLines, a, b)
      invariant ops + Rest(oldLines, newLines, i, j) == Walk(oldLines, newLines)
      decreases m - i + n - j
    {
      RestStep(oldLines, newLines, i, j);
      ghost var before, rest := ops, Rest(oldLines, newLines, i, j);
      if i < m && j < n && Trim(oldLines[i]) == Trim(newLines[j]) {
        ops := ops + [Context(newLines[j])];
        i, j := i + 1, j + 1;
      } else if j < n && (i >= m || dp[i, j + 1] >= dp[i + 1, j]) {
        ops := ops + [Add(newLines[j])];
        j := j + 1;
      } else {
        ops := ops + [Remove(oldLines[i])];
        i := i + 1;
      }
      assert ops == before + [ops[|before|]] && rest == [ops[|before|]] + Rest(oldLines, newLines, i, j);
    }
  }
}
