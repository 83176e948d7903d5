// The deterministic fixes: machine-applicable span edits, sorted, deduplicated and applied from the end of
// the text (crates/fidan-cli/src/fix.rs).

module SpanEdits {
  import opened Sorting
  import opened Options
  import opened Splicing

  /** A replacement of the bytes `start` up to `end`. */
  type SpanEdit = Edit<char, ()>

  /** Of consecutive edits with the same start only the first is kept. */
  function Dedup(edits: seq<SpanEdit>): seq<SpanEdit>
    decreases |edits|
  {
    if |edits| <= 1 then edits
    else
      var before := Dedup(edits[..|edits| - 1]);
      if before != [] && before[|before| - 1].start == edits[|edits| - 1].start then before
      else before + [edits[|edits| - 1]]
  }

  /** One `replace_range`, its end capped at the text's length; None is a panic. */
  function Replace(text: string, e: SpanEdit): Option<string> {
    var end := if e.end <= |text| then e.end else |text|;
    if e.start <= end then Some(Splice(text, e.(end := end))) else None
  }

  function ReplaceAll(text: string, edits: seq<SpanEdit>): Option<string>
    decreases |edits|
  {
    if edits == [] then Some(text)
    else
      match Replace(text, edits[0])
      case None => None
      case Some(text1) => ReplaceAll(text1, edits[1..])
  }

  method DedupInPlace(edits: seq<SpanEdit>) returns (kept: seq<SpanEdit>)
    ensures kept == Dedup(edits)
  {
    kept := [];
    for i := 0 to |edits|
      invariant kept == Dedup(edits[..i])
    {
      assert edits[..i + 1][..i] == edits[..i];
      if kept == [] || kept[|kept| - 1].start != edits[i].start {
        kept := kept + [edits[i]];
      }
    }
    assert edits[..|edits|] == edits;
  }

  /** What `fix` writes back. */
  method ApplyEdits(text: string, edits: seq<SpanEdit>) returns (r: Option<string>)
    ensures r == ReplaceAll(text, Dedup(Sort(LaterStart, edits)))
  {
    var sorted := Sort(LaterStart, edits);
    var kept := DedupInPlace(sorted);
    var patched := text;
    assert kept[0..] == kept;
    for i := 0 to |kept|
      invariant ReplaceAll(patched, kept[i..]) == ReplaceAll(text, kept)
    {
      assert kept[i..][1..] == kept[i + 1..];
      var hi := if kept[i].end <= |patched| then kept[i].end else |patched|;
      if kept[i].start > hi {
        return None;
      }
      patched := patched[..kept[i].start] + kept[i].replacement + patched[hi..];
    }
    r := Some(patched);
  }

  // ----- which edit counts at each start -----

  /** The first edit listed with this start. */
  function First(edits: seq<SpanEdit>, k: nat): Option<SpanEdit> {
    if edits == [] then None
    else if edits[0].start == k then Some(edits[0])
    else First(edits[1..], k)
  }

  /** The edits that are the first with their start. */
  function Firsts(edits: seq<SpanEdit>): seq<SpanEdit>
    decreases |edits|
  {
    if edits == [] then []
    else
      var e := edits[|edits| - 1];
      var before := edits[..|edits| - 1];
      if First(before, e.start).Some? then Firsts(before) else Firsts(before) + [e]
  }

  lemma {:induction false} FirstInsert(e: SpanEdit, s: seq<SpanEdit>, k: nat)
    ensures First(Insert(LaterStart, e, s), k) == if e.start == k then Some(e) else First(s, k)
  {
    if s != [] && LaterStart(s[0], e) {
      FirstInsert(e, s[1..], k);
    } else {
      assert ([e] + s)[1..] == s;
    }
  }

  /** The sort is stable: it does not change which edit comes first at any start. */
  lemma {:induction false} FirstSort(edits: seq<SpanEdit>, k: nat)
    ensures First(Sort(LaterStart, edits), k) == First(edits, k)
  {
    if edits != [] {
      FirstSort(edits[1..], k);
      FirstInsert(edits[0], Sort(LaterStart, edits[1..]), k);
    }
  }

  lemma {:induction false} FirstSnoc(edits: seq<SpanEdit>, e: SpanEdit, k: nat)
    ensures First(edits + [e], k) == if First(edits, k).Some? then First(edits, k) else if e.start == k then Some(e)
        else None
  {
    if edits != [] {
      assert (edits + [e])[1..] == edits[1..] + [e];
      FirstSnoc(edits[1..], e, k);
    }
  }

  lemma {:induction false} FirstMember(edits: seq<SpanEdit>, k: nat)
    ensures First(edits, k).Some? ==> First(edits, k).value in edits && First(edits, k).value.start == k
    ensures First(edits, k).None? ==> forall e :: e in edits ==> e.start != k
  {
    if edits != [] && edits[0].start != k {
      FirstMember(edits[1..], k);
    }
  }

  lemma {:induction false} DedupStrict(edits: seq<SpanEdit>)
    requires Ordered(LaterStart, edits)
    ensures Strict(LaterStart, Dedup(edits))
    ensures (edits == [] <==> Dedup(edits) == [])
    ensures edits != [] ==> Dedup(edits)[|Dedup(edits)| - 1].start == edits[|edits| - 1].start
    decreases |edits|
  {
    if |edits| > 1 {
      var n := |edits| - 1;
      DedupStrict(edits[..n]);
      assert !LaterStart(edits[n], edits[n - 1]);
    }
  }

  /** Deduplicating a descending list keeps, for each start, the edit that came first. */
  lemma {:induction false} DedupKeepsFirst(edits: seq<SpanEdit>, k: nat)
    requires Ordered(LaterStart, edits)
    ensures Strict(LaterStart, Dedup(edits)) && First(Dedup(edits), k) == First(edits, k)
    decreases |edits|
  {
    hide Strict, First;
    DedupStrict(edits);
    if |edits| > 1 {
      var n := |edits| - 1;
      var e := edits[n];
      var before := Dedup(edits[..n]);
      DedupKeepsFirst(edits[..n], k);
      DedupStrict(edits[..n]);
      assert edits == edits[..n] + [e];
      FirstSnoc(edits[..n], e, k);
      FirstSnoc(before, e, k);
      if before[|before| - 1].start == e.start {
        FirstMember(before, e.start);
      }
    }
  }

  lemma {:induction false} FirstsKeepFirst(edits: seq<SpanEdit>, k: nat)
    ensures First(Firsts(edits), k) == First(edits, k)
    ensures forall e :: e in Firsts(edits) ==> First(edits, e.start) == Some(e)
    decreases |edits|
  {
    if edits != [] {
      var n := |edits| - 1;
      FirstsKeepFirst(edits[..n], k);
      assert edits == edits[..n] + [edits[n]];
      forall j: nat
        ensures First(edits, j) == if First(edits[..n], j).Some? then First(edits[..n], j)
            else if edits[n].start == j then Some(edits[n]) else None
      {
        FirstSnoc(edits[..n], edits[n], j);
      }
      FirstSnoc(Firsts(edits[..n]), edits[n], k);
    }
  }

  lemma {:induction false} InsertedIsFirst(edits: seq<SpanEdit>, k: nat)
    ensures InsertedAt(edits, k) == if First(edits, k).Some? then First(edits, k).value.replacement else []
  {
    if edits != [] && edits[0].start != k {
      InsertedIsFirst(edits[1..], k);
    }
  }

  /** Members of a list without repeated starts are the firsts. */
  lemma {:induction false} StrictMember(edits: seq<SpanEdit>, e: SpanEdit)
    requires Strict(LaterStart, edits) && e in edits
    ensures First(edits, e.start) == Some(e)
  {
    if edits[0] != e {
      var i :| 0 <= i < |edits| && edits[i] == e;
      assert LaterStart(edits[0], edits[i]);
      StrictMember(edits[1..], e);
    }
  }

  /** Edits that contribute the same text at every position give the same result. */
  lemma SameContribution(text: string, a: seq<SpanEdit>, b: seq<SpanEdit>)
    requires forall k: nat :: First(a, k) == First(b, k)
    requires forall e :: e in a ==> First(a, e.start) == Some(e)
    requires forall e :: e in b ==> First(b, e.start) == Some(e)
    ensures Simultaneous(text, a) == Simultaneous(text, b)
    ensures forall e :: e in a <==> e in b
  {
    hide First;
    forall e
      ensures e in a <==> e in b
    {
      FirstMember(a, e.start);
      FirstMember(b, e.start);
    }
    forall k: nat
      ensures InsertedAt(a, k) == InsertedAt(b, k)
    {
      InsertedIsFirst(a, k);
      InsertedIsFirst(b, k);
    }
    FromSame(text, a, b, 0);
  }

  // ----- the result -----

  lemma {:induction false} CapUnused(text: string, edits: seq<SpanEdit>)
    requires SpliceAll(text, edits).Some?
    ensures ReplaceAll(text, edits) == SpliceAll(text, edits)
    decreases |edits|
  {
    if edits != [] {
      CapUnused(Splice(text, edits[0]), edits[1..]);
    }
  }

  /** What is applied is the first edits at each start, from the last start to the first. */
  lemma KeptAreFirsts(edits: seq<SpanEdit>)
    ensures var kept := Dedup(Sort(LaterStart, edits));
            && Strict(LaterStart, kept) && forall e :: e in kept <==> e in Firsts(edits)
    ensures forall k: nat :: First(Dedup(Sort(LaterStart, edits)), k) == First(Firsts(edits), k)
  {
    hide First, Dedup;
    var sorted := Sort(LaterStart, edits);
    var kept := Dedup(sorted);
    SortOrdered(LaterStart, edits);
    DedupKeepsFirst(sorted, 0);
    forall k: nat
      ensures First(kept, k) == First(Firsts(edits), k) == First(edits, k)
    {
      DedupKeepsFirst(sorted, k);
      FirstSort(edits, k);
      FirstsKeepFirst(edits, k);
    }
    forall e
      ensures e in kept <==> e in Firsts(edits)
    {
      FirstMember(kept, e.start);
      FirstMember(Firsts(edits), e.start);
      FirstsKeepFirst(edits, e.start);
      if e in kept {
        StrictMember(kept, e);
      }
    }
  }

  lemma WithinText(text: string, edits: seq<SpanEdit>)
    requires Disjoint(text, Firsts(edits))
    ensures ReplaceAll(text, Dedup(Sort(LaterStart, edits))) == Some(Simultaneous(text, Firsts(edits)))
  {
    hide Simultaneous, First, Dedup;
    var kept := Dedup(Sort(LaterStart, edits));
    KeptAreFirsts(edits);
    forall e | e in kept
      ensures First(kept, e.start) == Some(e)
    {
      StrictMember(kept, e);
    }
    forall e | e in Firsts(edits)
      ensures First(Firsts(edits), e.start) == Some(e)
    {
      FirstsKeepFirst(edits, e.start);
    }
    SameContribution(text, Firsts(edits), kept);
    KeptDisjoint(text, Firsts(edits), kept);
    BatchIsSimultaneous(text, kept);
    SortIsStrict(LaterStart, kept, kept);
    CapUnused(text, kept);
  }

  // ----- edits that run past the end -----

  function Cap(n: nat, e: SpanEdit): SpanEdit {
    if e.end <= n then e else e.(end := n)
  }

  function Caps(n: nat, edits: seq<SpanEdit>): seq<SpanEdit> {
    seq(|edits|, i requires 0 <= i < |edits| => Cap(n, edits[i]))
  }

  lemma {:induction false} InsertCaps(n: nat, e: SpanEdit, s: seq<SpanEdit>)
    ensures Caps(n, Insert(LaterStart, e, s)) == Insert(LaterStart, Cap(n, e), Caps(n, s))
  {
    if s != [] && LaterStart(s[0], e) {
      InsertCaps(n, e, s[1..]);
      assert Caps(n, s)[1..] == Caps(n, s[1..]);
    }
  }

  lemma {:induction false} SortCaps(n: nat, edits: seq<SpanEdit>)
    ensures Caps(n, Sort(LaterStart, edits)) == Sort(LaterStart, Caps(n, edits))
  {
    if edits != [] {
      SortCaps(n, edits[1..]);
      InsertCaps(n, edits[0], Sort(LaterStart, edits[1..]));
      assert Caps(n, edits)[1..] == Caps(n, edits[1..]);
    }
  }

  lemma {:induction false} DedupCaps(n: nat, edits: seq<SpanEdit>)
    ensures Caps(n, Dedup(edits)) == Dedup(Caps(n, edits))
    decreases |edits|
  {
    if |edits| > 1 {
      var k := |edits| - 1;
      DedupCaps(n, edits[..k]);
      assert Caps(n, edits)[..k] == Caps(n, edits[..k]);
    }
  }

  /** Whatever starts behind an edit that runs past the end inserts nothing. */
  ghost predicate NothingBehind(n: nat, edits: seq<SpanEdit>) {
    forall e, g :: e in edits && g in edits && e.end > n && g.start > e.start ==> g.replacement == []
  }

  lemma InCappedText(text: string, kept: seq<SpanEdit>)
    requires Strict(LaterStart, kept) && Disjoint(text, Caps(|text|, kept))
    ensures forall i :: 0 <= i < |kept| ==> kept[i].start <= Cap(|text|, kept[i]).end && kept[i].start <= kept[i].end
    ensures forall i, j :: 0 <= i < j < |kept| ==> Cap(|text|, kept[j]).end <= kept[i].start <= |text|
  {
    forall i | 0 <= i < |kept|
      ensures kept[i].start <= Cap(|text|, kept[i]).end <= |text| && kept[i].start <= kept[i].end
    {
      assert Caps(|text|, kept)[i] in Caps(|text|, kept);
    }
    forall i, j | 0 <= i < j < |kept|
      ensures Cap(|text|, kept[j]).end <= kept[i].start
    {
      assert LaterStart(kept[i], kept[j]) && Apart(Caps(|text|, kept)[i], Caps(|text|, kept)[j]);
    }
  }

  /** Only the second from the end can run past the end with another one behind it, which is then an insertion at
      the very end. */
  lemma OnlySecond(text: string, kept: seq<SpanEdit>, i: nat)
    requires Strict(LaterStart, kept) && Disjoint(text, Caps(|text|, kept))
    requires 0 < i < |kept| && kept[i].end > |text|
    ensures i == 1 && kept[0].start == |text|
    ensures forall j :: 2 <= j < |kept| ==> kept[j].end <= kept[1].start
  {
    hide Disjoint, Strict;
    InCappedText(text, kept);
    assert Cap(|text|, kept[i]).end == |text| <= kept[0].start;
    if i > 1 {
      assert |text| <= kept[1].start && Cap(|text|, kept[1]).end <= kept[0].start;
      assert LaterStart(kept[0], kept[1]) by {
        Later(kept);
      }
    }
    forall j | 2 <= j < |kept|
      ensures kept[j].end <= kept[1].start
    {
      assert Cap(|text|, kept[j]).end <= kept[1].start;
      assert LaterStart(kept[0], kept[1]) by {
        Later(kept);
      }
    }
  }

  lemma Later(kept: seq<SpanEdit>)
    requires Strict(LaterStart, kept)
    ensures forall i, j :: 0 <= i < j < |kept| ==> LaterStart(kept[i], kept[j])
  {
  }

  /** Edits below a position change two texts' lengths by the same amount. */
  lemma {:induction false} SameGrowth(a: string, b: string, rest: seq<SpanEdit>)
    requires forall r :: r in rest ==> r.start <= r.end <= |a| && r.end <= |b|
    requires forall i, j :: 0 <= i < j < |rest| ==> rest[j].end <= rest[i].start
    ensures ReplaceAll(a, rest).Some? && ReplaceAll(b, rest).Some?
    ensures |ReplaceAll(a, rest).value| - |a| == |ReplaceAll(b, rest).value| - |b|
    decreases |rest|
  {
    if rest != [] {
      assert rest[0] in rest;
      forall r | r in rest[1..]
        ensures r in rest && r.end <= rest[0].start
      {
        var j :| 0 <= j < |rest[1..]| && rest[1..][j] == r;
        assert rest[j + 1] == r;
      }
      SameGrowth(Splice(a, rest[0]), Splice(b, rest[0]), rest[1..]);
    }
  }

  lemma ReplaceTwo(text: string, a: SpanEdit, b: SpanEdit, rest: seq<SpanEdit>, text1: string, text2: string)
    requires Replace(text, a) == Some(text1) && Replace(text1, b) == Some(text2)
    ensures ReplaceAll(text, [a, b] + rest) == ReplaceAll(text2, rest)
  {
    hide Replace;
    assert ([a, b] + rest)[1..] == [b] + rest && ([b] + rest)[1..] == rest;
  }

  /** Two edits, the first of them an insertion at the end and the second running past it: what was inserted is
      replaced with the rest. */
  lemma SwallowsExactly(text: string, g: SpanEdit, e: SpanEdit, rest: seq<SpanEdit>)
    requires g.start == |text| && |text| <= g.end && e.start <= |text| < e.end
    requires forall r :: r in rest ==> r.start <= r.end <= e.start
    requires forall i, j :: 0 <= i < j < |rest| ==> rest[j].end <= rest[i].start
    ensures ReplaceAll(text, [g, e] + rest) == ReplaceAll(text, [Cap(|text|, g), Cap(|text|, e)] + rest) <==>
              g.replacement == []
  {
    hide ReplaceAll;
    var n := |text|;
    var text1 := text + g.replacement;
    assert text[..n] + g.replacement + text[n..] == text1;
    assert Replace(text, g) == Replace(text, Cap(n, g)) == Some(text1);
    var end := if e.end <= |text1| then e.end else |text1|;
    var a, b := text1[..e.start] + e.replacement + text1[end..], text1[..e.start] + e.replacement + text1[n..];
    ReplaceTwo(text, g, e, rest, text1, a);
    ReplaceTwo(text, Cap(n, g), Cap(n, e), rest, text1, b);
    SameGrowth(a, b, rest);
  }

  lemma CapsApplyExactly(text: string, kept: seq<SpanEdit>)
    requires Strict(LaterStart, kept) && Disjoint(text, Caps(|text|, kept))
    ensures ReplaceAll(text, kept) == ReplaceAll(text, Caps(|text|, kept)) <==> NothingBehind(|text|, kept)
  {
    hide Disjoint, NothingBehind, Replace;
    var n := |text|;
    if i :| 0 < i < |kept| && kept[i].end > n {
      OnlySecond(text, kept, i);
      var rest := kept[2..];
      InCappedText(text, kept);
      SecondRunsPast(n, kept);
      RestBelow(n, kept, rest);
      SwallowsExactly(text, kept[0], kept[1], rest);
    } else if kept != [] {
      assert Caps(n, kept)[1..] == kept[1..];
      CapOne(text, kept[0]);
      FirstRunsPast(n, kept);
    } else {
      assert Caps(n, kept) == [];
      FirstRunsPast(n, kept);
    }
  }

  lemma CapOne(text: string, e: SpanEdit)
    ensures Replace(text, e) == Replace(text, Cap(|text|, e))
  {
  }

  lemma RestBelow(n: nat, kept: seq<SpanEdit>, rest: seq<SpanEdit>)
    requires |kept| >= 2 && rest == kept[2..] && kept[1].start <= n
    requires forall j :: 2 <= j < |kept| ==> kept[j].start <= kept[j].end <= kept[1].start
    requires forall i, j :: 0 <= i < j < |kept| ==> Cap(n, kept[j]).end <= kept[i].start
    ensures kept == [kept[0], kept[1]] + rest && Caps(n, kept) == [Cap(n, kept[0]), Cap(n, kept[1])] + rest
    ensures forall r :: r in rest ==> r.start <= r.end <= kept[1].start
    ensures forall i, j :: 0 <= i < j < |rest| ==> rest[j].end <= rest[i].start
  {
    forall i, j | 0 <= i < j < |rest|
      ensures rest[j].end <= rest[i].start
    {
      assert rest[j] == kept[j + 2] && rest[i] == kept[i + 2];
    }
  }

  lemma FirstRunsPast(n: nat, kept: seq<SpanEdit>)
    requires Strict(LaterStart, kept) && forall i :: 0 < i < |kept| ==> kept[i].end <= n
    ensures NothingBehind(n, kept)
  {
    forall g | g in kept
      ensures g.start <= kept[0].start && (g.end > n ==> g == kept[0])
    {
      var j :| 0 <= j < |kept| && kept[j] == g;
      assert j > 0 ==> LaterStart(kept[0], kept[j]);
    }
  }

  lemma SecondRunsPast(n: nat, kept: seq<SpanEdit>)
    requires Strict(LaterStart, kept) && |kept| >= 2 && kept[1].end > n
    requires forall j :: 2 <= j < |kept| ==> kept[j].end <= n
    ensures NothingBehind(n, kept) <==> kept[0].replacement == []
  {
    hide Strict;
    Later(kept);
    assert LaterStart(kept[0], kept[1]) && kept[0] in kept && kept[1] in kept;
    forall e, g | e in kept && g in kept && e.end > n && g.start > e.start
      ensures g == kept[0]
    {
      var i :| 0 <= i < |kept| && kept[i] == e;
      var j :| 0 <= j < |kept| && kept[j] == g;
    }
  }

  /** For edits whose firsts, ended with the text where they run past it, do not overlap: the text written back is
      the original with every span replaced at once, exactly if nothing is inserted behind one that runs past
      the end. */
  lemma EditsAreSimultaneous(text: string, edits: seq<SpanEdit>)
    requires Disjoint(text, Firsts(Caps(|text|, edits)))
    ensures ReplaceAll(text, Dedup(Sort(LaterStart, edits))) == Some(Simultaneous(text, Firsts(Caps(|text|, edits))))
       <==> NothingBehind(|text|, Firsts(edits))
  {
    hide Simultaneous, Disjoint, Dedup, ReplaceAll, Caps, Firsts, First, Strict;
    var kept, capped := Dedup(Sort(LaterStart, edits)), Caps(|text|, edits);
    KeptAreFirsts(edits);
    KeptAreFirsts(capped);
    SortCaps(|text|, edits);
    DedupCaps(|text|, Sort(LaterStart, edits));
    KeptDisjoint(text, Firsts(capped), Caps(|text|, kept));
    CapsApplyExactly(text, kept);
    WithinText(text, capped);
  }

  /** An insertion at the end of a text is lost if an edit in front of it runs past the end. */
  lemma InsertionSwallowed()
    ensures ReplaceAll("ab", Dedup(Sort(LaterStart, [Edit(2, 2, "X", ()), Edit(1, 9, "Y", ())]))) == Some("aY")
  {
    var g, e: SpanEdit := Edit(2, 2, "X", ()), Edit(1, 9, "Y", ());
    assert [g, e][1..] == [e] && [e][1..] == [] && [g, e][..1] == [g];
    assert Sort(LaterStart, [e]) == [e] by {
      assert Sort(LaterStart, [e][1..]) == [];
    }
    assert Insert(LaterStart, g, [e]) == [g] + [e];
    assert Sort(LaterStart, [g, e]) == [g, e];
    assert Dedup([g]) == [g] && Dedup([g, e]) == [g, e];
    assert "ab"[..2] + "X" + "ab"[2..] == "abX" && "abX"[..1] + "Y" + "abX"[3..] == "aY";
    ReplaceTwo("ab", g, e, [], "abX", "aY");
    assert [g, e] + [] == [g, e];
  }

  /** One span replaced, up to the text's end if it runs past it. */
  ghost predicate EditedOnce(text: string, e: SpanEdit, after: string) {
    var end := if e.end <= |text| then e.end else |text|;
    e.start <= end && after == text[..e.start] + e.replacement + text[end..]
  }

  ghost predicate EditedInTurn(texts: seq<string>, edits: seq<SpanEdit>) {
    && 0 < |texts| <= |edits| + 1
    && forall k :: 0 <= k < |texts| - 1 ==> EditedOnce(texts[k], edits[k], texts[k + 1])
  }

  lemma {:induction false} ReplacedInTurn(text: string, edits: seq<SpanEdit>) returns (texts: seq<string>)
    ensures EditedInTurn(texts, edits) && texts[0] == text
    ensures ReplaceAll(text, edits).Some? ==> |texts| == |edits| + 1 && ReplaceAll(text, edits).value == texts[|edits|]
    ensures ReplaceAll(text, edits).None? ==>
              var k := |texts| - 1; k < |edits| && (edits[k].start > edits[k].end || edits[k].start > |texts[k]|)
    decreases |edits|
  {
    texts := [text];
    if edits != [] && Replace(text, edits[0]).Some? {
      var rest := ReplacedInTurn(Replace(text, edits[0]).value, edits[1..]);
      texts := [text] + rest;
      forall k | 0 <= k < |texts| - 1
        ensures EditedOnce(texts[k], edits[k], texts[k + 1])
      {
        if k > 0 {
          assert EditedOnce(rest[k - 1], edits[1..][k - 1], rest[k - 1 + 1]);
        }
      }
    }
  }

  /** What is written back, whatever the spans: of the edits with each start the first is kept, and those are made in
      turn from the last start to the first, each in what the ones before it left. The program panics at the first
      one that starts behind its own end or behind the text's. */
  lemma EditsInTurn(text: string, edits: seq<SpanEdit>) returns (kept: seq<SpanEdit>, texts: seq<string>)
    ensures forall i, j :: 0 <= i < j < |kept| ==> kept[i].start > kept[j].start
    ensures forall e :: e in kept <==> First(edits, e.start) == Some(e)
    ensures EditedInTurn(texts, kept) && texts[0] == text
    ensures var r := ReplaceAll(text, Dedup(Sort(LaterStart, edits)));
            && (r.Some? ==> |texts| == |kept| + 1 && r.value == texts[|kept|])
            && (r.None? ==>
                  var k := |texts| - 1; k < |kept| && (kept[k].start > kept[k].end || kept[k].start > |texts[k]|))
  {
    hide Strict, First, Dedup, ReplaceAll, EditedInTurn;
    kept := Dedup(Sort(LaterStart, edits));
    texts := ReplacedInTurn(text, kept);
    KeptAreFirsts(edits);
    Later(kept);
    assert forall i, j :: 0 <= i < j < |kept| ==> LaterStart(kept[i], kept[j]);
    forall e
      ensures e in kept <==> First(edits, e.start) == Some(e)
    {
      FirstsKeepFirst(edits, e.start);
      FirstMember(Firsts(edits), e.start);
    }
  }

  /** An edit that starts behind the end of the text cannot be applied, and nothing is written back. */
  lemma StartBeyondFails(text: string, edits: seq<SpanEdit>, e: SpanEdit)
    requires e in edits && e.start > |text|
    ensures ReplaceAll(text, Dedup(Sort(LaterStart, edits))) == None
  {
    hide First, Dedup;
    var kept := Dedup(Sort(LaterStart, edits));
    KeptAreFirsts(edits);
    FirstMember(edits, e.start);
    FirstsKeepFirst(edits, e.start);
    FirstMember(kept, e.start);
    var i :| 0 <= i < |kept| && kept[i].start == e.start;
    assert i > 0 ==> LaterStart(kept[0], kept[i]);
  }

  lemma KeptDisjoint(text: string, firsts: seq<SpanEdit>, kept: seq<SpanEdit>)
    requires Disjoint(text, firsts) && Strict(LaterStart, kept) && forall e :: e in kept ==> e in firsts
    ensures Disjoint(text, kept)
  {
    forall i, j | 0 <= i < j < |kept|
      ensures Apart(kept[i], kept[j])
    {
      assert LaterStart(kept[i], kept[j]);
      var x :| 0 <= x < |firsts| && firsts[x] == kept[i];
      var y :| 0 <= y < |firsts| && firsts[y] == kept[j];
      assert Apart(firsts[x], firsts[y]) || Apart(firsts[y], firsts[x]);
    }
  }

  /** Every byte outside the spans is kept, in place between what comes before and after it. */
  lemma OutsideKept(text: string, edits: seq<SpanEdit>, p: nat, q: nat)
    requires p <= q <= |text|
    requires forall e :: e in edits ==> (e.start < p || q <= e.start) && (e.end <= p || q <= e.start)
    ensures From(text, edits, p) == text[p..q] + From(text, edits, q)
    ensures exists before :: Simultaneous(text, edits) == before + text[p..q] + From(text, edits, q)
  {
    hide InsertedAt, Covered, From;
    forall k | p <= k < q
      ensures InsertedAt(edits, k) == [] && !Covered(edits, k)
    {
      NothingInserted(edits, k);
      OutsideCovered(edits, k);
    }
    FromPlain(text, edits, p, q);
    var before := Upto(text, edits, p);
    Regroup(before, text[p..q], From(text, edits, q));
  }

  lemma OutsideCovered(edits: seq<SpanEdit>, k: nat)
    requires forall e :: e in edits ==> !(e.start <= k < e.end)
    ensures !Covered(edits, k)
  {
  }

  lemma {:induction false} Upto(text: string, edits: seq<SpanEdit>, p: nat) returns (before: string)
    requires p <= |text|
    ensures From(text, edits, 0) == before + From(text, edits, p)
  {
    hide InsertedAt, Covered;
    if p == 0 {
      before := [];
    } else {
      var shorter := Upto(text, edits, p - 1);
      before := shorter + InsertedAt(edits, p - 1) + (if Covered(edits, p - 1) then [] else [text[p - 1]]);
    }
  }
}
