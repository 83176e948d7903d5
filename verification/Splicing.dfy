// Replacing several ranges of a sequence by splicing from the end, and why that amounts to replacing them
// all at once in the original.

module Splicing {
  import opened Sorting
  import opened Options

  /** Replace positions `start` up to `end`; `note` is what the caller reports about it. */
  datatype Edit<+T, +D> = Edit(start: nat, end: nat, replacement: seq<T>, note: D)

  function Splice<T, D>(text: seq<T>, r: Edit<T, D>): seq<T>
    requires r.start <= r.end <= |text|
  {
    text[..r.start] + r.replacement + text[r.end..]
  }

  /** None is a panic: the range no longer lies within the text. */
  function SpliceAll<T, D>(text: seq<T>, rs: seq<Edit<T, D>>): Option<seq<T>>
    decreases |rs|
  {
    if rs == [] then Some(text)
    else if rs[0].start <= rs[0].end <= |text| then SpliceAll(Splice(text, rs[0]), rs[1..])
    else None
  }

  predicate LaterStart<T, D>(a: Edit<T, D>, b: Edit<T, D>) {
    a.start > b.start
  }

  // ----- one splice after another -----

  /** Each text is the one before with one range replaced. */
  ghost predicate InTurn<T, D>(texts: seq<seq<T>>, rs: seq<Edit<T, D>>) {
    && 0 < |texts| <= |rs| + 1
    && forall k :: 0 <= k < |texts| - 1 ==>
         && rs[k].start <= rs[k].end <= |texts[k]|
         && texts[k + 1] == texts[k][..rs[k].start] + rs[k].replacement + texts[k][rs[k].end..]
  }

  /** Ranges that overlap or not: the splices are made in turn, and the first range that no longer lies within the
      text reached is a panic. */
  lemma {:induction false} SpliceInTurn<T, D>(text: seq<T>, rs: seq<Edit<T, D>>) returns (texts: seq<seq<T>>)
    ensures InTurn(texts, rs) && texts[0] == text
    ensures SpliceAll(text, rs).Some? ==> |texts| == |rs| + 1 && SpliceAll(text, rs).value == texts[|rs|]
    ensures SpliceAll(text, rs).None? ==>
        var k := |texts| - 1; k < |rs| && !(rs[k].start <= rs[k].end <= |texts[k]|)
    decreases |rs|
  {
    texts := [text];
    if rs != [] && rs[0].start <= rs[0].end <= |text| {
      var rest := SpliceInTurn(Splice(text, rs[0]), rs[1..]);
      texts := [text] + rest;
      forall k | 0 <= k < |texts| - 1
        ensures rs[k].start <= rs[k].end <= |texts[k]|
        ensures texts[k + 1] == texts[k][..rs[k].start] + rs[k].replacement + texts[k][rs[k].end..]
      {
        if k > 0 {
          assert rs[1..][k - 1] == rs[k] && rest[k - 1] == texts[k] && rest[k - 1 + 1] == texts[k + 1];
        }
      }
    }
  }

  // ----- splicing from the end is simultaneous replacement -----

  ghost function InsertedAt<T, D>(rs: seq<Edit<T, D>>, p: nat): seq<T> {
    if rs == [] then []
    else if rs[0].start == p then rs[0].replacement
    else InsertedAt(rs[1..], p)
  }

  ghost predicate Covered<T, D>(rs: seq<Edit<T, D>>, p: nat) {
    exists r :: r in rs && r.start <= p < r.end
  }

  /** From position `p` on: at each position the replacement that starts there, then the original
      element unless some range replaces it. */
  ghost function From<T, D>(text: seq<T>, rs: seq<Edit<T, D>>, p: nat): seq<T>
    decreases |text| + 1 - p
  {
    if p > |text| then []
    else
      InsertedAt(rs, p)
      + (if p < |text| && !Covered(rs, p) then [text[p]] else [])
      + From(text, rs, p + 1)
  }

  ghost function Simultaneous<T, D>(text: seq<T>, rs: seq<Edit<T, D>>): seq<T> {
    From(text, rs, 0)
  }

  ghost predicate Apart<T, D>(a: Edit<T, D>, b: Edit<T, D>) {
    a.start != b.start && (a.end <= b.start || b.end <= a.start)
  }

  /** Distinct starts and disjoint ranges, all within the text. */
  ghost predicate Disjoint<T, D>(text: seq<T>, rs: seq<Edit<T, D>>) {
    && (forall r :: r in rs ==> r.start <= r.end <= |text|)
    && (forall i, j :: 0 <= i < j < |rs| ==> Apart(rs[i], rs[j]))
  }

  ghost predicate Descending<T, D>(text: seq<T>, rs: seq<Edit<T, D>>) {
    && (forall r :: r in rs ==> r.start <= r.end <= |text|)
    && (forall i, j :: 0 <= i < j < |rs| ==> rs[j].start < rs[i].start && rs[j].end <= rs[i].start)
  }

  lemma {:induction false} NothingInserted<T, D>(rs: seq<Edit<T, D>>, p: nat)
    requires forall r :: r in rs ==> r.start != p
    ensures InsertedAt(rs, p) == []
  {
    if rs != [] {
      assert rs[0] in rs;
      NothingInserted(rs[1..], p);
    }
  }

  lemma {:induction false} InsertedLast<T, D>(rs: seq<Edit<T, D>>, r: Edit<T, D>)
    requires forall q :: q in rs ==> q.start != r.start
    ensures InsertedAt(rs + [r], r.start) == r.replacement
  {
    if rs != [] {
      assert (rs + [r])[1..] == rs[1..] + [r];
      assert rs[0] in rs;
      InsertedLast(rs[1..], r);
    }
  }

  lemma {:induction false} InsertedElsewhere<T, D>(rs: seq<Edit<T, D>>, r: Edit<T, D>, p: nat)
    requires p != r.start
    ensures InsertedAt(rs + [r], p) == InsertedAt(rs, p)
  {
    if rs != [] {
      assert (rs + [r])[1..] == rs[1..] + [r];
      InsertedElsewhere(rs[1..], r, p);
    }
  }

  lemma {:induction false} FromSame<T, D>(text: seq<T>, rs: seq<Edit<T, D>>, rs': seq<Edit<T, D>>, p: nat)
    requires forall k :: k >= p ==> InsertedAt(rs, k) == InsertedAt(rs', k)
    requires forall k :: k >= p ==> (Covered(rs, k) <==> Covered(rs', k))
    ensures From(text, rs, p) == From(text, rs', p)
    decreases |text| + 1 - p
  {
    hide InsertedAt, Covered;
    if p <= |text| {
      FromSame(text, rs, rs', p + 1);
    }
  }

  lemma Regroup<T>(a: seq<T>, b: seq<T>, c: seq<T>)
    ensures a + (b + c) == a + b + c
  {
  }

  lemma FromOne<T, D>(text: seq<T>, rs: seq<Edit<T, D>>, p: nat)
    requires p < |text| && InsertedAt(rs, p) == []
    ensures From(text, rs, p) == (if Covered(rs, p) then [] else [text[p]]) + From(text, rs, p + 1)
  {
    hide InsertedAt, Covered;
  }

  lemma {:induction false} FromPlain<T, D>(text: seq<T>, rs: seq<Edit<T, D>>, p: nat, q: nat)
    requires p <= q <= |text|
    requires forall k :: p <= k < q ==> InsertedAt(rs, k) == [] && !Covered(rs, k)
    ensures From(text, rs, p) == text[p..q] + From(text, rs, q)
    decreases q - p
  {
    hide InsertedAt, Covered, From;
    if p < q {
      FromPlain(text, rs, p + 1, q);
      FromOne(text, rs, p);
      assert text[p..q] == [text[p]] + text[p + 1..q];
      Regroup([text[p]], text[p + 1..q], From(text, rs, q));
    }
  }

  lemma {:induction false} FromCovered<T, D>(text: seq<T>, rs: seq<Edit<T, D>>, p: nat, q: nat)
    requires p <= q <= |text|
    requires forall k :: p <= k < q ==> InsertedAt(rs, k) == [] && Covered(rs, k)
    ensures From(text, rs, p) == From(text, rs, q)
    decreases q - p
  {
    hide InsertedAt, Covered;
    if p < q {
      FromCovered(text, rs, p + 1, q);
    }
  }

  /** Adding a range below all others. */
  lemma LowerRange<T, D>(above: seq<Edit<T, D>>, r: Edit<T, D>, b: nat)
    requires r.start <= r.end <= b
    requires forall q :: q in above ==> b <= q.start <= q.end && r.start < q.start
    ensures InsertedAt(above + [r], r.start) == r.replacement
    ensures forall k: nat :: k != r.start ==> InsertedAt(above + [r], k) == InsertedAt(above, k)
    ensures forall k: nat :: k < b || k == r.start ==> InsertedAt(above, k) == []
    ensures forall k: nat :: Covered(above + [r], k) <==> Covered(above, k) || r.start <= k < r.end
    ensures forall k: nat :: k < b || k == r.start ==> !Covered(above, k)
  {
    hide Covered, InsertedAt;
    InsertedLast(above, r);
    forall k: nat
      ensures k != r.start ==> InsertedAt(above + [r], k) == InsertedAt(above, k)
      ensures k < b || k == r.start ==> InsertedAt(above, k) == []
      ensures Covered(above + [r], k) <==> Covered(above, k) || r.start <= k < r.end
      ensures k < b || k == r.start ==> !Covered(above, k)
    {
      CoveredMore(above, r, k);
      if k != r.start {
        InsertedElsewhere(above, r, k);
      }
      if k < b || k == r.start {
        NothingInserted(above, k);
      }
    }
  }

  /** Below every range in `above`, one more range contributes its replacement and frees its text. */
  lemma FromStep<T, D>(text: seq<T>, above: seq<Edit<T, D>>, r: Edit<T, D>, b: nat)
    requires r.start <= r.end <= b <= |text|
    requires forall q :: q in above ==> b <= q.start <= q.end && r.start < q.start
    ensures From(text, above + [r], r.start) == r.replacement + text[r.end..b] + From(text, above, b)
  {
    hide Covered, InsertedAt, From;
    var rs := above + [r];
    LowerRange(above, r, b);
    FromHere(text, rs, r);
    if r.start < r.end {
      FromCovered(text, rs, r.start + 1, r.end);
      FromPlain(text, rs, r.end, b);
      FromSame(text, rs, above, b);
      Regroup(r.replacement, text[r.end..b], From(text, above, b));
    } else if r.start < b {
      FromPlain(text, rs, r.start + 1, b);
      FromSame(text, rs, above, b);
      assert text[r.start..b] == [text[r.start]] + text[r.start + 1..b];
      Regroup([text[r.start]], text[r.start + 1..b], From(text, above, b));
      Regroup(r.replacement, text[r.start..b], From(text, above, b));
      Regroup(r.replacement, [text[r.start]], From(text, rs, r.start + 1));
    } else {
      FromSame(text, above, rs, b + 1);
      FromEnd(text, above, rs, b);
      assert text[r.end..b] == [];
    }
  }

  lemma FromHere<T, D>(text: seq<T>, rs: seq<Edit<T, D>>, r: Edit<T, D>)
    requires r.start <= r.end <= |text| && InsertedAt(rs, r.start) == r.replacement
    requires r.start < r.end ==> Covered(rs, r.start)
    requires r.start == r.end ==> !Covered(rs, r.start)
    ensures r.start < r.end ==> From(text, rs, r.start) == r.replacement + From(text, rs, r.start + 1)
    ensures r.start == r.end < |text| ==>
        From(text, rs, r.start) == r.replacement + [text[r.start]] + From(text, rs, r.start + 1)
  {
    hide InsertedAt, Covered;
  }

  lemma FromEnd<T, D>(text: seq<T>, above: seq<Edit<T, D>>, rs: seq<Edit<T, D>>, b: nat)
    requires b <= |text| && InsertedAt(above, b) == [] && From(text, above, b + 1) == From(text, rs, b + 1)
    requires Covered(above, b) <==> Covered(rs, b)
    ensures From(text, rs, b) == InsertedAt(rs, b) + From(text, above, b)
  {
    hide InsertedAt, Covered;
  }

  lemma NothingCovered<T, D>(above: seq<Edit<T, D>>, k: nat)
    requires forall q :: q in above ==> k < q.start
    ensures !Covered(above, k)
  {
  }

  lemma CoveredMore<T, D>(above: seq<Edit<T, D>>, r: Edit<T, D>, k: nat)
    ensures Covered(above + [r], k) <==> Covered(above, k) || r.start <= k < r.end
    ensures (forall q :: q in above ==> k < q.start) ==> !Covered(above, k)
  {
    if Covered(above, k) {
      var q :| q in above && q.start <= k < q.end;
      assert q in above + [r];
    }
    if r.start <= k < r.end {
      assert r in above + [r];
    }
  }

  /** What descending order says about the first range still to be spliced. */
  lemma FirstOfRest<T, D>(text: seq<T>, done: seq<Edit<T, D>>, rest: seq<Edit<T, D>>)
    requires Descending(text, done + rest) && rest != []
    ensures rest[0].start <= rest[0].end <= |text|
    ensures forall q :: q in done ==> rest[0].start < q.start <= q.end
    ensures forall q :: q in rest[1..] ==> q.end <= rest[0].start
    ensures (done + [rest[0]]) + rest[1..] == done + rest
  {
    var all := done + rest;
    assert all[|done|] == rest[0];
    forall q | q in done
      ensures rest[0].start < q.start <= q.end
    {
      var i :| 0 <= i < |done| && done[i] == q;
      assert all[i] == q;
    }
    forall q | q in rest[1..]
      ensures q.end <= rest[0].start
    {
      var i :| 0 < i < |rest| && rest[i] == q;
      assert all[|done| + i] == q;
    }
  }

  lemma SpliceStep<T, D>(text: seq<T>, done: seq<Edit<T, D>>, r: Edit<T, D>, b: nat)
    requires r.start <= r.end <= b <= |text|
    requires forall q :: q in done ==> b <= q.start <= q.end && r.start < q.start
    ensures Splice(text[..b] + From(text, done, b), r) == text[..r.start] + From(text, done + [r], r.start)
  {
    hide From;
    FromStep(text, done, r, b);
  }

  lemma NothingBelow<T, D>(text: seq<T>, done: seq<Edit<T, D>>, b: nat)
    requires b <= |text| && forall r :: r in done ==> b <= r.start
    ensures text[..b] + From(text, done, b) == From(text, done, 0)
  {
    hide InsertedAt, Covered, From;
    forall k: nat | k < b
      ensures InsertedAt(done, k) == [] && !Covered(done, k)
    {
      NothingInserted(done, k);
      NothingCovered(done, k);
    }
    FromPlain(text, done, 0, b);
    assert text[..b] == text[0..b];
  }

  lemma {:induction false} SpliceDescending<T, D>(text: seq<T>, done: seq<Edit<T, D>>, rest: seq<Edit<T, D>>, b: nat)
    requires Descending(text, done + rest) && b <= |text|
    requires forall r :: r in done ==> b <= r.start
    requires forall r :: r in rest ==> r.end <= b
    ensures SpliceAll(text[..b] + From(text, done, b), rest) == Some(From(text, done + rest, 0))
    decreases |rest|
  {
    hide From, Splice, Descending;
    if rest == [] {
      assert done + rest == done;
      NothingBelow(text, done, b);
    } else {
      FirstOfRest(text, done, rest);
      SpliceStep(text, done, rest[0], b);
      SpliceDescending(text, done + [rest[0]], rest[1..], rest[0].start);
    }
  }

  lemma SortedDescends<T(!new), D(!new)>(text: seq<T>, rs: seq<Edit<T, D>>)
    requires Disjoint(text, rs)
    ensures Descending(text, Sort(LaterStart, rs))
  {
    var sorted := Sort(LaterStart, rs);
    SortCounts(LaterStart, rs);
    SortOrdered(LaterStart, rs);
    forall r
      ensures r in sorted <==> r in rs
    {
      MemberCounts(sorted, rs, r);
    }
    forall i, j | 0 <= i < j < |sorted|
      ensures sorted[j].start < sorted[i].start && sorted[j].end <= sorted[i].start
    {
      assert !LaterStart(sorted[j], sorted[i]);
      PairsApart(rs, sorted, i, j);
    }
  }

  /** Two positions of a rearrangement come from two positions of the original. */
  lemma PairsApart<T, D>(rs: seq<Edit<T, D>>, sorted: seq<Edit<T, D>>, i: nat, j: nat)
    requires multiset(rs) == multiset(sorted) && i < j < |sorted|
    requires forall i, j :: 0 <= i < j < |rs| ==> Apart(rs[i], rs[j])
    ensures Apart(sorted[i], sorted[j])
  {
    var a, b := sorted[i], sorted[j];
    MemberCounts(sorted, rs, a);
    MemberCounts(sorted, rs, b);
    if a == b {
      TwiceCounts(sorted, i, j);
      AtMostOnce(rs, a);
    } else {
      var x :| 0 <= x < |rs| && rs[x] == a;
      var y :| 0 <= y < |rs| && rs[y] == b;
    }
  }

  lemma TwiceCounts<T>(s: seq<T>, i: nat, j: nat)
    requires i < j < |s| && s[i] == s[j]
    ensures multiset(s)[s[i]] >= 2
  {
    assert s == s[..i] + [s[i]] + s[i + 1..j] + [s[j]] + s[j + 1..];
  }

  lemma {:induction false} AtMostOnce<T, D>(rs: seq<Edit<T, D>>, a: Edit<T, D>)
    requires forall i, j :: 0 <= i < j < |rs| ==> Apart(rs[i], rs[j])
    ensures multiset(rs)[a] <= 1
  {
    if rs != [] {
      AtMostOnce(rs[1..], a);
      assert rs == [rs[0]] + rs[1..];
      assert a in rs[1..] <==> a in multiset(rs[1..]);
    }
  }

  lemma {:induction false} InsertedFinds<T, D>(rs: seq<Edit<T, D>>, r: Edit<T, D>)
    requires r in rs && forall i, j :: 0 <= i < j < |rs| ==> Apart(rs[i], rs[j])
    ensures InsertedAt(rs, r.start) == r.replacement
  {
    if rs[0] != r {
      var j :| 0 < j < |rs| && rs[j] == r;
      assert Apart(rs[0], rs[j]);
      InsertedFinds(rs[1..], r);
    }
  }

  /** Splicing a descending list from the start of the text. */
  lemma DescendingIsSimultaneous<T, D>(text: seq<T>, rs: seq<Edit<T, D>>)
    requires Descending(text, rs)
    ensures SpliceAll(text, rs) == Some(From(text, rs, 0))
  {
    hide From, Splice, Descending;
    var none: seq<Edit<T, D>> := [];
    assert none + rs == rs;
    assert forall r :: r in rs ==> r.end <= |text| by {
      InText(text, rs);
    }
    NothingBelow(text, none, |text|);
    SpliceDescending(text, none, rs, |text|);
    NoEdits(text, none);
    assert text[..|text|] == text;
  }

  lemma InText<T, D>(text: seq<T>, rs: seq<Edit<T, D>>)
    requires Descending(text, rs)
    ensures forall r :: r in rs ==> r.end <= |text|
  {
  }

  lemma NoEdits<T, D>(text: seq<T>, none: seq<Edit<T, D>>)
    requires none == []
    ensures text[..|text|] + From(text, none, |text|) == text
  {
    assert text[..|text|] == text;
  }

  /** For disjoint ranges with distinct starts, in whatever order they were found, the descending
      splices replace every range of the original at once; everything else stays in place. */
  lemma BatchIsSimultaneous<T(!new), D(!new)>(text: seq<T>, rs: seq<Edit<T, D>>)
    requires Disjoint(text, rs)
    ensures SpliceAll(text, Sort(LaterStart, rs)) == Some(Simultaneous(text, rs))
  {
    hide Disjoint, Descending, InsertedAt, Covered, From, SpliceAll;
    var sorted := Sort(LaterStart, rs);
    SortedDescends(text, rs);
    SortCounts(LaterStart, rs);
    DescendingIsSimultaneous(text, sorted);
    forall k: nat
      ensures InsertedAt(rs, k) == InsertedAt(sorted, k)
      ensures Covered(rs, k) <==> Covered(sorted, k)
    {
      Rearranged(text, rs, sorted, k);
    }
    FromSame(text, rs, sorted, 0);
  }

  lemma Rearranged<T, D>(text: seq<T>, rs: seq<Edit<T, D>>, sorted: seq<Edit<T, D>>, k: nat)
    requires Disjoint(text, rs) && multiset(rs) == multiset(sorted)
    ensures InsertedAt(rs, k) == InsertedAt(sorted, k)
    ensures Covered(rs, k) <==> Covered(sorted, k)
  {
    forall r
      ensures r in sorted <==> r in rs
    {
      MemberCounts(sorted, rs, r);
    }
    forall i, j | 0 <= i < j < |sorted|
      ensures Apart(sorted[i], sorted[j])
    {
      PairsApart(rs, sorted, i, j);
    }
    if r :| r in rs && r.start == k {
      InsertedFinds(rs, r);
      InsertedFinds(sorted, r);
    } else {
      NothingInserted(rs, k);
      NothingInserted(sorted, k);
    }
  }
}
