/** Stored cuts and their merged normal form (platform/shared/app-recording.ts). */
module Cuts {
  /** A cut as a value: a range of raw recording time in milliseconds, possibly negative. */
  datatype Range = Range(fromMs: int, toMs: int)

  /** Whether a cut takes the moment t out of view: its end belongs to it, its start does not. */
  predicate Covers(r: Range, t: int) {
    r.fromMs < t <= r.toMs
  }

  predicate Hidden(cuts: seq<Range>, t: int) {
    exists r :: r in cuts && Covers(r, t)
  }

  function Max(a: int, b: int): int {
    if a >= b then a else b
  }

  // ----- The specification of normalizeCuts -----

  function Valid(cuts: seq<Range>): seq<Range> {
    if cuts == [] then []
    else Valid(cuts[..|cuts| - 1])
         + if cuts[|cuts| - 1].toMs > cuts[|cuts| - 1].fromMs then [cuts[|cuts| - 1]] else []
  }

  /** Places c behind every range that starts no later, which keeps equal starts in order. */
  function InsertByFrom(s: seq<Range>, c: Range): seq<Range> {
    if s == [] || s[|s| - 1].fromMs <= c.fromMs then s + [c]
    else InsertByFrom(s[..|s| - 1], c) + [s[|s| - 1]]
  }

  function SortByFrom(s: seq<Range>): seq<Range> {
    if s == [] then [] else InsertByFrom(SortByFrom(s[..|s| - 1]), s[|s| - 1])
  }

  /** One turn of the merge loop. */
  function Extend(merged: seq<Range>, c: Range): seq<Range> {
    if merged != [] && c.fromMs <= merged[|merged| - 1].toMs then
      var last := merged[|merged| - 1];
      merged[|merged| - 1 := Range(last.fromMs, Max(last.toMs, c.toMs))]
    else
      merged + [c]
  }

  function MergeAll(s: seq<Range>): seq<Range> {
    if s == [] then [] else Extend(MergeAll(s[..|s| - 1]), s[|s| - 1])
  }

  function Normalized(cuts: seq<Range>): seq<Range> {
    MergeAll(SortByFrom(Valid(cuts)))
  }

  // ----- What the normal form means -----

  ghost predicate Sorted(s: seq<Range>) {
    forall i, j :: 0 <= i < j < |s| ==> s[i].fromMs <= s[j].fromMs
  }

  ghost predicate AllValid(s: seq<Range>) {
    forall i :: 0 <= i < |s| ==> s[i].fromMs < s[i].toMs
  }

  /** In order, none empty, and never touching. */
  ghost predicate Separated(s: seq<Range>) {
    AllValid(s) && forall i, j :: 0 <= i < j < |s| ==> s[i].toMs < s[j].fromMs
  }

  ghost predicate SameCover(a: seq<Range>, b: seq<Range>) {
    forall t :: Hidden(a, t) <==> Hidden(b, t)
  }

  lemma {:induction false} HiddenSplit(s: seq<Range>, t: int)
    requires s != []
    ensures Hidden(s, t) <==> Hidden(s[..|s| - 1], t) || Covers(s[|s| - 1], t)
  {
    assert s == s[..|s| - 1] + [s[|s| - 1]];
  }

  lemma {:induction false} HiddenAppend(s: seq<Range>, c: Range, t: int)
    ensures Hidden(s + [c], t) <==> Hidden(s, t) || Covers(c, t)
  {
    HiddenSplit(s + [c], t);
    assert (s + [c])[..|s|] == s;
  }

  lemma {:induction false} ValidKeepsCover(cuts: seq<Range>, t: int)
    ensures AllValid(Valid(cuts))
    ensures Hidden(Valid(cuts), t) <==> Hidden(cuts, t)
  {
    if cuts != [] {
      var front, last := cuts[..|cuts| - 1], cuts[|cuts| - 1];
      ValidKeepsCover(front, t);
      HiddenSplit(cuts, t);
      if last.toMs > last.fromMs {
        HiddenAppend(Valid(front), last, t);
      } else {
        assert Valid(cuts) == Valid(front);
      }
    }
  }

  lemma {:induction false} InsertPermutes(s: seq<Range>, c: Range)
    ensures multiset(InsertByFrom(s, c)) == multiset(s) + multiset{c}
  {
    if s != [] && s[|s| - 1].fromMs > c.fromMs {
      InsertPermutes(s[..|s| - 1], c);
      assert s == s[..|s| - 1] + [s[|s| - 1]];
    }
  }

  lemma {:induction false} InsertSorts(s: seq<Range>, c: Range)
    requires Sorted(s)
    ensures Sorted(InsertByFrom(s, c))
  {
    if s != [] && s[|s| - 1].fromMs > c.fromMs {
      var front, last := s[..|s| - 1], s[|s| - 1];
      InsertSorts(front, c);
      InsertPermutes(front, c);
      var placed := InsertByFrom(front, c);
      forall i | 0 <= i < |placed|
        ensures placed[i].fromMs <= last.fromMs
      {
        assert placed[i] in multiset(placed);
        if placed[i] != c {
          assert placed[i] in multiset(front);
          assert placed[i] in front;
        }
      }
    }
  }

  /** The sort is a sort: ordered, and a permutation of what it was given. */
  lemma {:induction false} SortProperties(s: seq<Range>)
    ensures Sorted(SortByFrom(s))
    ensures multiset(SortByFrom(s)) == multiset(s)
  {
    if s != [] {
      var front, last := s[..|s| - 1], s[|s| - 1];
      SortProperties(front);
      InsertSorts(SortByFrom(front), last);
      InsertPermutes(SortByFrom(front), last);
      assert s == front + [last];
    }
  }

  lemma {:induction false} SortKeepsCover(s: seq<Range>, t: int)
    ensures Hidden(SortByFrom(s), t) <==> Hidden(s, t)
  {
    SortProperties(s);
    assert forall r :: r in s <==> r in multiset(s);
    assert forall r :: r in SortByFrom(s) <==> r in multiset(SortByFrom(s));
  }

  lemma {:induction false} SortKeepsValid(s: seq<Range>)
    requires AllValid(s)
    ensures AllValid(SortByFrom(s))
  {
    SortProperties(s);
    var r := SortByFrom(s);
    forall i | 0 <= i < |r|
      ensures r[i].fromMs < r[i].toMs
    {
      assert r[i] in multiset(r);
    }
  }

  lemma {:induction false} ExtendProperties(merged: seq<Range>, c: Range, t: int)
    requires Separated(merged)
    requires merged != [] ==> merged[|merged| - 1].fromMs <= c.fromMs
    requires c.fromMs < c.toMs
    ensures Separated(Extend(merged, c))
    ensures Extend(merged, c) != []
    ensures Extend(merged, c)[|Extend(merged, c)| - 1].fromMs <= c.fromMs
    ensures Hidden(Extend(merged, c), t) <==> Hidden(merged, t) || Covers(c, t)
  {
    if merged != [] && c.fromMs <= merged[|merged| - 1].toMs {
      WidenLastProperties(merged, c, t);
    } else {
      HiddenAppend(merged, c, t);
    }
  }

  lemma {:induction false} WidenLastProperties(merged: seq<Range>, c: Range, t: int)
    requires Separated(merged) && merged != []
    requires merged[|merged| - 1].fromMs <= c.fromMs <= merged[|merged| - 1].toMs && c.fromMs < c.toMs
    ensures Separated(Extend(merged, c))
    ensures Hidden(Extend(merged, c), t) <==> Hidden(merged, t) || Covers(c, t)
  {
    var r := Extend(merged, c);
    HiddenSplit(merged, t);
    HiddenSplit(r, t);
    assert r[..|r| - 1] == merged[..|merged| - 1];
  }

  lemma {:induction false} MergeProperties(s: seq<Range>, t: int)
    requires Sorted(s) && AllValid(s)
    ensures Separated(MergeAll(s))
    ensures s != [] ==> MergeAll(s) != [] && MergeAll(s)[|MergeAll(s)| - 1].fromMs <= s[|s| - 1].fromMs
    ensures Hidden(MergeAll(s), t) <==> Hidden(s, t)
  {
    if s != [] {
      var front, last := s[..|s| - 1], s[|s| - 1];
      MergeProperties(front, t);
      if front != [] {
        assert front[|front| - 1].fromMs <= last.fromMs;
      }
      assert front == [] ==> MergeAll(front) == [];
      ExtendProperties(MergeAll(front), last, t);
      HiddenSplit(s, t);
    }
  }

  /** Merged cuts are strictly separated and hide exactly the moments the stored cuts hide. */
  lemma {:induction false} NormalizedProperties(cuts: seq<Range>)
    ensures Separated(Normalized(cuts))
    ensures SameCover(Normalized(cuts), cuts)
  {
    forall t
      ensures AllValid(Valid(cuts)) && Sorted(SortByFrom(Valid(cuts))) && Separated(Normalized(cuts))
      ensures Hidden(Normalized(cuts), t) <==> Hidden(cuts, t)
    {
      ValidKeepsCover(cuts, t);
      SortProperties(Valid(cuts));
      SortKeepsCover(Valid(cuts), t);
      SortKeepsValid(Valid(cuts));
      MergeProperties(SortByFrom(Valid(cuts)), t);
    }
    assert Hidden(Normalized(cuts), 0) <==> Hidden(cuts, 0);
  }

  lemma {:induction false} StartsNoEarlier(a: seq<Range>, b: seq<Range>)
    requires Separated(a) && Separated(b) && SameCover(a, b) && a != []
    ensures b != [] && b[0].fromMs <= a[0].fromMs
  {
    var t := a[0].fromMs + 1;
    assert a[0] in a && Covers(a[0], t);
    assert Hidden(a, t);
  }

  lemma {:induction false} EndsNoEarlier(a: seq<Range>, b: seq<Range>)
    requires Separated(a) && Separated(b) && SameCover(a, b) && a != [] && b != []
    requires a[0].fromMs == b[0].fromMs
    ensures a[0].toMs <= b[0].toMs
  {
    assert !Hidden(a, b[0].toMs + 1);
    assert a[0] in a;
  }

  /** The normal form is canonical: what is hidden determines it. So neither the order in which
      cuts were authored, nor their overlaps, nor the tie-breaking of the sort can show. */
  lemma {:induction false} NormalFormUnique(a: seq<Range>, b: seq<Range>)
    requires Separated(a) && Separated(b) && SameCover(a, b)
    ensures a == b
  {
    if a == [] {
      if b != [] {
        StartsNoEarlier(b, a);
      }
    } else {
      StartsNoEarlier(a, b);
      StartsNoEarlier(b, a);
      EndsNoEarlier(a, b);
      EndsNoEarlier(b, a);
      forall t ensures Hidden(a[1..], t) <==> Hidden(b[1..], t) {
        assert Hidden(a, t) <==> Hidden(b, t);
      }
      NormalFormUnique(a[1..], b[1..]);
      assert a == [a[0]] + a[1..] && b == [b[0]] + b[1..];
    }
  }

  /** Two lists of cuts normalise alike exactly when they hide the same moments. */
  lemma {:induction false} SameCoverSameNormalForm(a: seq<Range>, b: seq<Range>)
    ensures Normalized(a) == Normalized(b) <==> SameCover(a, b)
  {
    NormalizedProperties(a);
    NormalizedProperties(b);
    if SameCover(a, b) {
      forall t ensures Hidden(Normalized(a), t) <==> Hidden(Normalized(b), t) {
        assert Hidden(Normalized(a), t) <==> Hidden(a, t);
        assert Hidden(Normalized(b), t) <==> Hidden(b, t);
        assert Hidden(a, t) <==> Hidden(b, t);
      }
      NormalFormUnique(Normalized(a), Normalized(b));
    }
    if Normalized(a) == Normalized(b) {
      forall t ensures Hidden(a, t) <==> Hidden(b, t) {
        assert Hidden(Normalized(a), t) <==> Hidden(a, t);
        assert Hidden(Normalized(b), t) <==> Hidden(b, t);
      }
    }
  }

  lemma {:induction false} NormalizedIdempotent(cuts: seq<Range>)
    ensures Normalized(Normalized(cuts)) == Normalized(cuts)
  {
    NormalizedProperties(cuts);
    SameCoverSameNormalForm(Normalized(cuts), cuts);
  }

  // ----- The code, over mutable cut records -----

  /** A stored cut record. The bundle owns its cuts; nobody else may write to them. */
  class Cut {
    var fromMs: int
    var toMs: int

    constructor (fromMs: int, toMs: int)
      ensures this.fromMs == fromMs && this.toMs == toMs
    {
      this.fromMs := fromMs;
      this.toMs := toMs;
    }
  }

  function ValueOf(c: Cut): Range
    reads c
  {
    Range(c.fromMs, c.toMs)
  }

  function Ranges(cuts: seq<Cut>): seq<Range>
    reads cuts
  {
    seq(|cuts|, i requires 0 <= i < |cuts| reads cuts => ValueOf(cuts[i]))
  }

  lemma {:induction false} RangesAppend(cuts: seq<Cut>, c: Cut)
    ensures Ranges(cuts + [c]) == Ranges(cuts) + [ValueOf(c)]
  {
  }

  lemma {:induction false} ValidAppend(s: seq<Range>, r: Range)
    ensures Valid(s + [r]) == if r.toMs > r.fromMs then Valid(s) + [r] else Valid(s)
  {
    assert (s + [r])[..|s|] == s;
  }

  lemma {:induction false} SortAppend(s: seq<Range>, r: Range)
    ensures SortByFrom(s + [r]) == InsertByFrom(SortByFrom(s), r)
  {
    assert (s + [r])[..|s|] == s;
  }

  method Placed(s: seq<Cut>, c: Cut) returns (r: seq<Cut>)
    ensures Ranges(r) == InsertByFrom(Ranges(s), ValueOf(c))
    ensures forall x :: x in r ==> x in s || x == c
  {
    if s == [] || s[|s| - 1].fromMs <= c.fromMs {
      r := s + [c];
      RangesAppend(s, c);
    } else {
      var r0 := Placed(s[..|s| - 1], c);
      r := r0 + [s[|s| - 1]];
      RangesAppend(r0, s[|s| - 1]);
      assert Ranges(s)[..|s| - 1] == Ranges(s[..|s| - 1]);
    }
  }

  /** The filter and the sort, with one cut more. */
  lemma {:induction false} SortedAppend(cuts: seq<Range>, r: Range)
    ensures SortByFrom(Valid(cuts + [r]))
         == if r.toMs > r.fromMs then InsertByFrom(SortByFrom(Valid(cuts)), r) else SortByFrom(Valid(cuts))
  {
    ValidAppend(cuts, r);
    if r.toMs > r.fromMs {
      SortAppend(Valid(cuts), r);
    }
  }

  /** The filter and the stable sort. */
  method SortedCuts(cuts: seq<Cut>) returns (sorted: seq<Cut>)
    ensures Ranges(sorted) == SortByFrom(Valid(Ranges(cuts)))
    ensures forall c :: c in sorted ==> c in cuts
  {
    sorted := [];
    ghost var all := Ranges(cuts);
    for n := 0 to |cuts|
      invariant Ranges(sorted) == SortByFrom(Valid(all[..n]))
      invariant forall c :: c in sorted ==> c in cuts
    {
      assert all[..n + 1] == all[..n] + [all[n]];
      SortedAppend(all[..n], all[n]);
      if cuts[n].toMs > cuts[n].fromMs {
        sorted := Placed(sorted, cuts[n]);
      }
    }
    assert all[..|cuts|] == all;
  }

  /** The merge loop. It widens the last merged record in place; it may, because every merged
      record is a copy of its own. */
  method Merged(sorted: seq<Cut>) returns (merged: seq<Cut>)
    ensures Ranges(merged) == MergeAll(Ranges(sorted))
    ensures forall i :: 0 <= i < |merged| ==> fresh(merged[i])
  {
    ghost var given := Ranges(sorted);
    merged := [];
    for n := 0 to |sorted|
      invariant Ranges(sorted) == given
      invariant forall i :: 0 <= i < |merged| ==> fresh(merged[i])
      invariant forall i, j :: 0 <= i < j < |merged| ==> merged[i] != merged[j]
      invariant Ranges(merged) == MergeAll(given[..n])
    {
      var cut := sorted[n];
      assert given[..n + 1] == given[..n] + [given[n]];
      if |merged| > 0 && cut.fromMs <= merged[|merged| - 1].toMs {
        WidenLast(merged, cut.toMs);
      } else {
        var copy := new Cut(cut.fromMs, cut.toMs);
        RangesAppend(merged, copy);
        merged := merged + [copy];
      }
    }
    assert given[..|sorted|] == given;
  }

  /** normalizeCuts: the bundle's own records are left as they were. */
  method NormalizeCuts(cuts: seq<Cut>) returns (merged: seq<Cut>)
    ensures Ranges(merged) == Normalized(Ranges(cuts))
    ensures forall i :: 0 <= i < |merged| ==> fresh(merged[i])
    ensures Ranges(cuts) == old(Ranges(cuts))
  {
    var sorted := SortedCuts(cuts);
    ghost var given := Ranges(sorted);
    merged := Merged(sorted);
    assert Ranges(sorted) == given;
  }

  method WidenLast(merged: seq<Cut>, toMs: int)
    requires merged != []
    requires forall i, j :: 0 <= i < j < |merged| ==> merged[i] != merged[j]
    modifies merged[|merged| - 1]
    ensures Ranges(merged) ==
            old(Ranges(merged))[|merged| - 1 := old(Range(merged[|merged| - 1].fromMs, Max(merged[|merged| - 1].toMs, toMs)))]
  {
    var last := merged[|merged| - 1];
    last.toMs := Max(last.toMs, toMs);
  }
}
