/** What each pruning pass drops, in terms of the stored cuts and the events alone
    (platform/shared/app-recording.ts:956-1121). */
module PrunerLaws {
  import opened Wrappers
  import opened Cuts
  import opened Recording
  import opened Pruner

  // ----- The trailing trim -----

  /** A stretch that the cuts hide from behind lo up to hi, and no further on either side. */
  ghost predicate Stretch(cuts: seq<Range>, lo: int, hi: int) {
    && lo < hi
    && !Hidden(cuts, lo) && !Hidden(cuts, hi + 1)
    && forall t :: lo < t <= hi ==> Hidden(cuts, t)
  }

  /** The first stretch that starts before the end of the data and comes within 25 ms of it. */
  ghost predicate IsTrim(cuts: seq<Range>, end: int, lo: int, hi: int) {
    && Stretch(cuts, lo, hi)
    && lo < end && end - 25 <= hi
    && forall t :: end - 25 <= t <= lo ==> !Hidden(cuts, t)
  }

  /** Of the cuts that are not empty and start before the end of the data, all stop more than 25 ms
      short of it. */
  ghost predicate NoTrim(cuts: seq<Range>, end: int) {
    forall c :: c in cuts && c.fromMs < c.toMs && c.fromMs < end ==> c.toMs < end - 25
  }

  /** The event and, of a timed call, its start lie behind lo and no later than hi. */
  predicate Swallowed(lo: int, hi: int, e: Event) {
    && !e.Viewport?
    && lo < e.t <= hi
    && (e.Mcp? && e.durationMs.Some? ==>
          if e.durationMs.value <= e.t then lo < e.t - e.durationMs.value else lo < 0)
  }

  function Unswallowed(lo: int, hi: int, events: seq<Event>): seq<bool> {
    seq(|events|, i requires 0 <= i < |events| => !Swallowed(lo, hi, events[i]))
  }

  /** Nothing is hidden right behind a merged cut. */
  lemma {:induction false} NothingTouches(merged: seq<Range>, r: Range)
    requires Separated(merged) && r in merged
    ensures !Hidden(merged, r.toMs + 1)
  {
    forall next | next in merged ensures !Covers(next, r.toMs + 1) {
      var i, j :| 0 <= i < |merged| && merged[i] == r && 0 <= j < |merged| && merged[j] == next;
      assert i == j || i < j || j < i;
    }
  }

  lemma {:induction false} StretchIsMerged(cuts: seq<Range>, lo: int, hi: int)
    requires Stretch(cuts, lo, hi)
    ensures Range(lo, hi) in Normalized(cuts)
  {
    var merged := Normalized(cuts);
    NormalizedProperties(cuts);
    assert Hidden(merged, lo + 1) && !Hidden(merged, lo) && !Hidden(merged, hi + 1);
    var r :| r in merged && Covers(r, lo + 1);
    assert r.fromMs == lo && r.toMs <= hi;
    NothingTouches(merged, r);
    assert !Hidden(cuts, r.toMs + 1);
  }

  lemma {:induction false} MergedIsStretch(cuts: seq<Range>, k: nat)
    requires k < |Normalized(cuts)|
    ensures Stretch(cuts, Normalized(cuts)[k].fromMs, Normalized(cuts)[k].toMs)
  {
    var merged := Normalized(cuts);
    NormalizedProperties(cuts);
    var lo, hi := merged[k].fromMs, merged[k].toMs;
    forall t | lo < t <= hi ensures Hidden(cuts, t) {
      assert merged[k] in merged && Covers(merged[k], t);
      assert Hidden(merged, t);
    }
    assert !Hidden(merged, lo) && !Hidden(merged, hi + 1);
  }

  lemma {:induction false} FirstTrailing(merged: seq<Range>, end: int)
    ensures TrailingCut(merged, end).None? ==> forall k :: 0 <= k < |merged| ==> !IsTrailing(merged[k], end)
    ensures TrailingCut(merged, end).Some? ==>
              exists k :: 0 <= k < |merged| && merged[k] == TrailingCut(merged, end).value && IsTrailing(merged[k], end)
                          && forall m :: 0 <= m < k ==> !IsTrailing(merged[m], end)
    decreases |merged|
  {
    if merged != [] && !IsTrailing(merged[0], end) {
      FirstTrailing(merged[1..], end);
      assert forall k :: 1 <= k < |merged| ==> merged[k] == merged[1..][k - 1];
      if TrailingCut(merged, end).Some? {
        var k :| 0 <= k < |merged[1..]| && merged[1..][k] == TrailingCut(merged, end).value
                 && IsTrailing(merged[1..][k], end) && forall m :: 0 <= m < k ==> !IsTrailing(merged[1..][m], end);
        assert merged[k + 1] == TrailingCut(merged, end).value;
      }
    }
  }

  /** The trim is what the pass finds. */
  lemma {:induction false} TrimIsFound(cuts: seq<Range>, end: int, lo: int, hi: int)
    requires IsTrim(cuts, end, lo, hi)
    ensures TrailingCut(Normalized(cuts), end) == Some(Range(lo, hi))
  {
    var merged := Normalized(cuts);
    NormalizedProperties(cuts);
    FirstTrailing(merged, end);
    StretchIsMerged(cuts, lo, hi);
    var i :| 0 <= i < |merged| && merged[i] == Range(lo, hi);
    assert IsTrailing(merged[i], end);
    var k :| 0 <= k < |merged| && merged[k] == TrailingCut(merged, end).value
             && forall m :: 0 <= m < k ==> !IsTrailing(merged[m], end);
    if k < i {
      assert merged[k].toMs < lo;
      assert Covers(merged[k], merged[k].toMs) && Hidden(merged, merged[k].toMs);
    }
  }

  lemma {:induction false} NoTrimIsFound(cuts: seq<Range>, end: int)
    requires NoTrim(cuts, end)
    ensures TrailingCut(Normalized(cuts), end).None?
  {
    var merged := Normalized(cuts);
    NormalizedProperties(cuts);
    FirstTrailing(merged, end);
    if k :| 0 <= k < |merged| && IsTrailing(merged[k], end) {
      var t := if merged[k].toMs < end then merged[k].toMs else end;
      assert Covers(merged[k], t) && Hidden(merged, t);
      var c :| c in cuts && Covers(c, t);
    }
  }

  /** What is hidden before the first trailing cut stops short of the end. */
  lemma {:induction false} BeforeTrailing(merged: seq<Range>, end: int, k: nat)
    requires Separated(merged) && k < |merged| && IsTrailing(merged[k], end)
    requires forall m :: 0 <= m < k ==> !IsTrailing(merged[m], end)
    ensures forall t :: end - 25 <= t <= merged[k].fromMs ==> !Hidden(merged, t)
  {
    forall t | Hidden(merged, t) && t <= merged[k].fromMs ensures t < end - 25 {
      var r :| r in merged && Covers(r, t);
      var m :| 0 <= m < |merged| && merged[m] == r;
      assert m < k;
    }
  }

  /** Every recording has a trim or none. */
  lemma {:induction false} TrimOrNone(cuts: seq<Range>, end: int)
    ensures NoTrim(cuts, end) || exists lo, hi :: IsTrim(cuts, end, lo, hi)
  {
    if c :| c in cuts && c.fromMs < c.toMs && c.fromMs < end && c.toMs >= end - 25 {
      var merged := Normalized(cuts);
      NormalizedProperties(cuts);
      FirstTrailing(merged, end);
      CutIsInside(cuts, merged, c, end);
      var k :| 0 <= k < |merged| && IsTrailing(merged[k], end)
               && forall m :: 0 <= m < k ==> !IsTrailing(merged[m], end);
      MergedIsStretch(cuts, k);
      BeforeTrailing(merged, end, k);
      assert forall t :: Hidden(cuts, t) <==> Hidden(merged, t);
      assert IsTrim(cuts, end, merged[k].fromMs, merged[k].toMs);
    }
  }

  lemma {:induction false} CutIsInside(cuts: seq<Range>, merged: seq<Range>, c: Range, end: int)
    requires Separated(merged) && SameCover(merged, cuts)
    requires c in cuts && c.fromMs < c.toMs && c.fromMs < end && c.toMs >= end - 25
    ensures exists k :: 0 <= k < |merged| && IsTrailing(merged[k], end)
  {
    var t := c.fromMs + 1;
    assert Covers(c, t) && Hidden(cuts, t) && Hidden(merged, t);
    var r :| r in merged && Covers(r, t);
    var k :| 0 <= k < |merged| && merged[k] == r;
    NothingTouches(merged, r);
    assert !Hidden(cuts, r.toMs + 1) && !Covers(c, r.toMs + 1);
  }

  /** Without a trim the trailing pass leaves the recording alone. */
  lemma {:induction false} NoTrimNoPruning(r: Recording, cuts: seq<Range>)
    requires NoTrim(cuts, DataEnd(r, r.events))
    ensures PruneTrailing(r, cuts) == r
  {
    NoTrimIsFound(cuts, DataEnd(r, r.events));
  }

  /** With one, it drops exactly what the trim swallows, unless the end of the data would move. */
  lemma {:induction false} TrimDropsExactly(r: Recording, cuts: seq<Range>, lo: int, hi: int)
    requires IsTrim(cuts, DataEnd(r, r.events), lo, hi)
    ensures var left := Select(r.events, Unswallowed(lo, hi, r.events));
            PruneTrailing(r, cuts) == if DataEnd(r, left) == DataEnd(r, r.events) then r.(events := left) else r
  {
    TrimIsFound(cuts, DataEnd(r, r.events), lo, hi);
    var tail := Range(lo, hi);
    assert TrimKeep(tail, r.events) == Unswallowed(lo, hi, r.events) by {
      forall i | 0 <= i < |r.events| ensures StaysInTrim(tail, r.events[i]) == !Swallowed(lo, hi, r.events[i]) {
      }
    }
  }

  // ----- The video -----

  /** Chunks i and j of one stream, with none of it between. */
  ghost predicate NextChunk(events: seq<Event>, i: nat, j: nat) {
    && i < j < |events| && events[i].VideoChunk? && events[j].VideoChunk? && events[i].sel == events[j].sel
    && forall k :: i < k < j && events[k].VideoChunk? ==> events[k].sel != events[i].sel
  }

  /** Everything but hidden chunks is kept, and with a delta the chunk it builds on. */
  ghost predicate Suffices(events: seq<Event>, cuts: seq<Range>, keep: seq<bool>) {
    && |keep| == |events|
    && (forall i :: 0 <= i < |events| && !(events[i].VideoChunk? && Hidden(cuts, events[i].t)) ==> keep[i])
    && (forall i: nat, j: nat :: NextChunk(events, i, j) && keep[j] && !events[j].key ==> keep[i])
  }

  /** The fewest events that suffice. */
  ghost predicate Fewest(events: seq<Event>, cuts: seq<Range>, keep: seq<bool>) {
    && Suffices(events, cuts, keep)
    && forall other, i :: Suffices(events, cuts, other) && 0 <= i < |events| && keep[i] ==> other[i]
  }

  lemma {:induction false} NeededStep(events: seq<Event>, cuts: seq<Range>, i: nat, j: nat)
    requires NextChunk(events, i, j) && !events[j].key && Needed(events, cuts, j)
    ensures Needed(events, cuts, i)
  {
    var sel := events[i].sel;
    var p: nat :| DecodesThrough(events, cuts, sel, j, p);
    assert forall k :: i < k <= p && k < |events| ==> !KeyOf(events[k], sel);
    assert DecodesThrough(events, cuts, sel, i, p);
  }

  lemma {:induction false} KeepSuffices(events: seq<Event>, cuts: seq<Range>)
    ensures Suffices(events, cuts, ChunkKeep(events, cuts))
  {
    forall i | 0 <= i < |events| && !(events[i].VideoChunk? && Hidden(cuts, events[i].t))
      ensures ChunkKeep(events, cuts)[i]
    {
      if events[i].VideoChunk? {
        assert NoKeyWithin(events, events[i].sel, i, i);
        assert DecodesThrough(events, cuts, events[i].sel, i, i);
      }
    }
    forall i: nat, j: nat | NextChunk(events, i, j) && ChunkKeep(events, cuts)[j] && !events[j].key
      ensures ChunkKeep(events, cuts)[i]
    {
      NeededStep(events, cuts, i, j);
    }
  }

  /** Whatever suffices keeps the chunks from j on that chunk i decodes through. */
  lemma {:induction false} ChainIsKept(events: seq<Event>, cuts: seq<Range>, keep: seq<bool>, k: nat, i: nat)
    requires Suffices(events, cuts, keep) && k <= i < |events| && events[i].VideoChunk?
    requires ChunkOf(events[k], events[i].sel) && DecodesThrough(events, cuts, events[i].sel, k, i)
    ensures keep[k]
    decreases i - k
  {
    if k < i {
      var sel := events[i].sel;
      var m := k + 1;
      while !ChunkOf(events[m], sel)
        invariant k < m <= i && forall x :: k < x < m ==> !ChunkOf(events[x], sel)
        decreases i - m
      {
        m := m + 1;
      }
      assert NextChunk(events, k, m) && !KeyOf(events[m], sel);
      assert NoKeyWithin(events, sel, m, i);
      ChainIsKept(events, cuts, keep, m, i);
    }
  }

  lemma {:induction false} NeededIsKept(events: seq<Event>, cuts: seq<Range>, keep: seq<bool>, j: nat)
    requires Suffices(events, cuts, keep) && j < |events| && ChunkKeep(events, cuts)[j]
    ensures keep[j]
  {
    if events[j].VideoChunk? {
      var i: nat :| DecodesThrough(events, cuts, events[j].sel, j, i);
      ChainIsKept(events, cuts, keep, j, i);
    }
  }

  /** The video pass keeps the fewest events with which everything in view is there and no delta is
      without the chunk it builds on, unless the end of the data would move. */
  lemma {:induction false} VideoKeepsFewest(r: Recording, cuts: seq<Range>)
    ensures exists keep :: Fewest(r.events, cuts, keep)
    ensures forall keep :: Fewest(r.events, cuts, keep) ==>
              var left := Select(r.events, keep);
              PruneVideo(r, cuts) == if DataEnd(r, left) == DataEnd(r, r.events) then r.(events := left) else r
  {
    var keep := ChunkKeep(r.events, cuts);
    KeepSuffices(r.events, cuts);
    forall other, j | Suffices(r.events, cuts, other) && 0 <= j < |r.events| && keep[j] ensures other[j] {
      NeededIsKept(r.events, cuts, other, j);
    }
    assert Fewest(r.events, cuts, keep);
    forall other | Fewest(r.events, cuts, other) ensures other == keep {
      assert forall i :: 0 <= i < |r.events| ==> other[i] == keep[i];
    }
  }
}
