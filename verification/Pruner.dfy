/** What cut pruning drops and keeps (pruneCutEvents in platform/shared/app-recording.ts). */
module Pruner {
  import opened Wrappers
  import opened Cuts
  import opened Recording

  const TRIM_EDGE_EPS_MS := 25

  // ----- The trailing trim -----

  predicate IsTrailing(cut: Range, dataEnd: int) {
    cut.toMs >= dataEnd - TRIM_EDGE_EPS_MS && cut.fromMs < dataEnd
  }

  /** The first merged cut that reaches the end of the data. */
  function TrailingCut(merged: seq<Range>, dataEnd: int): Option<Range> {
    if merged == [] then None
    else if IsTrailing(merged[0], dataEnd) then Some(merged[0])
    else TrailingCut(merged[1..], dataEnd)
  }

  function AnchorStart(e: Event): int {
    if e.Mcp? && e.durationMs.Some? && e.durationMs.value != 0 then Max(0, e.t - e.durationMs.value) else e.t
  }

  predicate StaysInTrim(tail: Range, e: Event) {
    e.Viewport? || e.t > tail.toMs || AnchorStart(e) <= tail.fromMs
  }

  function TrimKeep(tail: Range, events: seq<Event>): seq<bool> {
    seq(|events|, i requires 0 <= i < |events| => StaysInTrim(tail, events[i]))
  }

  function PruneTrailing(r: Recording, cuts: seq<Range>): Recording {
    var dataEnd := DataEnd(r, r.events);
    match TrailingCut(Normalized(cuts), dataEnd)
    case None => r
    case Some(tail) =>
      var kept := Select(r.events, TrimKeep(tail, r.events));
      if DataEnd(r, kept) != dataEnd then r else r.(events := kept)
  }

  // ----- The video that mid cuts hide -----

  /** No chunk of the stream strictly after j, up to and including i, is a keyframe. */
  ghost predicate NoKeyWithin(events: seq<Event>, sel: string, j: nat, i: nat) {
    forall k :: j < k <= i && k < |events| ==> !KeyOf(events[k], sel)
  }

  /** Chunk i of the stream plays, and decoding it goes through chunk j. */
  ghost predicate DecodesThrough(events: seq<Event>, cuts: seq<Range>, sel: string, j: nat, i: nat) {
    && j <= i < |events|
    && ChunkOf(events[i], sel) && !Hidden(cuts, events[i].t)
    && NoKeyWithin(events, sel, j, i)
  }

  /** Some chunk that plays is decoded through chunk j. */
  ghost predicate Needed(events: seq<Event>, cuts: seq<Range>, j: nat)
    requires j < |events| && events[j].VideoChunk?
  {
    exists i :: DecodesThrough(events, cuts, events[j].sel, j, i)
  }

  ghost function ChunkKeep(events: seq<Event>, cuts: seq<Range>): seq<bool> {
    seq(|events|, j requires 0 <= j < |events| => events[j].VideoChunk? ==> Needed(events, cuts, j))
  }

  ghost function PruneVideo(r: Recording, cuts: seq<Range>): Recording {
    var kept := Select(r.events, ChunkKeep(r.events, cuts));
    if DataEnd(r, kept) != DataEnd(r, r.events) then r else r.(events := kept)
  }

  ghost function PruneCut(r: Recording, cuts: seq<Range>): Recording {
    PruneVideo(PruneTrailing(r, cuts), cuts)
  }

  /** Only what is hidden matters to Needed, so merged and stored cuts may be exchanged. */
  lemma {:induction false} ChunkKeepByCover(events: seq<Event>, a: seq<Range>, b: seq<Range>)
    requires SameCover(a, b)
    ensures ChunkKeep(events, a) == ChunkKeep(events, b)
  {
    forall j | 0 <= j < |events| && events[j].VideoChunk?
      ensures Needed(events, a, j) <==> Needed(events, b, j)
    {
      if i :| DecodesThrough(events, a, events[j].sel, j, i) {
        assert DecodesThrough(events, b, events[j].sel, j, i);
      }
      if i :| DecodesThrough(events, b, events[j].sel, j, i) {
        assert DecodesThrough(events, a, events[j].sel, j, i);
      }
    }
  }

  // ----- What every pruning keeps -----

  /** Same data end, same everything but events, and those are some of the old ones in order. */
  ghost predicate PrunedFrom(after: Recording, before: Recording) {
    && after == before.(events := after.events)
    && SubsequenceOf(after.events, before.events)
    && DataEnd(after, after.events) == DataEnd(before, before.events)
  }

  lemma {:induction false} PruneTrailingFrame(r: Recording, cuts: seq<Range>)
    ensures PrunedFrom(PruneTrailing(r, cuts), r)
  {
    SubsequenceReflexive(r.events);
    match TrailingCut(Normalized(cuts), DataEnd(r, r.events))
    case None =>
    case Some(tail) => SelectIsSubsequence(r.events, TrimKeep(tail, r.events));
  }

  lemma {:induction false} PruneVideoFrame(r: Recording, cuts: seq<Range>)
    ensures PrunedFrom(PruneVideo(r, cuts), r)
  {
    SubsequenceReflexive(r.events);
    SelectIsSubsequence(r.events, ChunkKeep(r.events, cuts));
  }

  /** Pruning only drops events, and never moves the end of the data. */
  lemma {:induction false} PruneCutFrame(r: Recording, cuts: seq<Range>)
    ensures PrunedFrom(PruneCut(r, cuts), r)
  {
    PruneTrailingFrame(r, cuts);
    PruneVideoFrame(PruneTrailing(r, cuts), cuts);
    SubsequenceTransitive(PruneCut(r, cuts).events, PruneTrailing(r, cuts).events, r.events);
  }

  // ----- The trailing trim keeps the playback clock's anchors -----

  /** The timeline anchors an event plants: its time, and for a timed call its start too. */
  function Anchors(e: Event): seq<int> {
    if e.Mcp? && e.durationMs.Some? && e.durationMs.value != 0 then [e.t, Max(0, e.t - e.durationMs.value)] else [e.t]
  }

  ghost predicate AllAnchorsIn(tail: Range, e: Event) {
    forall a :: a in Anchors(e) ==> Covers(tail, a)
  }

  /** An event leaves with the trim exactly when it is no viewport event and every anchor it
      plants lies inside the trim. */
  lemma {:induction false} DroppedExactlyWhenAnchoredInside(tail: Range, e: Event)
    ensures StaysInTrim(tail, e) <==> e.Viewport? || !AllAnchorsIn(tail, e)
  {
    assert Anchors(e)[0] in Anchors(e);
    assert AnchorStart(e) in Anchors(e) by {
      assert AnchorStart(e) == Anchors(e)[|Anchors(e)| - 1];
    }
    assert forall a :: a in Anchors(e) ==> a == e.t || a == AnchorStart(e);
    if AllAnchorsIn(tail, e) {
      assert Covers(tail, e.t) && Covers(tail, AnchorStart(e));
    }
  }

  function OutsideAnchorsOf(tail: Range, anchors: seq<int>): seq<int> {
    if anchors == [] then []
    else OutsideAnchorsOf(tail, anchors[..|anchors| - 1])
         + if Covers(tail, anchors[|anchors| - 1]) then [] else [anchors[|anchors| - 1]]
  }

  function OutsideAnchors(tail: Range, events: seq<Event>): seq<int> {
    if events == [] then []
    else OutsideAnchors(tail, events[..|events| - 1]) + OutsideAnchorsOf(tail, Anchors(events[|events| - 1]))
  }

  function Viewports(events: seq<Event>): seq<Event> {
    if events == [] then []
    else Viewports(events[..|events| - 1]) + if events[|events| - 1].Viewport? then [events[|events| - 1]] else []
  }

  lemma {:induction false} NoOutsideAnchors(tail: Range, anchors: seq<int>)
    requires forall a :: a in anchors ==> Covers(tail, a)
    ensures OutsideAnchorsOf(tail, anchors) == []
  {
    if anchors != [] {
      var front := anchors[..|anchors| - 1];
      assert anchors == front + [anchors[|anchors| - 1]];
      NoOutsideAnchors(tail, front);
    }
  }

  lemma {:induction false} AppendFolds(tail: Range, events: seq<Event>, e: Event)
    ensures OutsideAnchors(tail, events + [e]) == OutsideAnchors(tail, events) + OutsideAnchorsOf(tail, Anchors(e))
    ensures Viewports(events + [e]) == Viewports(events) + if e.Viewport? then [e] else []
  {
    assert (events + [e])[..|events|] == events;
  }

  lemma {:induction false} TrimKeepsOutsideAnchors(tail: Range, events: seq<Event>)
    ensures OutsideAnchors(tail, Select(events, TrimKeep(tail, events))) == OutsideAnchors(tail, events)
    ensures Viewports(Select(events, TrimKeep(tail, events))) == Viewports(events)
  {
    if events != [] {
      var front, last := events[..|events| - 1], events[|events| - 1];
      TrimKeepsOutsideAnchors(tail, front);
      assert TrimKeep(tail, events)[..|front|] == TrimKeep(tail, front);
      var kept := Select(front, TrimKeep(tail, front));
      if StaysInTrim(tail, last) {
        AppendFolds(tail, kept, last);
      } else {
        DroppedExactlyWhenAnchoredInside(tail, last);
        NoOutsideAnchors(tail, Anchors(last));
        assert Select(events, TrimKeep(tail, events)) == kept;
        assert OutsideAnchors(tail, events) == OutsideAnchors(tail, front) + [];
        assert Viewports(events) == Viewports(front) + [];
      }
    }
  }

  /** The trailing pass leaves every viewport event, and every anchor outside the trim, in order. */
  lemma {:induction false} PruneTrailingKeepsClock(r: Recording, cuts: seq<Range>, tail: Range)
    requires TrailingCut(Normalized(cuts), DataEnd(r, r.events)) == Some(tail)
    ensures OutsideAnchors(tail, PruneTrailing(r, cuts).events) == OutsideAnchors(tail, r.events)
    ensures Viewports(PruneTrailing(r, cuts).events) == Viewports(r.events)
  {
    TrimKeepsOutsideAnchors(tail, r.events);
  }

  // ----- Pruning twice -----

  lemma {:induction false} TrimTwice(tail: Range, events: seq<Event>)
    ensures var kept := Select(events, TrimKeep(tail, events));
            Select(kept, TrimKeep(tail, kept)) == kept
  {
    var kept := Select(events, TrimKeep(tail, events));
    SelectPositions(events, TrimKeep(tail, events));
    var at := Positions(TrimKeep(tail, events));
    forall q | 0 <= q < |kept| ensures StaysInTrim(tail, kept[q]) {
      assert at[q] in at;
    }
    SelectAll(kept, TrimKeep(tail, kept));
  }

  /** What the trim keeps, with one event more. */
  lemma {:induction false} TrimAppend(tail: Range, events: seq<Event>, e: Event)
    ensures var kept, more := Select(events, TrimKeep(tail, events)), Select(events + [e], TrimKeep(tail, events + [e]));
            (StaysInTrim(tail, e) ==> more == kept + [e]) && (!StaysInTrim(tail, e) ==> more == kept)
  {
    var more := events + [e];
    assert more[..|events|] == events && more[|events|] == e;
    assert TrimKeep(tail, more)[..|events|] == TrimKeep(tail, events);
  }

  lemma {:induction false} PickOneMore<T(!new)>(small: seq<T>, big: seq<T>, x: T)
    requires SubsequenceOf(small, big)
    ensures SubsequenceOf(small, big + [x]) && SubsequenceOf(small + [x], big + [x])
  {
    var at: seq<nat> :| PicksAt(small, big, at);
    assert PicksAt(small, big + [x], at);
    assert PicksAt(small + [x], big + [x], at + [|big|]);
  }

  /** Keeping only what the trim keeps can only lose more once some events are gone already. */
  lemma {:induction false} SelectCommutes(tail: Range, events: seq<Event>, keep: seq<bool>)
    requires |events| == |keep|
    ensures SubsequenceOf(Select(Select(events, keep), TrimKeep(tail, Select(events, keep))),
                          Select(events, TrimKeep(tail, events)))
  {
    if events == [] {
      SubsequenceReflexive<Event>([]);
    } else {
      var m := |events| - 1;
      var front, last := events[..m], events[m];
      var some := Select(front, keep[..m]);
      SelectCommutes(tail, front, keep[..m]);
      PickOneMore(Select(some, TrimKeep(tail, some)), Select(front, TrimKeep(tail, front)), last);
      TrimAppend(tail, front, last);
      assert front + [last] == events;
      if keep[m] {
        TrimAppend(tail, some, last);
        assert Select(events, keep) == some + [last];
      } else {
        assert Select(events, keep) == some;
      }
    }
  }

  lemma {:induction false} SubsequenceDataEnd(r: Recording, small: seq<Event>, big: seq<Event>)
    requires SubsequenceOf(small, big)
    ensures DataEnd(r, small) <= DataEnd(r, big)
  {
    DataEndIsMaximum(r, small);
    DataEndIsMaximum(r, big);
    var at: seq<nat> :| PicksAt(small, big, at);
    var end := DataEnd(r, small);
    if e :| e in small && e.t == end {
      var q :| 0 <= q < |small| && small[q] == e;
      assert big[at[q]] == e;
    }
    assert DataAt(r, big, end);
  }

  /** Case one: the trailing guard let the trim through, so nothing of it is left to drop. */
  lemma {:induction false} TrimDone(r: Recording, tail: Range, rest: seq<Event>)
    requires SubsequenceOf(rest, Select(r.events, TrimKeep(tail, r.events)))
    ensures Select(rest, TrimKeep(tail, rest)) == rest
  {
    var kept := Select(r.events, TrimKeep(tail, r.events));
    TrimTwice(tail, r.events);
    TrimAlreadyDone(tail, kept);
    var at: seq<nat> :| PicksAt(rest, kept, at);
    forall q | 0 <= q < |rest| ensures StaysInTrim(tail, rest[q]) {
      assert TrimKeep(tail, kept)[at[q]];
    }
    SelectAll(rest, TrimKeep(tail, rest));
  }

  /** Case two: the trim would have moved the data end, and with fewer events it still would. */
  lemma {:induction false} TrimStillGuarded(r: Recording, tail: Range, keep: seq<bool>)
    requires |keep| == |r.events|
    ensures DataEnd(r, Select(Select(r.events, keep), TrimKeep(tail, Select(r.events, keep))))
         <= DataEnd(r, Select(r.events, TrimKeep(tail, r.events)))
         <= DataEnd(r, r.events)
  {
    SelectCommutes(tail, r.events, keep);
    SubsequenceDataEnd(r, Select(Select(r.events, keep), TrimKeep(tail, Select(r.events, keep))),
                       Select(r.events, TrimKeep(tail, r.events)));
    SelectDataEnd(r, r.events, TrimKeep(tail, r.events));
  }

  /** Whether or not the trailing guard fires, a second trailing pass finds nothing to do,
      even after the video pass has been at work in between. */
  lemma {:induction false} TrailingAfterVideo(r: Recording, cuts: seq<Range>)
    ensures PruneTrailing(PruneCut(r, cuts), cuts) == PruneCut(r, cuts)
  {
    var r1 := PruneTrailing(r, cuts);
    var r2 := PruneCut(r, cuts);
    PruneTrailingFrame(r, cuts);
    PruneVideoFrame(r1, cuts);
    var dataEnd := DataEnd(r, r.events);
    assert DataEnd(r2, r2.events) == dataEnd;
    match TrailingCut(Normalized(cuts), dataEnd)
    case None =>
    case Some(tail) =>
      var trimmed := Select(r2.events, TrimKeep(tail, r2.events));
      if DataEnd(r, Select(r.events, TrimKeep(tail, r.events))) == dataEnd {
        TrimDone(r, tail, r2.events);
      } else {
        assert r1 == r;
        if r2 == r {
        } else {
          TrimStillGuarded(r, tail, ChunkKeep(r.events, cuts));
          assert r2.events == Select(r.events, ChunkKeep(r.events, cuts));
        }
      }
  }

  lemma {:induction false} TrimAlreadyDone(tail: Range, events: seq<Event>)
    requires Select(events, TrimKeep(tail, events)) == events
    ensures forall i :: 0 <= i < |events| ==> TrimKeep(tail, events)[i]
  {
    SelectLength(events, TrimKeep(tail, events));
  }

  /** Every chunk that is kept is still needed among the events that are kept. */
  lemma {:induction false} KeptStaysNeeded(events: seq<Event>, cuts: seq<Range>)
    ensures var kept := Select(events, ChunkKeep(events, cuts));
            Select(kept, ChunkKeep(kept, cuts)) == kept
  {
    var keep := ChunkKeep(events, cuts);
    var kept := Select(events, keep);
    SelectPositions(events, keep);
    var at := Positions(keep);
    forall q | 0 <= q < |kept| && kept[q].VideoChunk?
      ensures Needed(kept, cuts, q)
    {
      var j := at[q];
      var sel := events[j].sel;
      assert j in at;
      assert keep[j];
      var i: nat :| DecodesThrough(events, cuts, sel, j, i);
      assert NoKeyWithin(events, sel, i, i);
      assert DecodesThrough(events, cuts, sel, i, i);
      assert Needed(events, cuts, i);
      assert keep[i];
      var p :| 0 <= p < |at| && at[p] == i;
      assert q <= p;
      forall k | q < k <= p && k < |kept| ensures !KeyOf(kept[k], sel) {
        assert j < at[k] <= i;
      }
      assert DecodesThrough(kept, cuts, sel, q, p);
    }
    SelectAll(kept, ChunkKeep(kept, cuts));
  }

  lemma {:induction false} VideoTwice(r: Recording, cuts: seq<Range>)
    ensures PruneVideo(PruneVideo(r, cuts), cuts) == PruneVideo(r, cuts)
  {
    KeptStaysNeeded(r.events, cuts);
    assert DataEnd(r, r.events) == DataEnd(PruneVideo(r, cuts), r.events);
  }

  /** Pruning is idempotent, whichever of the two guards fire. */
  lemma {:induction false} PruneCutIdempotent(r: Recording, cuts: seq<Range>)
    ensures PruneCut(PruneCut(r, cuts), cuts) == PruneCut(r, cuts)
  {
    TrailingAfterVideo(r, cuts);
    VideoTwice(PruneTrailing(r, cuts), cuts);
  }
}
