/** The pruning passes as the code runs them: loops over per-stream chunk lists and index sets
    (platform/shared/app-recording.ts). */
module VideoPass {
  import opened Wrappers
  import opened Cuts
  import opened Recording
  import opened Pruner

  /** A chunk as one stream's list holds it: its place among the events, its time, its kind. */
  datatype Chunk = Chunk(at: nat, t: nat, key: bool)

  predicate Stands(c: Chunk, events: seq<Event>, sel: string) {
    c.at < |events| && ChunkOf(events[c.at], sel) && events[c.at].t == c.t && events[c.at].key == c.key
  }

  /** The list holds the stream's chunks among the events: all of them, once, in order. */
  ghost predicate IsStreamOf(chunks: seq<Chunk>, events: seq<Event>, sel: string) {
    && (forall i :: 0 <= i < |chunks| ==> Stands(chunks[i], events, sel))
    && (forall i, j :: 0 <= i < j < |chunks| ==> chunks[i].at < chunks[j].at)
    && (forall at :: 0 <= at < |events| && ChunkOf(events[at], sel) ==>
          exists i :: 0 <= i < |chunks| && chunks[i].at == at)
  }

  predicate InView(chunks: seq<Chunk>, cuts: seq<Range>, i: nat)
    requires i < |chunks|
  {
    !Hidden(cuts, chunks[i].t)
  }

  ghost predicate NoKeyAfter(chunks: seq<Chunk>, j: nat, i: nat) {
    forall k :: j < k <= i && k < |chunks| ==> !chunks[k].key
  }

  /** Some chunk in view before `end` decodes through chunk j of the list. */
  ghost predicate NeededBefore(chunks: seq<Chunk>, cuts: seq<Range>, j: nat, end: nat)
    requires end <= |chunks|
  {
    exists i :: j <= i < end && InView(chunks, cuts, i) && NoKeyAfter(chunks, j, i)
  }

  /** The keep set of one stream: the chunks in view, each run extended back to its keyframe. */
  method KeepSet(chunks: seq<Chunk>, cuts: seq<Range>) returns (keep: set<int>)
    ensures forall j :: 0 <= j < |chunks| ==> (j in keep <==> NeededBefore(chunks, cuts, j, |chunks|))
  {
    keep := {};
    for i := 0 to |chunks|
      invariant forall j :: j in keep <==> 0 <= j < i && InView(chunks, cuts, j)
    {
      if !Hidden(cuts, chunks[i].t) {
        keep := keep + {i};
      }
    }
    for i := 0 to |chunks|
      invariant forall j :: i <= j < |chunks| ==> (j in keep <==> InView(chunks, cuts, j))
      invariant forall j :: 0 <= j < i ==> (j in keep <==> NeededBefore(chunks, cuts, j, i))
      invariant forall j :: j in keep ==> 0 <= j < |chunks|
    {
      ghost var before := keep;
      if i in keep && i - 1 !in keep {
        var key := i;
        while key >= 0 && !chunks[key].key
          invariant -1 <= key <= i
          invariant forall k :: key < k <= i ==> !chunks[k].key
        {
          key := key - 1;
        }
        if key < 0 {
          key := 0;
        }
        for back := key to i
          invariant forall j :: j in keep <==> j in before || key <= j < back
        {
          keep := keep + {back};
        }
        forall j | 0 <= j < i
          ensures j in keep <==> NeededBefore(chunks, cuts, j, i + 1)
        {
          RunOpens(chunks, cuts, j, i, key);
        }
      } else if i in keep {
        forall j | 0 <= j < i
          ensures NeededBefore(chunks, cuts, j, i) <==> NeededBefore(chunks, cuts, j, i + 1)
        {
          RunContinues(chunks, cuts, j, i);
        }
      }
      assert i in keep ==> NoKeyAfter(chunks, i, i);
    }
  }

  /** A run that opens at i reaches back to key: the last keyframe at or before i, or the start. */
  lemma {:induction false} RunOpens(chunks: seq<Chunk>, cuts: seq<Range>, j: nat, i: nat, key: nat)
    requires j < i < |chunks| && key <= i
    requires InView(chunks, cuts, i)
    requires chunks[key].key || key == 0
    requires forall k :: key < k <= i ==> !chunks[k].key
    ensures NeededBefore(chunks, cuts, j, i + 1) <==> NeededBefore(chunks, cuts, j, i) || key <= j
  {
    if key <= j {
      assert NoKeyAfter(chunks, j, i);
    } else {
      assert !NoKeyAfter(chunks, j, i);
    }
  }

  /** Inside a run, what chunk i decodes through is needed by its predecessor already. */
  lemma {:induction false} RunContinues(chunks: seq<Chunk>, cuts: seq<Range>, j: nat, i: nat)
    requires j < i < |chunks|
    requires NeededBefore(chunks, cuts, i - 1, i)
    ensures NeededBefore(chunks, cuts, j, i) <==> NeededBefore(chunks, cuts, j, i + 1)
  {
    if NeededBefore(chunks, cuts, j, i + 1) && !NeededBefore(chunks, cuts, j, i) {
      assert NoKeyAfter(chunks, j, i);
      assert InView(chunks, cuts, i - 1) && NoKeyAfter(chunks, j, i - 1);
    }
  }

  lemma {:induction false} NeededBelow(
      chunks: seq<Chunk>, events: seq<Event>, cuts: seq<Range>, sel: string, j: nat, i: nat)
    requires IsStreamOf(chunks, events, sel) && j <= i < |chunks|
    requires InView(chunks, cuts, i) && NoKeyAfter(chunks, j, i)
    ensures Needed(events, cuts, chunks[j].at)
  {
    assert Stands(chunks[j], events, sel) && Stands(chunks[i], events, sel);
    var at, e := chunks[j].at, chunks[i].at;
    forall k | at < k <= e && k < |events| ensures !KeyOf(events[k], sel) {
      if ChunkOf(events[k], sel) {
        var m :| 0 <= m < |chunks| && chunks[m].at == k;
        assert Stands(chunks[m], events, sel);
        assert j < m <= i;
      }
    }
    assert DecodesThrough(events, cuts, sel, at, e);
  }

  lemma {:induction false} NeededAbove(
      chunks: seq<Chunk>, events: seq<Event>, cuts: seq<Range>, sel: string, j: nat, e: nat)
    requires IsStreamOf(chunks, events, sel) && j < |chunks|
    requires DecodesThrough(events, cuts, sel, chunks[j].at, e)
    ensures NeededBefore(chunks, cuts, j, |chunks|)
  {
    assert Stands(chunks[j], events, sel);
    var i :| 0 <= i < |chunks| && chunks[i].at == e;
    assert Stands(chunks[i], events, sel);
    assert j <= i;
    forall k | j < k <= i && k < |chunks| ensures !chunks[k].key {
      assert Stands(chunks[k], events, sel);
      assert chunks[j].at < chunks[k].at <= e;
    }
    assert InView(chunks, cuts, i) && NoKeyAfter(chunks, j, i);
  }

  /** Needed in the stream's own list is needed among all the events. */
  lemma {:induction false} NeededTransfers(
      chunks: seq<Chunk>, events: seq<Event>, cuts: seq<Range>, sel: string, j: nat)
    requires IsStreamOf(chunks, events, sel) && j < |chunks|
    ensures events[chunks[j].at].VideoChunk?
    ensures NeededBefore(chunks, cuts, j, |chunks|) <==> Needed(events, cuts, chunks[j].at)
  {
    assert Stands(chunks[j], events, sel);
    if NeededBefore(chunks, cuts, j, |chunks|) {
      var i: nat :| j <= i < |chunks| && InView(chunks, cuts, i) && NoKeyAfter(chunks, j, i);
      NeededBelow(chunks, events, cuts, sel, j, i);
    }
    if Needed(events, cuts, chunks[j].at) {
      var e: nat :| DecodesThrough(events, cuts, sel, chunks[j].at, e);
      NeededAbove(chunks, events, cuts, sel, j, e);
    }
  }

  /** Every stream among the events has its list. */
  ghost predicate Grouped(streams: map<string, seq<Chunk>>, events: seq<Event>) {
    && (forall sel :: sel in streams ==> IsStreamOf(streams[sel], events, sel))
    && (forall e :: e in events && e.VideoChunk? ==> e.sel in streams)
  }

  lemma {:induction false} GroupGrows(
      streams: map<string, seq<Chunk>>, events: seq<Event>, e: Event, chunks: seq<Chunk>, c: Chunk)
    requires Grouped(streams, events) && e.VideoChunk? && c == Chunk(|events|, e.t, e.key)
    requires chunks == if e.sel in streams then streams[e.sel] else []
    ensures Grouped(streams[e.sel := chunks + [c]], events + [e])
  {
    assert IsStreamOf(chunks, events, e.sel);
    StreamGrows(chunks, events, e, e.sel, c);
    GroupStays(streams, events, e);
  }

  lemma {:induction false} GroupStays(streams: map<string, seq<Chunk>>, events: seq<Event>, e: Event)
    requires Grouped(streams, events)
    ensures forall sel :: sel in streams && !ChunkOf(e, sel) ==> IsStreamOf(streams[sel], events + [e], sel)
  {
    forall sel | sel in streams && !ChunkOf(e, sel) ensures IsStreamOf(streams[sel], events + [e], sel) {
      StreamStays(streams[sel], events, e, sel);
    }
  }

  /** Groups the chunks by stream, in the order the streams first appear. */
  method Streams(events: seq<Event>) returns (order: seq<string>, streams: map<string, seq<Chunk>>)
    ensures forall sel :: sel in streams <==> sel in order
    ensures forall i, j :: 0 <= i < j < |order| ==> order[i] != order[j]
    ensures Grouped(streams, events)
  {
    order, streams := [], map[];
    for at := 0 to |events|
      invariant forall sel :: sel in streams <==> sel in order
      invariant forall i, j :: 0 <= i < j < |order| ==> order[i] != order[j]
      invariant Grouped(streams, events[..at])
    {
      var event := events[at];
      assert events[..at + 1] == events[..at] + [event];
      if event.VideoChunk? {
        var chunk := Chunk(at, event.t, event.key);
        if event.sel in streams {
          GroupGrows(streams, events[..at], event, streams[event.sel], chunk);
          streams := streams[event.sel := streams[event.sel] + [chunk]];
        } else {
          GroupGrows(streams, events[..at], event, [], chunk);
          assert [] + [chunk] == [chunk];
          streams := streams[event.sel := [chunk]];
          order := order + [event.sel];
        }
      } else {
        GroupStays(streams, events[..at], event);
      }
    }
    assert events[..|events|] == events;
  }

  lemma {:induction false} StreamGrows(chunks: seq<Chunk>, events: seq<Event>, e: Event, sel: string, c: Chunk)
    requires IsStreamOf(chunks, events, sel)
    requires ChunkOf(e, sel) && c == Chunk(|events|, e.t, e.key)
    ensures IsStreamOf(chunks + [c], events + [e], sel)
  {
    var longer := chunks + [c];
    forall i | 0 <= i < |longer| ensures Stands(longer[i], events + [e], sel) {
      if i < |chunks| {
        assert Stands(chunks[i], events, sel);
      }
    }
    forall at | 0 <= at < |events + [e]| && ChunkOf((events + [e])[at], sel)
      ensures exists i :: 0 <= i < |longer| && longer[i].at == at
    {
      if at < |events| {
        var i :| 0 <= i < |chunks| && chunks[i].at == at;
        assert longer[i].at == at;
      } else {
        assert longer[|chunks|].at == at;
      }
    }
  }

  lemma {:induction false} StreamStays(chunks: seq<Chunk>, events: seq<Event>, e: Event, sel: string)
    requires IsStreamOf(chunks, events, sel) && !ChunkOf(e, sel)
    ensures IsStreamOf(chunks, events + [e], sel)
  {
    forall i | 0 <= i < |chunks| ensures Stands(chunks[i], events + [e], sel) {
      assert Stands(chunks[i], events, sel);
    }
  }

  ghost predicate Unkept(chunks: seq<Chunk>, keep: set<int>, n: nat, at: int)
    requires n <= |chunks|
  {
    exists j :: 0 <= j < n && chunks[j].at == at && j !in keep
  }

  method DropUnkept(chunks: seq<Chunk>, keep: set<int>, already: set<int>) returns (dropped: set<int>)
    ensures forall at :: at in dropped <==> at in already || Unkept(chunks, keep, |chunks|, at)
  {
    dropped := already;
    for i := 0 to |chunks|
      invariant forall at :: at in dropped <==> at in already || Unkept(chunks, keep, i, at)
    {
      forall at
        ensures Unkept(chunks, keep, i + 1, at) <==> Unkept(chunks, keep, i, at) || (chunks[i].at == at && i !in keep)
      {
      }
      if i !in keep {
        dropped := dropped + {chunks[i].at};
      }
    }
  }

  lemma {:induction false} UnkeptIsUnneeded(
      chunks: seq<Chunk>, keep: set<int>, events: seq<Event>, cuts: seq<Range>, sel: string, at: int)
    requires IsStreamOf(chunks, events, sel)
    requires forall j :: 0 <= j < |chunks| ==> (j in keep <==> NeededBefore(chunks, cuts, j, |chunks|))
    ensures Unkept(chunks, keep, |chunks|, at) <==>
            0 <= at < |events| && ChunkOf(events[at], sel) && !Needed(events, cuts, at)
  {
    if Unkept(chunks, keep, |chunks|, at) {
      var j :| 0 <= j < |chunks| && chunks[j].at == at && j !in keep;
      assert Stands(chunks[j], events, sel);
      NeededTransfers(chunks, events, cuts, sel, j);
    }
    if 0 <= at < |events| && ChunkOf(events[at], sel) {
      var j :| 0 <= j < |chunks| && chunks[j].at == at;
      NeededTransfers(chunks, events, cuts, sel, j);
    }
  }

  method DropFromStream(
      chunks: seq<Chunk>, ghost events: seq<Event>, cuts: seq<Range>, ghost sel: string, already: set<int>)
    returns (dropped: set<int>)
    requires IsStreamOf(chunks, events, sel)
    ensures forall at :: at in dropped <==>
              at in already || (0 <= at < |events| && ChunkOf(events[at], sel) && !Needed(events, cuts, at))
  {
    var keep := KeepSet(chunks, cuts);
    dropped := DropUnkept(chunks, keep, already);
    forall at
      ensures Unkept(chunks, keep, |chunks|, at) <==>
              0 <= at < |events| && ChunkOf(events[at], sel) && !Needed(events, cuts, at)
    {
      UnkeptIsUnneeded(chunks, keep, events, cuts, sel, at);
    }
  }

  /** Which events the video pass drops: the chunks no chunk in view decodes through. */
  method DroppedChunks(events: seq<Event>, cuts: seq<Range>) returns (dropped: set<int>)
    ensures forall at :: 0 <= at < |events| ==> (at in dropped <==> !ChunkKeep(events, cuts)[at])
  {
    var order, streams := Streams(events);
    dropped := {};
    for n := 0 to |order|
      invariant forall at :: at in dropped <==>
        0 <= at < |events| && events[at].VideoChunk? && events[at].sel in order[..n] && !Needed(events, cuts, at)
    {
      dropped := DropFromStream(streams[order[n]], events, cuts, order[n], dropped);
      assert order[..n + 1] == order[..n] + [order[n]];
    }
    assert order[..|order|] == order;
    forall at | 0 <= at < |events|
      ensures at in dropped <==> !ChunkKeep(events, cuts)[at]
    {
      assert events[at] in events;
    }
  }

  /** The filter that leaves the dropped events out. */
  method Without(events: seq<Event>, dropped: set<int>, ghost keep: seq<bool>) returns (kept: seq<Event>)
    requires |keep| == |events|
    requires forall at :: 0 <= at < |events| ==> (at in dropped <==> !keep[at])
    ensures kept == Select(events, keep)
  {
    kept := [];
    for n := 0 to |events|
      invariant kept == Select(events[..n], keep[..n])
    {
      assert events[..n + 1][..n] == events[..n] && keep[..n + 1][..n] == keep[..n];
      if n !in dropped {
        kept := kept + [events[n]];
      }
    }
    assert events[..|events|] == events && keep[..|events|] == keep;
  }

  function RangesOf(bundle: Bundle): seq<Range>
    reads if bundle.cuts.Some? then bundle.cuts.value else []
  {
    if bundle.cuts.Some? then Ranges(bundle.cuts.value) else []
  }

  lemma {:induction false} NoCutsNoPruning(r: Recording)
    ensures PruneTrailing(r, []) == r
    ensures PruneVideo(r, []) == r
  {
    assert Normalized([]) == [];
    forall j | 0 <= j < |r.events|
      ensures ChunkKeep(r.events, [])[j]
    {
      if r.events[j].VideoChunk? {
        assert NoKeyWithin(r.events, r.events[j].sel, j, j);
        assert DecodesThrough(r.events, [], r.events[j].sel, j, j);
      }
    }
    SelectAll(r.events, ChunkKeep(r.events, []));
  }

  /** pruneTrailingTrimEvents. */
  method PruneTrailingTrimEvents(bundle: Bundle) returns (pruned: Bundle)
    ensures pruned == bundle.(recording := PruneTrailing(bundle.recording, RangesOf(bundle)))
    ensures RangesOf(bundle) == old(RangesOf(bundle))
  {
    NoCutsNoPruning(bundle.recording);
    if bundle.cuts.None? || |bundle.cuts.value| == 0 {
      return bundle;
    }
    var events := bundle.recording.events;
    var rawDataEnd := DataEndOf(bundle.recording, events);
    var merged := NormalizeCuts(bundle.cuts.value);
    var tail := TrailingCut(Ranges(merged), rawDataEnd);
    if tail.None? {
      return bundle;
    }
    var kept := Select(events, TrimKeep(tail.value, events));
    SelectLength(events, TrimKeep(tail.value, events));
    if |kept| == |events| {
      SelectAll(events, TrimKeep(tail.value, events));
      return bundle;
    }
    var keptEnd := DataEndOf(bundle.recording, kept);
    if keptEnd != rawDataEnd {
      return bundle;
    }
    return bundle.(recording := bundle.recording.(events := kept));
  }

  /** pruneCutVideoChunks. */
  method PruneCutVideoChunks(bundle: Bundle) returns (pruned: Bundle)
    ensures pruned == bundle.(recording := PruneVideo(bundle.recording, RangesOf(bundle)))
    ensures RangesOf(bundle) == old(RangesOf(bundle))
  {
    ghost var stored := RangesOf(bundle);
    NoCutsNoPruning(bundle.recording);
    var merged := NormalizeCuts(if bundle.cuts.Some? then bundle.cuts.value else []);
    var cuts := Ranges(merged);
    NormalizedProperties(stored);
    var events := bundle.recording.events;
    ChunkKeepByCover(events, cuts, stored);
    ghost var keep := ChunkKeep(events, stored);
    if |merged| == 0 {
      ChunkKeepByCover(events, cuts, []);
      return bundle;
    }
    var dropped := DroppedChunks(events, cuts);
    if dropped == {} {
      SelectAll(events, keep);
      return bundle;
    }
    var kept := Without(events, dropped, keep);
    var keptEnd := DataEndOf(bundle.recording, kept);
    var dataEnd := DataEndOf(bundle.recording, events);
    if keptEnd != dataEnd {
      return bundle;
    }
    return bundle.(recording := bundle.recording.(events := kept));
  }

  /** pruneCutEvents: the two passes, one after the other. */
  method PruneCutEvents(bundle: Bundle) returns (pruned: Bundle)
    ensures pruned == bundle.(recording := PruneCut(bundle.recording, RangesOf(bundle)))
    ensures RangesOf(bundle) == old(RangesOf(bundle))
  {
    var trimmed := PruneTrailingTrimEvents(bundle);
    pruned := PruneCutVideoChunks(trimmed);
  }
}
