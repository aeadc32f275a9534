/** What pruning does to the pictures that are shown (platform/shared/app-recording.ts:956-1063). */
module Playback {
  import opened Wrappers
  import opened Cuts
  import opened Recording
  import opened Pruner
  import opened Decoding

  // ----- What is on screen between chunks -----

  /** The canvas's picture once the first n recorded events have been applied, pruned or not. */
  ghost function Shown<P>(d: Decoder<P>, sel: string, events: seq<Event>, cuts: seq<Range>, n: nat): P
    requires n <= |events|
  {
    Decode(d, sel, Select(events[..n], ChunkKeep(events, cuts)[..n])).picture
  }

  function Recorded<P>(d: Decoder<P>, sel: string, events: seq<Event>, n: nat): P
    requires n <= |events|
  {
    Decode(d, sel, events[..n]).picture
  }

  /** The stream's last event before n is a chunk that the video pass drops. */
  ghost predicate LastChunkDropped(events: seq<Event>, cuts: seq<Range>, sel: string, n: nat)
    requires n <= |events|
  {
    exists j: nat :: LastOfStream(events, sel, n, j) && ChunkOf(events[j], sel) && !Needed(events, cuts, j)
  }

  /** The encoder's timestamps tell the stream's chunks apart. */
  ghost predicate StampsDistinct(events: seq<Event>, sel: string) {
    forall i, j :: 0 <= i < j < |events| && ChunkOf(events[i], sel) && ChunkOf(events[j], sel) ==>
      events[i].tsUs != events[j].tsUs
  }

  /** A decoder whose picture is the timestamp of the frame it shows, as a decoded frame carries it. */
  function StampDecoder(): Decoder<Option<nat>> {
    Decoder(None, config => None, (config, ts, data) => Some(ts), (config, before, ts, data) => Some(ts))
  }

  lemma {:induction false} StampShown(sel: string, events: seq<Event>)
    ensures var p := Decode(StampDecoder(), sel, events).picture;
            p.Some? ==> exists i :: 0 <= i < |events| && ChunkOf(events[i], sel) && events[i].tsUs == p.value
  {
    if events != [] {
      var n := |events| - 1;
      StampShown(sel, events[..n]);
      var e := events[n];
      if !ChunkOf(e, sel) && !ConfigOf(e, sel) && Decode(StampDecoder(), sel, events).picture.Some? {
        var i :| 0 <= i < n && ChunkOf(events[..n][i], sel) &&
                 events[..n][i].tsUs == Decode(StampDecoder(), sel, events).picture.value;
        assert events[i] == events[..n][i];
      }
    }
  }

  lemma {:induction false} QuietTail<P>(d: Decoder<P>, sel: string, events: seq<Event>, from: nat)
    requires from <= |events|
    requires forall k :: from <= k < |events| ==> !ChunkOf(events[k], sel) && !ConfigOf(events[k], sel)
    ensures Decode(d, sel, events) == Decode(d, sel, events[..from])
  {
    if from < |events| {
      var n := |events| - 1;
      QuietTail(d, sel, events[..n], from);
      assert events[..n][..from] == events[..from];
    } else {
      assert events[..from] == events;
    }
  }

  /** After a configuration nothing of the stream is left of what came before. */
  lemma {:induction false} ConfiguredAgree<P>(d: Decoder<P>, sel: string, front: seq<Event>, keep: seq<bool>, j: nat)
    requires |front| == |keep| && LastOfStream(front, sel, |front|, j) && ConfigOf(front[j], sel) && keep[j]
    ensures Decode(d, sel, Select(front, keep)).picture == Decode(d, sel, front).picture
  {
    var head := Select(front[..j], keep[..j]);
    QuietTail(d, sel, front, j + 1);
    assert front[..j + 1] == front[..j] + [front[j]];
    DecodeAppend(d, sel, front[..j], front[j]);
    SelectSplit(front, keep, j + 1);
    SelectedAt(front, keep, j);
    QuietSelection(sel, front[j + 1..], keep[j + 1..]);
    QuietTail(d, sel, Select(front, keep), |head| + 1);
    assert Select(front, keep)[..|head| + 1] == head + [front[j]] by {
      assert front[..j + 1][..j] == front[..j] && keep[..j + 1][..j] == keep[..j];
    }
    DecodeAppend(d, sel, head, front[j]);
  }

  lemma {:induction false} PicturesAgree<P>(d: Decoder<P>, sel: string, events: seq<Event>, cuts: seq<Range>, n: nat)
    requires n <= |events| && !LastChunkDropped(events, cuts, sel, n)
    ensures Shown(d, sel, events, cuts, n) == Recorded(d, sel, events, n)
  {
    var front, keep := events[..n], ChunkKeep(events, cuts)[..n];
    if j: nat :| LastOfStream(events, sel, n, j) {
      if ChunkOf(events[j], sel) {
        KeptChainIsKept(events, cuts, sel, n, j);
        ChainDecodesAlike(d, sel, front, keep);
      } else {
        assert LastOfStream(front, sel, n, j);
        ConfiguredAgree(d, sel, front, keep, j);
      }
    } else {
      NothingOfStream(events, sel, n);
      QuietTail(d, sel, front, 0);
      QuietSelection(sel, front, keep);
      QuietTail(d, sel, Select(front, keep), 0);
    }
  }

  lemma {:induction false} NothingOfStream(events: seq<Event>, sel: string, n: nat)
    requires n <= |events| && forall j: nat :: !LastOfStream(events, sel, n, j)
    ensures forall k :: 0 <= k < n ==> !ChunkOf(events[k], sel) && !ConfigOf(events[k], sel)
  {
    if n > 0 {
      var m := n - 1;
      assert !LastOfStream(events, sel, n, m);
      forall j: nat ensures !LastOfStream(events, sel, m, j) {
        if LastOfStream(events, sel, m, j) {
          assert LastOfStream(events, sel, n, j);
        }
      }
      NothingOfStream(events, sel, m);
    }
  }

  lemma {:induction false} QuietSelection(sel: string, events: seq<Event>, keep: seq<bool>)
    requires |events| == |keep|
    requires forall k :: 0 <= k < |events| ==> !ChunkOf(events[k], sel) && !ConfigOf(events[k], sel)
    ensures forall k :: 0 <= k < |Select(events, keep)| ==>
              !ChunkOf(Select(events, keep)[k], sel) && !ConfigOf(Select(events, keep)[k], sel)
  {
    SelectPositions(events, keep);
  }

  lemma {:induction false} RecordedStamp(sel: string, events: seq<Event>, n: nat, j: nat)
    requires n <= |events| && LastOfStream(events, sel, n, j) && ChunkOf(events[j], sel)
    ensures Recorded(StampDecoder(), sel, events, n) == Some(events[j].tsUs)
  {
    var front := events[..n];
    QuietTail(StampDecoder(), sel, front, j + 1);
    assert front[..j + 1] == front[..j] + [events[j]];
    DecodeAppend(StampDecoder(), sel, front[..j], events[j]);
  }

  lemma {:induction false} DroppedStampIsGone(sel: string, events: seq<Event>, keep: seq<bool>, j: nat)
    requires |events| == |keep| && StampsDistinct(events, sel)
    requires j < |events| && ChunkOf(events[j], sel) && !keep[j]
    ensures Decode(StampDecoder(), sel, Select(events, keep)).picture != Some(events[j].tsUs)
  {
    var kept := Select(events, keep);
    StampShown(sel, kept);
    SelectPositions(events, keep);
    forall q | 0 <= q < |kept| && ChunkOf(kept[q], sel)
      ensures kept[q].tsUs != events[j].tsUs
    {
      var i := Positions(keep)[q];
      assert i in Positions(keep);
      assert keep[i];
    }
  }

  lemma {:induction false} PicturesDiffer(sel: string, events: seq<Event>, cuts: seq<Range>, n: nat)
    requires n <= |events| && StampsDistinct(events, sel) && LastChunkDropped(events, cuts, sel, n)
    ensures Shown(StampDecoder(), sel, events, cuts, n) != Recorded(StampDecoder(), sel, events, n)
  {
    var j: nat :| LastOfStream(events, sel, n, j) && ChunkOf(events[j], sel) && !Needed(events, cuts, j);
    RecordedStamp(sel, events, n, j);
    DroppedStampIsGone(sel, events[..n], ChunkKeep(events, cuts)[..n], j);
  }

  /** The self-guard of the video pass: dropping the chunks would move the end of the data. */
  ghost predicate GuardFires(r: Recording, cuts: seq<Range>) {
    DataEnd(r, Select(r.events, ChunkKeep(r.events, cuts))) != DataEnd(r, r.events)
  }

  /** What the video pass leaves of the first n recorded events. */
  ghost function PrunedFront(r: Recording, cuts: seq<Range>, n: nat): seq<Event>
    requires n <= |r.events|
  {
    if GuardFires(r, cuts) then r.events[..n] else Select(r.events[..n], ChunkKeep(r.events, cuts)[..n])
  }

  /** It is how the pruned recording begins. */
  lemma {:induction false} PrunedFrontIsFront(r: Recording, cuts: seq<Range>, n: nat)
    requires n <= |r.events|
    ensures PrunedFront(r, cuts, n) <= PruneVideo(r, cuts).events
  {
    SelectSplit(r.events, ChunkKeep(r.events, cuts), n);
  }

  /** When the rendered picture is untouched. After any number of applied events, every decoder shows
      of the pruned recording what it would of the full one exactly when the guard left the recording
      whole or the stream's latest event so far is not a chunk that was dropped. */
  lemma {:induction false} PictureUntouchedExactlyWhen(sel: string, r: Recording, cuts: seq<Range>, n: nat)
    requires n <= |r.events| && StampsDistinct(r.events, sel)
    ensures (forall d: Decoder<Option<nat>> ::
               Decode(d, sel, PrunedFront(r, cuts, n)).picture == Recorded(d, sel, r.events, n))
       <==> GuardFires(r, cuts) || !LastChunkDropped(r.events, cuts, sel, n)
  {
    if !GuardFires(r, cuts) {
      if LastChunkDropped(r.events, cuts, sel, n) {
        PicturesDiffer(sel, r.events, cuts, n);
        assert Decode(StampDecoder(), sel, PrunedFront(r, cuts, n)).picture != Recorded(StampDecoder(), sel, r.events, n);
      } else {
        forall d: Decoder<Option<nat>>
          ensures Decode(d, sel, PrunedFront(r, cuts, n)).picture == Recorded(d, sel, r.events, n)
        {
          PicturesAgree(d, sel, r.events, cuts, n);
        }
      }
    }
  }

  const GAP_CUTS := [Range(10, 20)]
  const BEFORE_GAP := VideoChunk(5, "#c", true, 5, "")
  const IN_GAP := VideoChunk(15, "#c", true, 15, "")
  const PAST_GAP := Other(25, Pointer, "")
  const NEXT_FRAME := VideoChunk(30, "#c", true, 30, "")
  const GAP_RECORDING := Recording(1000, [BEFORE_GAP, IN_GAP, PAST_GAP, NEXT_FRAME], [], [])

  lemma {:induction false} GapKeep()
    ensures ChunkKeep(GAP_RECORDING.events, GAP_CUTS) == [true, false, true, true]
  {
    var events := GAP_RECORDING.events;
    assert Covers(GAP_CUTS[0], 15) && !Hidden(GAP_CUTS, 5) && !Hidden(GAP_CUTS, 30);
    assert KeyOf(events[3], "#c") && !Needed(events, GAP_CUTS, 1);
    InViewIsNeeded(events, GAP_CUTS, 0);
    InViewIsNeeded(events, GAP_CUTS, 3);
  }

  lemma {:induction false} SelectGap()
    ensures Select(GAP_RECORDING.events, [true, false, true, true]) == [BEFORE_GAP, PAST_GAP, NEXT_FRAME]
  {
    var keep := [true, false, true, true];
    var events := GAP_RECORDING.events;
    SelectSplit(events, keep, 2);
    SelectAll(events[2..], keep[2..]);
    assert events[..2] == [BEFORE_GAP, IN_GAP] && keep[..2] == [true, false];
    assert events[..2][..1] == [BEFORE_GAP] && keep[..2][..1] == [true];
    SelectAll([BEFORE_GAP], [true]);
    assert Select(events[..2], keep[..2]) == [BEFORE_GAP];
    assert events[2..] == [PAST_GAP, NEXT_FRAME];
  }

  /** With nothing stamped later, the recorded duration is the end of the data. */
  lemma {:induction false} EndIsDuration(r: Recording, events: seq<Event>)
    requires r.durationMs >= 0 && r.segments == [] && r.transcript == []
    requires forall e :: e in events ==> e.t <= r.durationMs
    ensures DataEnd(r, events) == r.durationMs
  {
    DataEndIsMaximum(r, events);
    assert DataAt(r, events, r.durationMs);
  }

  lemma {:induction false} GapIsNoTrailingCut()
    ensures DataEnd(GAP_RECORDING, GAP_RECORDING.events) == 1000
    ensures DataEnd(GAP_RECORDING, [BEFORE_GAP, PAST_GAP, NEXT_FRAME]) == 1000
    ensures TrailingCut(Normalized(GAP_CUTS), 1000).None?
  {
    EndIsDuration(GAP_RECORDING, GAP_RECORDING.events);
    EndIsDuration(GAP_RECORDING, [BEFORE_GAP, PAST_GAP, NEXT_FRAME]);
    var none: seq<Range> := [];
    assert GAP_CUTS[..0] == none && GAP_CUTS == none + [Range(10, 20)];
    assert Normalized(GAP_CUTS) == GAP_CUTS;
  }

  lemma {:induction false} GapPruned()
    ensures PruneCut(GAP_RECORDING, GAP_CUTS).events == [BEFORE_GAP, PAST_GAP, NEXT_FRAME]
  {
    GapIsNoTrailingCut();
    GapKeep();
    SelectGap();
  }

  /** The documented claim that not one rendered frame changes is too strong. At 25 ms, past the cut
      and so in view, the full recording shows the frame of 15 ms and the pruned one that of 5 ms,
      because nothing in view decodes through the frame that the cut hides. */
  lemma {:induction false} ResumeGapShowsEarlierFrame()
    ensures PruneCut(GAP_RECORDING, GAP_CUTS).events == [BEFORE_GAP, PAST_GAP, NEXT_FRAME]
    ensures !Hidden(GAP_CUTS, PAST_GAP.t)
    ensures Decode(StampDecoder(), "#c", [BEFORE_GAP, IN_GAP, PAST_GAP]).picture == Some(15)
    ensures Decode(StampDecoder(), "#c", [BEFORE_GAP, PAST_GAP]).picture == Some(5)
  {
    GapPruned();
    var d, full, pruned := StampDecoder(), [BEFORE_GAP, IN_GAP, PAST_GAP], [BEFORE_GAP, PAST_GAP];
    RecordedStamp("#c", full, 3, 1);
    RecordedStamp("#c", pruned, 2, 0);
    assert full[..3] == full && pruned[..2] == pruned;
  }

  // ----- Whole passes -----

  /** Chunk j of the events before is among the events after, and decodes there to what it did. */
  ghost predicate DecodesAlike<P>(d: Decoder<P>, before: seq<Event>, j: nat, after: seq<Event>)
    requires j < |before| && before[j].VideoChunk?
  {
    exists q :: 0 <= q < |after| && after[q] == before[j]
                && Decode(d, before[j].sel, after[..q + 1]) == Decode(d, before[j].sel, before[..j + 1])
  }

  lemma {:induction false} SelectedAt<T>(s: seq<T>, keep: seq<bool>, j: nat)
    requires |s| == |keep| && j < |s| && keep[j]
    ensures var q := |Select(s[..j], keep[..j])|;
            q < |Select(s, keep)| && Select(s, keep)[q] == s[j]
            && Select(s, keep)[..q + 1] == Select(s[..j + 1], keep[..j + 1])
  {
    SelectSplit(s, keep, j + 1);
    assert s[..j + 1][..j] == s[..j] && keep[..j + 1][..j] == keep[..j];
    assert Select(s[..j + 1], keep[..j + 1]) == Select(s[..j], keep[..j]) + [s[j]];
  }

  /** The video pass, its guard included, leaves every needed chunk decoding as it did. */
  lemma {:induction false} VideoPassDecodesAlike<P>(d: Decoder<P>, r: Recording, cuts: seq<Range>, j: nat)
    requires j < |r.events| && r.events[j].VideoChunk? && Needed(r.events, cuts, j)
    ensures DecodesAlike(d, r.events, j, PruneVideo(r, cuts).events)
  {
    var keep := ChunkKeep(r.events, cuts);
    SelectedAt(r.events, keep, j);
    KeptChunkDecodesAlike(d, r.events, cuts, j);
    var q := |Select(r.events[..j], keep[..j])|;
    var kept := Select(r.events, keep);
    assert kept[q] == r.events[j] && Decode(d, r.events[j].sel, kept[..q + 1]) == Decode(d, r.events[j].sel, r.events[..j + 1]);
    assert DecodesAlike(d, r.events, j, kept);
    assert DecodesAlike(d, r.events, j, r.events);
  }

  ghost predicate InTime(events: seq<Event>) {
    forall i, j :: 0 <= i < j < |events| ==> events[i].t <= events[j].t
  }

  lemma {:induction false} HeadStays(tail: Range, events: seq<Event>, n: nat)
    requires n <= |events| && forall i :: 0 <= i < n ==> events[i].t <= tail.fromMs
    ensures n <= |Select(events, TrimKeep(tail, events))| && Select(events, TrimKeep(tail, events))[..n] == events[..n]
  {
    var keep := TrimKeep(tail, events);
    forall i | 0 <= i < n ensures keep[i] {
      assert AnchorStart(events[i]) <= events[i].t;
    }
    SelectAll(events[..n], keep[..n]);
    SelectSplit(events, keep, n);
  }

  /** The trailing pass leaves the events up to one at or before the trim's start as they stand. */
  lemma {:induction false} TrailingKeepsHead(r: Recording, cuts: seq<Range>, j: nat)
    requires InTime(r.events) && j < |r.events|
    requires var tail := TrailingCut(Normalized(cuts), DataEnd(r, r.events));
             tail.Some? ==> r.events[j].t <= tail.value.fromMs
    ensures j < |PruneTrailing(r, cuts).events|
    ensures PruneTrailing(r, cuts).events[..j + 1] == r.events[..j + 1]
  {
    var tail := TrailingCut(Normalized(cuts), DataEnd(r, r.events));
    if tail.Some? {
      assert forall i :: 0 <= i < j ==> r.events[i].t <= r.events[j].t;
      HeadStays(tail.value, r.events, j + 1);
    }
  }

  predicate OfStream(e: Event, sel: string) {
    ChunkOf(e, sel) || ConfigOf(e, sel)
  }

  /** A stream that loses nothing decodes alike whatever else is dropped. */
  lemma {:induction false} StreamKept<P>(d: Decoder<P>, sel: string, events: seq<Event>, keep: seq<bool>)
    requires |events| == |keep| && forall i :: 0 <= i < |events| && OfStream(events[i], sel) ==> keep[i]
    ensures Decode(d, sel, Select(events, keep)) == Decode(d, sel, events)
  {
    if events != [] {
      var n := |events| - 1;
      StreamKept(d, sel, events[..n], keep[..n]);
      if keep[n] {
        DecodeAppend(d, sel, Select(events[..n], keep[..n]), events[n]);
      } else {
        assert Select(events, keep) == Select(events[..n], keep[..n]);
      }
    }
  }

  /** The chunk's stream has nothing inside the trailing trim up to the chunk. */
  ghost predicate ClearOfTrim(r: Recording, cuts: seq<Range>, j: nat)
    requires j < |r.events| && r.events[j].VideoChunk?
  {
    var tail := TrailingCut(Normalized(cuts), DataEnd(r, r.events));
    tail.Some? ==> forall i :: 0 <= i <= j && OfStream(r.events[i], r.events[j].sel) ==> !Covers(tail.value, r.events[i].t)
  }

  lemma {:induction false} TrailingPassDecodesAlike<P>(
      d: Decoder<P>, r: Recording, cuts: seq<Range>, j: nat) returns (q: nat)
    requires j < |r.events| && r.events[j].VideoChunk? && ClearOfTrim(r, cuts, j)
    ensures var after := PruneTrailing(r, cuts).events;
            q < |after| && after[q] == r.events[j]
            && Decode(d, r.events[j].sel, after[..q + 1]) == Decode(d, r.events[j].sel, r.events[..j + 1])
  {
    var tail := TrailingCut(Normalized(cuts), DataEnd(r, r.events));
    q := j;
    if tail.Some? {
      var keep := TrimKeep(tail.value, r.events);
      forall i | 0 <= i <= j && OfStream(r.events[i], r.events[j].sel) ensures keep[i] {
        assert !Covers(tail.value, r.events[i].t);
      }
      SelectedAt(r.events, keep, j);
      StreamKept(d, r.events[j].sel, r.events[..j + 1], keep[..j + 1]);
      if PruneTrailing(r, cuts).events != r.events {
        q := |Select(r.events[..j], keep[..j])|;
      }
    }
  }

  /** After both passes, whichever guards fire, every chunk that plays decodes to the picture it
      always did, provided its stream has nothing inside the trailing trim before it. When event
      times are in order that is every chunk that plays at or before the trim. */
  lemma {:induction false} PrunedChunkDecodesAlike<P>(d: Decoder<P>, r: Recording, cuts: seq<Range>, j: nat)
    requires j < |r.events| && r.events[j].VideoChunk? && !Hidden(cuts, r.events[j].t) && ClearOfTrim(r, cuts, j)
    ensures DecodesAlike(d, r.events, j, PruneCut(r, cuts).events)
  {
    var trimmed := PruneTrailing(r, cuts);
    var q := TrailingPassDecodesAlike(d, r, cuts, j);
    InViewIsNeeded(trimmed.events, cuts, q);
    VideoPassDecodesAlike(d, trimmed, cuts, q);
  }

  lemma {:induction false} InOrderIsClear(r: Recording, cuts: seq<Range>, j: nat)
    requires InTime(r.events) && j < |r.events| && r.events[j].VideoChunk?
    requires var tail := TrailingCut(Normalized(cuts), DataEnd(r, r.events));
             tail.Some? ==> r.events[j].t <= tail.value.fromMs
    ensures ClearOfTrim(r, cuts, j)
  {
  }
}
