/** Why pruned video still decodes (the correctness argument of pruneCutVideoChunks in
    platform/shared/app-recording.ts), for any decoder. */
module Decoding {
  import opened Wrappers
  import opened Cuts
  import opened Recording
  import opened Pruner

  /** All a stream's decoder does: a configuration resets it, a keyframe is decoded from the
      configuration alone, and a delta also from the picture before it. */
  datatype Decoder<!P> = Decoder(
    initial: P,
    reset: string -> P,
    fromKey: (Option<string>, nat, string) -> P,
    fromDelta: (Option<string>, P, nat, string) -> P)

  datatype DecoderState<P> = DecoderState(config: Option<string>, picture: P)

  /** One event fed to the decoder of the canvas sel. */
  function Feed<P>(d: Decoder<P>, sel: string, s: DecoderState<P>, e: Event): DecoderState<P> {
    if ConfigOf(e, sel) then DecoderState(Some(e.config), d.reset(e.config))
    else if KeyOf(e, sel) then s.(picture := d.fromKey(s.config, e.tsUs, e.data))
    else if ChunkOf(e, sel) then s.(picture := d.fromDelta(s.config, s.picture, e.tsUs, e.data))
    else s
  }

  function Decode<P>(d: Decoder<P>, sel: string, events: seq<Event>): DecoderState<P> {
    if events == [] then DecoderState(None, d.initial)
    else Feed(d, sel, Decode(d, sel, events[..|events| - 1]), events[|events| - 1])
  }

  lemma {:induction false} DecodeAppend<P>(d: Decoder<P>, sel: string, events: seq<Event>, e: Event)
    ensures Decode(d, sel, events + [e]) == Feed(d, sel, Decode(d, sel, events), e)
  {
    assert (events + [e])[..|events|] == events;
  }

  /** Everything but video chunks is kept. */
  ghost predicate OnlyChunksGo(events: seq<Event>, keep: seq<bool>) {
    |events| == |keep| && forall i :: 0 <= i < |events| && !events[i].VideoChunk? ==> keep[i]
  }

  /** The stream's chunks after its last keyframe, that keyframe included, are all kept. */
  ghost predicate ChainKept(events: seq<Event>, keep: seq<bool>, sel: string)
    requires |events| == |keep|
  {
    forall j :: 0 <= j < |events| && ChunkOf(events[j], sel) && NoKeyWithin(events, sel, j, |events|) ==> keep[j]
  }

  lemma {:induction false} ConfigSurvives<P>(d: Decoder<P>, sel: string, events: seq<Event>, keep: seq<bool>)
    requires OnlyChunksGo(events, keep)
    ensures Decode(d, sel, Select(events, keep)).config == Decode(d, sel, events).config
  {
    if events != [] {
      var n := |events| - 1;
      ConfigSurvives(d, sel, events[..n], keep[..n]);
      if keep[n] {
        DecodeAppend(d, sel, Select(events[..n], keep[..n]), events[n]);
      } else {
        assert Select(events, keep) == Select(events[..n], keep[..n]);
      }
    }
  }

  /** With the chain back to the last keyframe in place, what went before cannot be told. */
  lemma {:induction false} ChainDecodesAlike<P>(d: Decoder<P>, sel: string, events: seq<Event>, keep: seq<bool>)
    requires OnlyChunksGo(events, keep) && ChainKept(events, keep, sel)
    ensures Decode(d, sel, Select(events, keep)) == Decode(d, sel, events)
  {
    if events != [] {
      var n := |events| - 1;
      var e := events[n];
      ConfigSurvives(d, sel, events[..n], keep[..n]);
      if ChunkOf(e, sel) {
        assert NoKeyWithin(events, sel, n, |events|);
        assert keep[n];
      }
      if !KeyOf(e, sel) && !ConfigOf(e, sel) {
        forall j | 0 <= j < n && ChunkOf(events[..n][j], sel) && NoKeyWithin(events[..n], sel, j, n)
          ensures keep[..n][j]
        {
            assert NoKeyWithin(events, sel, j, |events|);
        }
        ChainDecodesAlike(d, sel, events[..n], keep[..n]);
      }
      if keep[n] {
        DecodeAppend(d, sel, Select(events[..n], keep[..n]), e);
      } else {
        assert Select(events, keep) == Select(events[..n], keep[..n]);
      }
    }
  }

  /** The last event of the stream, looking back from n: None when there is none. */
  ghost predicate LastOfStream(events: seq<Event>, sel: string, n: nat, j: nat)
    requires n <= |events|
  {
    && j < n && (ChunkOf(events[j], sel) || ConfigOf(events[j], sel))
    && forall k :: j < k < n ==> !ChunkOf(events[k], sel) && !ConfigOf(events[k], sel)
  }

  /** The chunks that a kept chunk decodes through are kept. */
  lemma {:induction false} KeptChainIsKept(events: seq<Event>, cuts: seq<Range>, sel: string, n: nat, j: nat)
    requires n <= |events| && LastOfStream(events, sel, n, j)
    requires ChunkOf(events[j], sel) && Needed(events, cuts, j)
    ensures ChainKept(events[..n], ChunkKeep(events, cuts)[..n], sel)
  {
    var i: nat :| DecodesThrough(events, cuts, sel, j, i);
    forall x | 0 <= x < n && ChunkOf(events[..n][x], sel) && NoKeyWithin(events[..n], sel, x, n)
      ensures ChunkKeep(events, cuts)[..n][x]
    {
      assert x <= j;
      forall k | x < k <= i && k < |events| ensures !KeyOf(events[k], sel) {
        if k <= j {
          assert events[..n][k] == events[k];
        }
      }
      assert DecodesThrough(events, cuts, sel, x, i);
    }
  }

  /** Decode preservation. Every chunk the video pass keeps, which is to say every chunk that
      plays and every chunk those decode through, decodes to the picture it always did. */
  lemma {:induction false} KeptChunkDecodesAlike<P>(d: Decoder<P>, events: seq<Event>, cuts: seq<Range>, j: nat)
    requires j < |events| && events[j].VideoChunk? && Needed(events, cuts, j)
    ensures Decode(d, events[j].sel, Select(events[..j + 1], ChunkKeep(events, cuts)[..j + 1]))
         == Decode(d, events[j].sel, events[..j + 1])
  {
    var sel := events[j].sel;
    assert LastOfStream(events, sel, j + 1, j);
    KeptChainIsKept(events, cuts, sel, j + 1, j);
    ChainDecodesAlike(d, sel, events[..j + 1], ChunkKeep(events, cuts)[..j + 1]);
  }

  lemma {:induction false} InViewIsNeeded(events: seq<Event>, cuts: seq<Range>, j: nat)
    requires j < |events| && events[j].VideoChunk? && !Hidden(cuts, events[j].t)
    ensures Needed(events, cuts, j)
  {
    assert NoKeyWithin(events, events[j].sel, j, j);
    assert DecodesThrough(events, cuts, events[j].sel, j, j);
  }
}
