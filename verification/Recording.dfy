/** The recorded bundle, and the selections that pruning makes from its events
    (platform/shared/app-recording.ts). */
module Recording {
  import opened Wrappers
  import opened Cuts

  /** The kinds of event that pruning tells apart. Other events differ for the player only. */
  datatype OtherKind =
    | Pointer | Key | Input | Scroll | SegmentMarker | Canvas | AudioConfig | AudioChunk | Dom

  datatype Event =
    | Viewport(t: nat, payload: string)
    | Mcp(t: nat, durationMs: Option<nat>, payload: string)
    | VideoConfig(t: nat, sel: string, config: string)
    | VideoChunk(t: nat, sel: string, key: bool, tsUs: nat, data: string)
    | Other(t: nat, kind: OtherKind, payload: string)

  /** A segment or a transcript message: only its time matters here. */
  datatype Stamped = Stamped(atMs: int, payload: string)

  datatype Recording = Recording(durationMs: int, events: seq<Event>, segments: seq<Stamped>, transcript: seq<Stamped>)

  /** cuts is None when the bundle carries no edits at all. */
  datatype Bundle = Bundle(recording: Recording, cuts: Option<seq<Cut>>, rest: string)

  predicate ChunkOf(e: Event, sel: string) {
    e.VideoChunk? && e.sel == sel
  }

  predicate KeyOf(e: Event, sel: string) {
    ChunkOf(e, sel) && e.key
  }

  predicate ConfigOf(e: Event, sel: string) {
    e.VideoConfig? && e.sel == sel
  }

  // ----- The end of the data -----

  function Times(events: seq<Event>): seq<int> {
    seq(|events|, i requires 0 <= i < |events| => events[i].t)
  }

  function Stamps(s: seq<Stamped>): seq<int> {
    seq(|s|, i requires 0 <= i < |s| => s[i].atMs)
  }

  function Latest(floor: int, times: seq<int>): int {
    if times == [] then floor else Max(Latest(floor, times[..|times| - 1]), times[|times| - 1])
  }

  function DataEnd(r: Recording, events: seq<Event>): int {
    Latest(Latest(Latest(Max(0, r.durationMs), Times(events)), Stamps(r.segments)), Stamps(r.transcript))
  }

  lemma {:induction false} LatestIsMaximum(floor: int, times: seq<int>)
    ensures Latest(floor, times) == floor || Latest(floor, times) in times
    ensures floor <= Latest(floor, times)
    ensures forall x :: x in times ==> x <= Latest(floor, times)
  {
    if times != [] {
      var front := times[..|times| - 1];
      LatestIsMaximum(floor, front);
      assert times == front + [times[|times| - 1]];
    }
  }

  /** The moments a recording holds data for: its start, its recorded end, and every stamp. */
  ghost predicate DataAt(r: Recording, events: seq<Event>, t: int) {
    || t == 0
    || t == r.durationMs
    || (exists e :: e in events && e.t == t)
    || (exists s :: s in r.segments + r.transcript && s.atMs == t)
  }

  /** The data end is the greatest moment the recording holds data for. */
  lemma {:induction false} DataEndIsMaximum(r: Recording, events: seq<Event>)
    ensures DataAt(r, events, DataEnd(r, events))
    ensures forall t :: DataAt(r, events, t) ==> t <= DataEnd(r, events)
  {
    var floor := Max(0, r.durationMs);
    var afterEvents := Latest(floor, Times(events));
    var afterSegments := Latest(afterEvents, Stamps(r.segments));
    LatestIsMaximum(floor, Times(events));
    LatestIsMaximum(afterEvents, Stamps(r.segments));
    LatestIsMaximum(afterSegments, Stamps(r.transcript));
    forall e | e in events ensures e.t in Times(events) {
      var i :| 0 <= i < |events| && events[i] == e;
      assert Times(events)[i] == e.t;
    }
    forall s | s in r.segments ensures s.atMs in Stamps(r.segments) {
      var i :| 0 <= i < |r.segments| && r.segments[i] == s;
      assert Stamps(r.segments)[i] == s.atMs;
    }
    forall s | s in r.transcript ensures s.atMs in Stamps(r.transcript) {
      var i :| 0 <= i < |r.transcript| && r.transcript[i] == s;
      assert Stamps(r.transcript)[i] == s.atMs;
    }
    assert forall s :: s in r.segments + r.transcript <==> s in r.segments || s in r.transcript;
  }

  /** dataEndOf. */
  method DataEndOf(r: Recording, events: seq<Event>) returns (end: int)
    ensures end == DataEnd(r, events)
  {
    end := Max(0, r.durationMs);
    for n := 0 to |events|
      invariant end == Latest(Max(0, r.durationMs), Times(events)[..n])
    {
      assert Times(events)[..n + 1] == Times(events)[..n] + [events[n].t];
      end := Max(end, events[n].t);
    }
    assert Times(events)[..|events|] == Times(events);
    ghost var afterEvents := end;
    for n := 0 to |r.segments|
      invariant end == Latest(afterEvents, Stamps(r.segments)[..n])
    {
      assert Stamps(r.segments)[..n + 1] == Stamps(r.segments)[..n] + [r.segments[n].atMs];
      end := Max(end, r.segments[n].atMs);
    }
    assert Stamps(r.segments)[..|r.segments|] == Stamps(r.segments);
    ghost var afterSegments := end;
    for n := 0 to |r.transcript|
      invariant end == Latest(afterSegments, Stamps(r.transcript)[..n])
    {
      assert Stamps(r.transcript)[..n + 1] == Stamps(r.transcript)[..n] + [r.transcript[n].atMs];
      end := Max(end, r.transcript[n].atMs);
    }
    assert Stamps(r.transcript)[..|r.transcript|] == Stamps(r.transcript);
  }

  // ----- Keeping some of a list, in order -----

  function Select<T>(s: seq<T>, keep: seq<bool>): seq<T>
    requires |s| == |keep|
  {
    if s == [] then []
    else Select(s[..|s| - 1], keep[..|s| - 1]) + if keep[|s| - 1] then [s[|s| - 1]] else []
  }

  /** Where the q-th kept element came from. */
  function Positions(keep: seq<bool>): seq<nat> {
    if keep == [] then []
    else Positions(keep[..|keep| - 1]) + if keep[|keep| - 1] then [|keep| - 1] else []
  }

  ghost predicate Increasing(p: seq<nat>) {
    forall i, j :: 0 <= i < j < |p| ==> p[i] < p[j]
  }

  /** kept is what is left of s once the elements off the given positions are dropped. */
  ghost predicate PicksAt<T>(kept: seq<T>, s: seq<T>, at: seq<nat>) {
    && |at| == |kept| && Increasing(at)
    && forall q :: 0 <= q < |kept| ==> at[q] < |s| && kept[q] == s[at[q]]
  }

  ghost predicate SubsequenceOf<T(!new)>(kept: seq<T>, s: seq<T>) {
    exists at: seq<nat> :: PicksAt(kept, s, at)
  }

  lemma {:induction false} SelectPositions<T>(s: seq<T>, keep: seq<bool>)
    requires |s| == |keep|
    ensures PicksAt(Select(s, keep), s, Positions(keep))
    ensures forall i :: 0 <= i < |s| ==> (keep[i] <==> i in Positions(keep))
  {
    if s != [] {
      SelectPositions(s[..|s| - 1], keep[..|s| - 1]);
    }
  }

  lemma {:induction false} SelectIsSubsequence<T(!new)>(s: seq<T>, keep: seq<bool>)
    requires |s| == |keep|
    ensures SubsequenceOf(Select(s, keep), s)
  {
    SelectPositions(s, keep);
  }

  lemma {:induction false} SubsequenceTransitive<T(!new)>(a: seq<T>, b: seq<T>, c: seq<T>)
    requires SubsequenceOf(a, b) && SubsequenceOf(b, c)
    ensures SubsequenceOf(a, c)
  {
    var p: seq<nat> :| PicksAt(a, b, p);
    var q: seq<nat> :| PicksAt(b, c, q);
    var at: seq<nat> := seq(|a|, i requires 0 <= i < |a| => q[p[i]]);
    assert PicksAt(a, c, at);
  }

  lemma {:induction false} SubsequenceReflexive<T(!new)>(a: seq<T>)
    ensures SubsequenceOf(a, a)
  {
    var at: seq<nat> := seq(|a|, i requires 0 <= i < |a| => i);
    assert PicksAt(a, a, at);
  }

  lemma {:induction false} SelectAll<T>(s: seq<T>, keep: seq<bool>)
    requires |s| == |keep| && forall i :: 0 <= i < |s| ==> keep[i]
    ensures Select(s, keep) == s
  {
    if s != [] {
      SelectAll(s[..|s| - 1], keep[..|s| - 1]);
    }
  }

  lemma {:induction false} SelectLength<T>(s: seq<T>, keep: seq<bool>)
    requires |s| == |keep|
    ensures |Select(s, keep)| <= |s|
    ensures |Select(s, keep)| == |s| <==> forall i :: 0 <= i < |s| ==> keep[i]
  {
    if s != [] {
      SelectLength(s[..|s| - 1], keep[..|s| - 1]);
      if |Select(s, keep)| == |s| {
        forall i | 0 <= i < |s| ensures keep[i] {
          assert i < |s| - 1 ==> keep[..|s| - 1][i];
        }
      }
    }
  }

  lemma {:induction false} SelectSplit<T>(s: seq<T>, keep: seq<bool>, n: nat)
    requires |s| == |keep| && n <= |s|
    ensures Select(s, keep) == Select(s[..n], keep[..n]) + Select(s[n..], keep[n..])
  {
    if n == |s| {
      assert s[..n] == s && keep[..n] == keep;
    } else {
      var m := |s| - 1;
      SelectSplit(s[..m], keep[..m], n);
      assert s[..m][..n] == s[..n] && keep[..m][..n] == keep[..n];
      assert s[..m][n..] == s[n..][..m - n] && keep[..m][n..] == keep[n..][..m - n];
    }
  }

  lemma {:induction false} SelectMembers<T>(s: seq<T>, keep: seq<bool>, x: T)
    requires |s| == |keep|
    ensures x in Select(s, keep) <==> exists i :: 0 <= i < |s| && keep[i] && s[i] == x
  {
    SelectPositions(s, keep);
    var p := Positions(keep);
    if i :| 0 <= i < |s| && keep[i] && s[i] == x {
      var q :| 0 <= q < |p| && p[q] == i;
      assert Select(s, keep)[q] == x;
    }
    if x in Select(s, keep) {
      var q :| 0 <= q < |Select(s, keep)| && Select(s, keep)[q] == x;
      assert p[q] in p;
    }
  }

  /** Dropping events can only bring the data end in. */
  lemma {:induction false} SelectDataEnd(r: Recording, events: seq<Event>, keep: seq<bool>)
    requires |events| == |keep|
    ensures DataEnd(r, Select(events, keep)) <= DataEnd(r, events)
  {
    var kept := Select(events, keep);
    DataEndIsMaximum(r, kept);
    DataEndIsMaximum(r, events);
    var end := DataEnd(r, kept);
    if e :| e in kept && e.t == end {
      SelectMembers(events, keep, e);
    }
    assert DataAt(r, events, end);
  }
}
