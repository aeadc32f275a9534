/** What a restart does over a run: that it has its turn, that a failed start is retried, and when it
    gives up (platform/backend/tsdown.config.ts:121-262). */
module RestartLaws {
  import opened Wrappers
  import opened DevServer
  import opened DevServerLaws

  // ----- Every restart has its turn -----

  /** The module generations that built, in order. */
  function BuiltBy(steps: seq<Step>): seq<nat> {
    if steps == [] then []
    else Added(steps[0]) + BuiltBy(steps[1..])
  }

  function Added(step: Step): seq<nat> {
    if step.Build? then [step.configGeneration] else []
  }

  /** The queue holds the restarts of the last builds, and no build has been left out. */
  ghost predicate QueueIsLast(s: State, builds: seq<nat>) {
    && s.latestRestartId == |builds| && |s.queue| <= |builds|
    && forall i :: 0 <= i < |s.queue| ==>
         var id := |builds| - |s.queue| + i;
         s.queue[i].id == id + 1 && s.queue[i].configGeneration == builds[id]
  }

  /** The same restarts, wherever they stand. */
  ghost predicate SameRestarts(a: seq<Restart>, b: seq<Restart>) {
    |a| == |b| && forall i :: 0 <= i < |a| ==> a[i].id == b[i].id && a[i].configGeneration == b[i].configGeneration
  }

  lemma {:induction false} AdvanceMovesFront(s: State)
    requires s.queue != []
    ensures DoAdvance(s).latestRestartId == s.latestRestartId
    ensures DoAdvance(s).queue == s.queue[1..] || SameRestarts(DoAdvance(s).queue, s.queue)
  {
  }

  lemma {:induction false} QueueStaysLast(s: State, step: Step, builds: seq<nat>)
    requires Enabled(s, step) && QueueIsLast(s, builds)
    ensures QueueIsLast(Next(s, step), builds + Added(step))
  {
    match step
    case Advance =>
      AdvanceMovesFront(s);
      assert builds + [] == builds;
    case Exit(child, bySignal) =>
      assert SameRestarts(DoExit(s, child, bySignal).queue, s.queue) && builds + [] == builds;
    case Load => assert builds + [] == builds;
    case Build(_) =>
  }

  lemma {:induction false} BuiltOn(builds: seq<nat>, steps: seq<Step>)
    requires steps != []
    ensures builds + BuiltBy(steps) == (builds + Added(steps[0])) + BuiltBy(steps[1..])
  {
  }

  lemma {:induction false} QueueOverRun(from: State, steps: seq<Step>, to: State, builds: seq<nat>)
    requires IsRun(from, steps, to) && QueueIsLast(from, builds)
    ensures QueueIsLast(to, builds + BuiltBy(steps))
    decreases |steps|
  {
    if steps == [] {
      assert builds + BuiltBy(steps) == builds;
    } else {
      BuiltOn(builds, steps);
      QueueStaysLast(from, steps[0], builds);
      QueueOverRun(Next(from, steps[0]), steps[1..], to, builds + Added(steps[0]));
    }
  }

  /** Over every run the queue holds exactly the restarts of the last so many builds, one each, in
      order; so restarts leave it one at a time from its front, and none is passed over. */
  lemma {:induction false} QueueIsTheLastBuilds(steps: seq<Step>, s: State)
    requires IsRun(Boot, steps, s)
    ensures QueueIsLast(s, BuiltBy(steps))
  {
    QueueOverRun(Boot, steps, s, []);
    assert [] + BuiltBy(steps) == BuiltBy(steps);
  }

  // ----- Stopping -----

  /** The exit that a stop waits for ends the wait, before the force-kill timer as after it. */
  lemma {:induction false} ExitEndsWait(s: State, proc: nat, bySignal: bool)
    requires s.queue != [] && (s.queue[0].phase == Stopping(proc) || s.queue[0].phase == KillGrace(proc))
    requires proc < |s.children| && s.children[proc].life.Running?
    ensures var t := Next(s, Exit(proc, bySignal));
            t.queue != [] && t.queue[0] == s.queue[0].(phase := Stopped(proc)) && t.queue[1..] == s.queue[1..]
  {
  }

  // ----- Starting -----

  /** Restart id is the latest, and of the current module. */
  predicate IsCurrent(s: State, id: nat, g: nat) {
    id == s.latestRestartId && g == s.generation
  }

  /** Anything but the front restart going on. */
  predicate Meanwhile(steps: seq<Step>) {
    forall i :: 0 <= i < |steps| ==> !steps[i].Advance?
  }

  /** The front restart waits for no exit, so only it itself moves it. */
  predicate WaitsAlone(phase: Phase) {
    phase.Died? || phase.RetryWait?
  }

  lemma {:induction false} FrontStays(from: State, steps: seq<Step>, to: State)
    requires IsRun(from, steps, to) && Meanwhile(steps) && from.queue != [] && WaitsAlone(from.queue[0].phase)
    ensures to.queue != [] && to.queue[0] == from.queue[0]
    ensures to.current == from.current && to.spawns == from.spawns && |to.children| == |from.children|
    decreases |steps|
  {
    if steps != [] {
      FrontStays(Next(from, steps[0]), steps[1..], to);
    }
  }

  /** In its startup window, the front restart's child is the last spawned, and no other restart's. */
  ghost predicate StartsUp(s: State, id: nat, g: nat, c: nat) {
    && s.queue != [] && s.queue[0].id == id && s.queue[0].configGeneration == g
    && s.queue[0].phase.Starting? && s.queue[0].phase.child == c
    && c < |s.children| && s.children[c].life.Running?
  }

  /** The child of restart id dies in its startup window; then other things may happen; then the
      restart hears of it. It is down for good if the child was killed by a signal, if the restart is
      superseded by then, or if it was the fourth child. Otherwise it waits for the retry timer. */
  lemma {:induction false} HearsOfDeath(
      s: State, id: nat, g: nat, c: nat, bySignal: bool, mid: seq<Step>, t: State)
    requires Reachable(s) && StartsUp(s, id, g, c)
    requires IsRun(Next(s, Exit(c, bySignal)), mid, t) && Meanwhile(mid)
    ensures t.queue != [] && t.spawns == s.spawns
    ensures Next(t, Advance).spawns == s.spawns
    ensures bySignal || !IsCurrent(t, id, g) || SpawnsOf(s.spawns, id) >= 4 ==>
              Next(t, Advance).queue == t.queue[1..] && Next(t, Advance).current == None
    ensures !bySignal && IsCurrent(t, id, g) && SpawnsOf(s.spawns, id) <= 3 ==>
              Next(t, Advance) == t.(queue := [Restart(id, g, RetryWait(SpawnsOf(s.spawns, id)))] + t.queue[1..])
  {
    ReachableInv(s);
    FrontStays(Next(s, Exit(c, bySignal)), mid, t);
  }

  /** After the wait, with whatever happened meanwhile, it spawns again unless it is superseded. */
  lemma {:induction false} SpawnsAgain(s: State, id: nat, g: nat, n: nat, mid: seq<Step>, t: State)
    requires s.queue != [] && s.queue[0] == Restart(id, g, RetryWait(n))
    requires IsRun(s, mid, t) && Meanwhile(mid)
    ensures t.queue != []
    ensures !IsCurrent(t, id, g) ==> Next(t, Advance) == t.(queue := t.queue[1..])
    ensures IsCurrent(t, id, g) ==>
              var again := Next(t, Advance);
              && StartsUp(again, id, g, |t.children|) && again.queue[1..] == t.queue[1..]
              && again.children == t.children + [Child(Running, false, false)]
              && again.current == Some(|t.children|)
              && again.spawns == s.spawns + [Spawn(id, g)]
  {
    FrontStays(s, mid, t);
  }

  /** A child that exits by code in its startup window, as one of the first three of a restart that
      stays current, is followed by another: over any run in which the restart goes on twice. */
  lemma {:induction false} FailedStartIsRetried(
      s: State, id: nat, g: nat, c: nat, mid: seq<Step>, t: State, mid': seq<Step>, u: State)
    requires Reachable(s) && StartsUp(s, id, g, c) && SpawnsOf(s.spawns, id) <= 3
    requires IsRun(Next(s, Exit(c, false)), mid, t) && Meanwhile(mid) && t.queue != []
    requires IsRun(Next(t, Advance), mid', u) && Meanwhile(mid') && u.queue != []
    requires IsCurrent(t, id, g) && IsCurrent(u, id, g)
    ensures var again := Next(u, Advance);
            && again.spawns == s.spawns + [Spawn(id, g)]
            && StartsUp(again, id, g, |u.children|) && again.current == Some(|u.children|)
  {
    HearsOfDeath(s, id, g, c, false, mid, t);
    SpawnsAgain(Next(t, Advance), id, g, SpawnsOf(s.spawns, id), mid', u);
  }

  // ----- Giving up -----

  /** While a restart awaits its child, the child runs; when it hears of its death, the child is dead. */
  ghost predicate ChildFits(s: State) {
    s.queue != [] ==>
      match s.queue[0].phase
      case Starting(c, _) => c == |s.children| - 1 && s.children[c].life.Running?
      case Died(c, _, bySignal) => c == |s.children| - 1 && s.children[c].life == Exited(bySignal)
      case RetryWait(_) => s.children != [] && s.children[|s.children| - 1].life == Exited(false)
      case _ => true
  }

  lemma {:induction false} ChildStaysFit(s: State, step: Step)
    requires Inv(s) && Enabled(s, step) && ChildFits(s)
    ensures ChildFits(Next(s, step))
  {
  }

  lemma {:induction false} ChildFitsOverRun(from: State, steps: seq<Step>, to: State)
    requires Inv(from) && IsRun(from, steps, to) && ChildFits(from)
    ensures ChildFits(to)
    decreases |steps|
  {
    if steps != [] {
      ChildStaysFit(from, steps[0]);
      NextKeepsInv(from, steps[0]);
      ChildFitsOverRun(Next(from, steps[0]), steps[1..], to);
    }
  }

  /** A restart that is current when it leaves the queue leaves its own server up, or one that a
      signal killed, or has spawned four servers, the last of which failed too. */
  lemma {:induction false} GivesUpOnlyAfterFour(s: State)
    requires Reachable(s) && s.queue != [] && IsCurrent(s, s.queue[0].id, s.queue[0].configGeneration)
    requires Next(s, Advance).queue == s.queue[1..]
    ensures var last := |s.children| - 1;
            && last >= 0 && SpawnsOf(s.spawns, s.queue[0].id) >= 1
            && match s.children[last].life
               case Running => Next(s, Advance).current == Some(last)
               case Exited(bySignal) => bySignal || SpawnsOf(s.spawns, s.queue[0].id) == 4
  {
    ReachableInv(s);
    var steps :| IsRun(Boot, steps, s);
    ChildFitsOverRun(Boot, steps, s);
    assert Next(s, Advance).queue == s.queue[1..];
  }
}
