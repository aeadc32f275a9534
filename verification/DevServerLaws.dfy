/** What the restart protocol promises over every run (platform/backend/tsdown.config.ts), and where
    its own comments promise more. */
module DevServerLaws {
  import opened Wrappers
  import opened DevServer

  // ----- Safety over every interleaving -----

  predicate Spawns(s: State, step: Step)
    requires Enabled(s, step)
  {
    |Next(s, step).children| > |s.children|
  }

  /** At each spawn every earlier child has exited or been sent SIGKILL, and the spawn is for the
      latest build of the current module. */
  lemma {:induction false} SpawnIsAlone(s: State, step: Step)
    requires Reachable(s) && Enabled(s, step) && Spawns(s, step)
    ensures forall c :: 0 <= c < |s.children| ==> Gone(s.children[c])
    ensures Next(s, step).current == Some(|s.children|)
    ensures Next(s, step).spawns == s.spawns + [Spawn(s.latestRestartId, s.generation)]
  {
    ReachableInv(s);
  }

  /** No server is ever orphaned: any two children that run unkilled are one and the same, and
      that one is the current server. */
  lemma {:induction false} NoServerOrphaned(s: State, a: nat, b: nat)
    requires Reachable(s)
    requires a < |s.children| && !Gone(s.children[a])
    requires b < |s.children| && !Gone(s.children[b])
    ensures a == b && s.current == Some(a)
  {
    ReachableInv(s);
  }

  /** The restart id was requested, and is superseded if it is still queued or under way. */
  ghost predicate Outdated(s: State, id: nat) {
    id <= s.latestRestartId && forall i :: 0 <= i < |s.queue| && s.queue[i].id == id ==> Superseded(s, s.queue[i])
  }

  /** It has not begun to stop anything. */
  ghost predicate NotBegun(s: State, id: nat) {
    forall i :: 0 <= i < |s.queue| && s.queue[i].id == id ==> s.queue[i].phase == Queued
  }

  /** The front restart, if it is this one, cannot spawn. */
  lemma {:induction false} OutdatedSpawn(s: State, attempt: nat, id: nat)
    requires Inv(s) && s.queue != [] && Outdated(s, id)
    ensures var t := SpawnServer(s, attempt);
            Outdated(t, id) && SpawnsOf(t.spawns, id) == SpawnsOf(s.spawns, id) && (NotBegun(s, id) ==> NotBegun(t, id))
  {
    SpawnsOfAppend(s.spawns, Spawn(s.queue[0].id, s.queue[0].configGeneration), id);
  }

  lemma {:induction false} OutdatedAdvance(s: State, id: nat)
    requires Inv(s) && s.queue != [] && Outdated(s, id)
    ensures Outdated(DoAdvance(s), id) && SpawnsOf(DoAdvance(s).spawns, id) == SpawnsOf(s.spawns, id)
    ensures NotBegun(s, id) ==> NotBegun(DoAdvance(s), id)
    ensures NotBegun(s, id) && s.queue[0].id == id ==>
              DoAdvance(s).children == s.children && DoAdvance(s).current == s.current
  {
    match s.queue[0].phase
    case Queued => OutdatedSpawn(s, 0, id);
    case PortRelease => OutdatedSpawn(s, 0, id);
    case RetryWait(attempt) => OutdatedSpawn(s, attempt, id);
    case _ =>
  }

  lemma {:induction false} OutdatedStep(s: State, step: Step, id: nat)
    requires Inv(s) && Enabled(s, step) && Outdated(s, id)
    ensures Outdated(Next(s, step), id) && SpawnsOf(Next(s, step).spawns, id) == SpawnsOf(s.spawns, id)
    ensures NotBegun(s, id) ==> NotBegun(Next(s, step), id)
  {
    match step
    case Advance => OutdatedAdvance(s, id);
    case _ =>
  }

  /** A superseded restart stays superseded and spawns nothing from then on, whatever happens; and if
      it had not begun, it never does, so it stops nothing either. */
  lemma {:induction false} SupersededRestartIsSilent(from: State, steps: seq<Step>, to: State, id: nat)
    requires Inv(from) && IsRun(from, steps, to) && Outdated(from, id)
    ensures Outdated(to, id) && SpawnsOf(to.spawns, id) == SpawnsOf(from.spawns, id)
    ensures NotBegun(from, id) ==> NotBegun(to, id)
    decreases |steps|
  {
    if steps != [] {
      OutdatedStep(from, steps[0], id);
      NextKeepsInv(from, steps[0]);
      SupersededRestartIsSilent(Next(from, steps[0]), steps[1..], to, id);
    }
  }

  // ----- Stopping a server -----

  /** Where stopServer stands for restart id: waiting for proc, or done with it. */
  ghost predicate StopHolds(s: State, id: nat, proc: nat) {
    && proc < |s.children|
    && (s.queue != [] && s.queue[0].id == id ==>
          s.queue[0].phase == Stopping(proc) || s.queue[0].phase == KillGrace(proc) || Gone(s.children[proc]))
  }

  lemma {:induction false} StopHoldsStep(s: State, step: Step, id: nat, proc: nat)
    requires Inv(s) && Enabled(s, step) && StopHolds(s, id, proc) && s.queue != [] && s.queue[0].id == id
    ensures StopHolds(Next(s, step), id, proc)
  {
  }

  lemma {:induction false} PastStop(s: State, step: Step, id: nat, proc: nat)
    requires Inv(s) && Enabled(s, step) && proc < |s.children| && id <= s.latestRestartId
    requires s.queue == [] || s.queue[0].id > id
    ensures proc < |Next(s, step).children|
    ensures Next(s, step).queue == [] || Next(s, step).queue[0].id > id
  {
  }

  lemma {:induction false} NoLongerFront(from: State, steps: seq<Step>, to: State, id: nat, proc: nat)
    requires Inv(from) && IsRun(from, steps, to) && proc < |from.children| && id <= from.latestRestartId
    requires from.queue == [] || from.queue[0].id > id
    ensures StopHolds(to, id, proc)
    decreases |steps|
  {
    if steps != [] {
      PastStop(from, steps[0], id, proc);
      NextKeepsInv(from, steps[0]);
      NoLongerFront(Next(from, steps[0]), steps[1..], to, id, proc);
    }
  }

  lemma {:induction false} StopHoldsRun(from: State, steps: seq<Step>, to: State, id: nat, proc: nat)
    requires Inv(from) && IsRun(from, steps, to) && StopHolds(from, id, proc)
    requires from.queue != [] && from.queue[0].id == id
    ensures StopHolds(to, id, proc)
    decreases |steps|
  {
    if steps != [] {
      var next := Next(from, steps[0]);
      StopHoldsStep(from, steps[0], id, proc);
      NextKeepsInv(from, steps[0]);
      if next.queue != [] && next.queue[0].id == id {
        StopHoldsRun(next, steps[1..], to, id, proc);
      } else {
        NoLongerFront(next, steps[1..], to, id, proc);
      }
    }
  }

  /** What stopServer promises. The server it waits for has been sent SIGTERM. Its exit lets the
      restart go on, and so do the two timers when no exit event ever comes; and whatever happens,
      the restart does not get past the wait before that server has exited or been sent SIGKILL. */
  lemma {:induction false} StopAlwaysResolves(s: State, proc: nat, steps: seq<Step>, to: State)
    requires Inv(s) && s.queue != [] && s.queue[0].phase == Stopping(proc) && IsRun(s, steps, to)
    ensures proc < |s.children| && s.children[proc].termSent
    ensures s.children[proc].life.Running? ==>
              forall bySignal :: Next(s, Exit(proc, bySignal)).queue[0].phase == Stopped(proc)
    ensures DoAdvance(s).queue != [] && DoAdvance(DoAdvance(s)).queue != []
    ensures DoAdvance(DoAdvance(s)).queue[0] == s.queue[0].(phase := Stopped(proc))
    ensures StopHolds(to, s.queue[0].id, proc)
  {
    StopHoldsRun(s, steps, to, s.queue[0].id, proc);
  }

  // ----- Who is alive -----

  /** Everyone but the last child spawned has exited or been sent SIGKILL. */
  ghost predicate OnlyLastLives(s: State) {
    forall c :: 0 <= c < |s.children| - 1 ==> Gone(s.children[c])
  }

  lemma {:induction false} OnlyLastStep(s: State, step: Step)
    requires Inv(s) && Enabled(s, step) && OnlyLastLives(s)
    ensures OnlyLastLives(Next(s, step))
  {
  }

  lemma {:induction false} RunKeepsOnlyLast(from: State, steps: seq<Step>, to: State)
    requires Inv(from) && IsRun(from, steps, to) && OnlyLastLives(from)
    ensures OnlyLastLives(to)
    decreases |steps|
  {
    if steps != [] {
      OnlyLastStep(from, steps[0]);
      NextKeepsInv(from, steps[0]);
      RunKeepsOnlyLast(Next(from, steps[0]), steps[1..], to);
    }
  }

  /** Every restart spawns at most one server plus its retries. */
  lemma {:induction false} BoundedSpawns(s: State, id: nat)
    requires Reachable(s)
    ensures SpawnsOf(s.spawns, id) <= SERVER_SPAWN_MAX_RETRIES + 1
  {
    ReachableInv(s);
  }

  // ----- The queue drains -----

  function Cost(phase: Phase): nat {
    match phase
    case Queued => 21
    case Stopping(_) => 20
    case KillGrace(_) => 19
    case Stopped(_) => 18
    case PortRelease => 17
    case Starting(_, attempt) => if attempt <= 3 then 4 * (3 - attempt) + 3 else 3
    case Died(_, attempt, _) => if attempt <= 3 then 4 * (3 - attempt) + 2 else 2
    case RetryWait(attempt) => if attempt <= 4 then 4 * (4 - attempt) + 1 else 1
  }

  function QueueCost(queue: seq<Restart>): nat {
    if queue == [] then 0 else Cost(queue[0].phase) + QueueCost(queue[1..])
  }

  function Alive(children: seq<Child>): nat {
    if children == [] then 0
    else Alive(children[..|children| - 1]) + if children[|children| - 1].life.Running? then 1 else 0
  }

  /** How many more steps can happen unless something is built or loaded. */
  function Work(s: State): nat {
    QueueCost(s.queue) + Alive(s.children)
  }

  lemma {:induction false} AliveAppend(children: seq<Child>, c: Child)
    ensures Alive(children + [c]) == Alive(children) + if c.life.Running? then 1 else 0
  {
    assert (children + [c])[..|children|] == children;
  }

  lemma {:induction false} AliveUpdate(children: seq<Child>, i: nat, c: Child)
    requires i < |children|
    ensures Alive(children[i := c]) ==
            Alive(children) - (if children[i].life.Running? then 1 else 0) + (if c.life.Running? then 1 else 0)
  {
    var m := |children| - 1;
    if i < m {
      AliveUpdate(children[..m], i, c);
      assert children[i := c][..m] == children[..m][i := c];
    } else {
      assert children[i := c][..m] == children[..m];
    }
  }

  lemma {:induction false} FrontCost(queue: seq<Restart>, r: Restart)
    requires queue != []
    ensures QueueCost(queue[0 := r]) == QueueCost(queue) - Cost(queue[0].phase) + Cost(r.phase)
  {
    assert queue[0 := r][1..] == queue[1..];
  }

  lemma {:induction false} SpawnSpendsWork(s: State, attempt: nat)
    requires s.queue != [] && attempt <= 3
    requires Cost(s.queue[0].phase) >= 4 * (3 - attempt) + 5
    ensures Work(SpawnServer(s, attempt)) < Work(s)
  {
    var r := s.queue[0];
    if !Superseded(s, r) {
      FrontCost(s.queue, r.(phase := Starting(|s.children|, attempt)));
      AliveAppend(s.children, Child(Running, false, false));
    }
  }

  lemma {:induction false} DequeueSpendsWork(s: State)
    requires Inv(s) && s.queue != [] && s.queue[0].phase == Queued
    ensures Work(Dequeue(s)) < Work(s)
  {
    var r := s.queue[0];
    if !Superseded(s, r) {
      if s.current.None? {
        SpawnSpendsWork(s, 0);
      } else {
        var proc := s.current.value;
        FrontCost(s.queue, r.(phase := Stopping(proc)));
        FrontCost(s.queue, r.(phase := Stopped(proc)));
        AliveUpdate(s.children, proc, s.children[proc].(termSent := true));
      }
    }
  }

  lemma {:induction false} ForceKillSpendsWork(s: State, proc: nat)
    requires Inv(s) && s.queue != [] && s.queue[0].phase == Stopping(proc)
    ensures Work(ForceKill(s, proc)) < Work(s)
  {
    FrontCost(s.queue, s.queue[0].(phase := KillGrace(proc)));
    AliveUpdate(s.children, proc, s.children[proc].(killSent := true));
  }

  lemma {:induction false} AdvanceSpendsWork(s: State)
    requires Inv(s) && s.queue != []
    ensures Work(DoAdvance(s)) < Work(s)
  {
    var r := s.queue[0];
    match r.phase
    case Queued => DequeueSpendsWork(s);
    case Stopping(proc) => ForceKillSpendsWork(s, proc);
    case KillGrace(proc) => FrontCost(s.queue, r.(phase := Stopped(proc)));
    case Stopped(proc) => FrontCost(s.queue, r.(phase := PortRelease));
    case PortRelease => SpawnSpendsWork(s, 0);
    case Starting(child, attempt) =>
    case Died(child, attempt, _) => FrontCost(s.queue, r.(phase := RetryWait(attempt + 1)));
    case RetryWait(attempt) => SpawnSpendsWork(s, attempt);
  }

  lemma {:induction false} ExitMovesFront(s: State, child: nat, bySignal: bool)
    requires child < |s.children|
    ensures QueueCost(DoExit(s, child, bySignal).queue) <= QueueCost(s.queue)
  {
    if s.queue != [] {
      var r := s.queue[0];
      match r.phase
      case Stopping(proc) => FrontCost(s.queue, r.(phase := Stopped(proc)));
      case KillGrace(proc) => FrontCost(s.queue, r.(phase := Stopped(proc)));
      case Starting(c, attempt) => FrontCost(s.queue, r.(phase := Died(c, attempt, bySignal)));
      case _ =>
    }
  }

  lemma {:induction false} ExitSpendsWork(s: State, child: nat, bySignal: bool)
    requires child < |s.children| && s.children[child].life.Running?
    ensures Work(DoExit(s, child, bySignal)) < Work(s)
  {
    ExitMovesFront(s, child, bySignal);
    AliveUpdate(s.children, child, s.children[child].(life := Exited(bySignal)));
  }

  /** Neither a build nor a load. */
  predicate Settling(steps: seq<Step>) {
    forall i :: 0 <= i < |steps| ==> steps[i].Exit? || steps[i].Advance?
  }

  /** Without another build or load, only so many steps can follow. */
  lemma {:induction false} SettlingRunsAreBounded(from: State, steps: seq<Step>, to: State)
    requires Inv(from) && IsRun(from, steps, to) && Settling(steps)
    ensures |steps| + Work(to) <= Work(from)
    decreases |steps|
  {
    if steps != [] {
      match steps[0] {
        case Advance => AdvanceSpendsWork(from);
        case Exit(child, bySignal) => ExitSpendsWork(from, child, bySignal);
      }
      NextKeepsInv(from, steps[0]);
      SettlingRunsAreBounded(Next(from, steps[0]), steps[1..], to);
    }
  }

  function Advances(n: nat): seq<Step> {
    seq(n, i => Advance)
  }

  /** The queue cannot wedge: with no help from any exit event, the front restart can always go
      on, and going on at most Work(s) times empties the queue. */
  lemma {:induction false} QueueDrains(s: State)
    requires Inv(s)
    ensures exists n: nat, drained :: n <= Work(s) && IsRun(s, Advances(n), drained) && drained.queue == []
    decreases Work(s)
  {
    if s.queue == [] {
      assert IsRun(s, Advances(0), s);
    } else {
      AdvanceSpendsWork(s);
      AdvanceKeepsInv(s);
      QueueDrains(DoAdvance(s));
      var n: nat, drained :| n <= Work(DoAdvance(s)) && IsRun(DoAdvance(s), Advances(n), drained) && drained.queue == [];
      assert Advances(n + 1)[1..] == Advances(n) && Advances(n + 1)[0] == Advance;
      assert IsRun(s, Advances(n + 1), drained);
    }
  }

  // ----- The last build wins, and when it does not -----

  /** The latest restart is of the current module, and is still to spawn or was the last to. */
  ghost predicate Winning(s: State, id: nat, g: nat) {
    && s.latestRestartId == id && s.generation == g
    && (s.queue == [] ==> s.spawns != [] && s.spawns[|s.spawns| - 1] == Spawn(id, g))
    && (s.queue != [] ==>
          && s.queue[|s.queue| - 1].id == id && s.queue[|s.queue| - 1].configGeneration == g
          && (|s.queue| == 1 && SpawnedSoFar(s.queue[0].phase) > 0 ==>
                s.spawns != [] && s.spawns[|s.spawns| - 1] == Spawn(id, g)))
  }

  lemma {:induction false} ExitKeepsWinning(s: State, child: nat, bySignal: bool, id: nat, g: nat)
    requires Inv(s) && Winning(s, id, g) && Enabled(s, Exit(child, bySignal))
    ensures Winning(DoExit(s, child, bySignal), id, g)
  {
  }

  lemma {:induction false} SettlingKeepsWinning(s: State, step: Step, id: nat, g: nat)
    requires Inv(s) && Winning(s, id, g) && Enabled(s, step) && (step.Exit? || step.Advance?)
    ensures Winning(Next(s, step), id, g)
  {
    match step
    case Exit(child, bySignal) => ExitKeepsWinning(s, child, bySignal, id, g);
    case _ =>
  }

  lemma {:induction false} WinningRun(from: State, steps: seq<Step>, to: State, id: nat, g: nat)
    requires Inv(from) && Winning(from, id, g) && IsRun(from, steps, to) && Settling(steps)
    ensures Winning(to, id, g)
    decreases |steps|
  {
    if steps != [] {
      SettlingKeepsWinning(from, steps[0], id, g);
      NextKeepsInv(from, steps[0]);
      WinningRun(Next(from, steps[0]), steps[1..], to, id, g);
    }
  }

  /** Everything queued is superseded, so nothing will be spawned. */
  ghost predicate AllSuperseded(s: State) {
    forall i :: 0 <= i < |s.queue| ==> Superseded(s, s.queue[i])
  }

  lemma {:induction false} SilentRun(from: State, steps: seq<Step>, to: State)
    requires AllSuperseded(from) && IsRun(from, steps, to) && Settling(steps)
    ensures AllSuperseded(to) && to.spawns == from.spawns
    decreases |steps|
  {
    if steps != [] {
      SilentRun(Next(from, steps[0]), steps[1..], to);
    }
  }

  /** The last build wins exactly when it belongs to the current module. Once the queue has
      drained after a build that no build or load followed, the last spawn is for that build if
      its module was the current one; if a stale module's callback ran, nothing was spawned at
      all, not even for the restarts it superseded. */
  lemma {:induction false} LastBuildWinsExactlyWhenCurrent(s: State, g: nat, steps: seq<Step>, drained: State)
    requires Reachable(s) && Enabled(s, Build(g))
    requires Settling(steps) && IsRun(Next(s, Build(g)), steps, drained) && drained.queue == []
    ensures g == s.generation ==>
              drained.spawns != [] && drained.spawns[|drained.spawns| - 1] == Spawn(s.latestRestartId + 1, g)
    ensures g != s.generation ==> drained.spawns == s.spawns
    ensures SpawnsOf(drained.spawns, s.latestRestartId + 1) > 0 <==> g == s.generation
  {
    ReachableInv(s);
    NextKeepsInv(s, Build(g));
    var built := Next(s, Build(g));
    if g == s.generation {
      WinningRun(built, steps, drained, s.latestRestartId + 1, g);
      LastCounts(drained.spawns);
    } else {
      SilentRun(built, steps, drained);
    }
  }

  lemma {:induction false} LastCounts(spawns: seq<Spawn>)
    requires spawns != []
    ensures SpawnsOf(spawns, spawns[|spawns| - 1].id) > 0
  {
  }

  /** A module load silences what is queued until the fresh module's own build. */
  lemma {:induction false} LoadSilencesPending(s: State, steps: seq<Step>, to: State)
    requires Reachable(s) && Settling(steps) && IsRun(Next(s, Load), steps, to)
    ensures to.spawns == s.spawns
  {
    ReachableInv(s);
    SilentRun(Next(s, Load), steps, to);
  }

  const UP := State(Some(0), [], 1, 1, [Child(Running, false, false)], [Spawn(1, 1)])
  const CALLED_BACK := State(Some(0), [Restart(2, 2, Stopping(0)), Restart(3, 1, Queued)], 3, 2,
                             [Child(Running, true, false)], [Spawn(1, 1)])
  const STRANDED := State(None, [], 3, 2, [Child(Exited(true), true, false)], [Spawn(1, 1)])

  /** A load, a build, and the server is up. */
  lemma {:induction false} ServerComesUp()
    ensures IsRun(Boot, [Load, Build(1), Advance, Advance], UP)
  {
    var s1 := State(None, [], 0, 1, [], []);
    var s2 := State(None, [Restart(1, 1, Queued)], 1, 1, [], []);
    var s3 := State(Some(0), [Restart(1, 1, Starting(0, 0))], 1, 1, [Child(Running, false, false)], [Spawn(1, 1)]);
    TraceIsRun([Boot, s1, s2, s3, UP], [Load, Build(1), Advance, Advance]);
  }

  /** The module is loaded again, its build stops the server, and the old module calls back. */
  lemma {:induction false} StaleCallbackComesIn()
    ensures IsRun(UP, [Load, Build(2), Advance, Build(1)], CALLED_BACK)
  {
    var s5 := UP.(generation := 2);
    var s6 := s5.(queue := [Restart(2, 2, Queued)], latestRestartId := 2);
    var s7 := s6.(queue := [Restart(2, 2, Stopping(0))], children := [Child(Running, true, false)]);
    TraceIsRun([UP, s5, s6, s7, CALLED_BACK], [Load, Build(2), Advance, Build(1)]);
  }

  /** The old server exits, and neither restart spawns another. */
  lemma {:induction false} NobodySpawns()
    ensures IsRun(CALLED_BACK, [Exit(0, true), Advance, Advance, Advance], STRANDED)
  {
    var s9 := CALLED_BACK.(queue := [Restart(2, 2, Stopped(0)), Restart(3, 1, Queued)],
                           children := [Child(Exited(true), true, false)]);
    var s10 := s9.(queue := [Restart(2, 2, PortRelease), Restart(3, 1, Queued)], current := None);
    var s11 := s10.(queue := [Restart(3, 1, Queued)]);
    TraceIsRun([CALLED_BACK, s9, s10, s11, STRANDED], [Exit(0, true), Advance, Advance, Advance]);
  }

  lemma {:induction false} RunsCompose(a: State, first: seq<Step>, b: State, second: seq<Step>, c: State)
    requires IsRun(a, first, b) && IsRun(b, second, c)
    ensures IsRun(a, first + second, c)
    decreases |first|
  {
    if first == [] {
      assert first + second == second;
    } else {
      RunsCompose(Next(a, first[0]), first[1..], b, second, c);
      assert (first + second)[1..] == first[1..] + second;
    }
  }

  /** The documented promise that the last good build still spawns and the server is never left
      stranded down fails for a stale callback: here the current module's build has stopped the
      old server when the previous module's callback comes in, and every server stays down. */
  lemma {:induction false} StaleCallbackStrandsServer()
    ensures Reachable(STRANDED)
    ensures STRANDED.queue == [] && STRANDED.current == None && forall c :: c in STRANDED.children ==> c.life.Exited?
  {
    var first, second, third :=
      [Load, Build(1), Advance, Advance], [Load, Build(2), Advance, Build(1)], [Exit(0, true), Advance, Advance, Advance];
    ServerComesUp();
    StaleCallbackComesIn();
    NobodySpawns();
    RunsCompose(Boot, first, UP, second, CALLED_BACK);
    RunsCompose(Boot, first + second, CALLED_BACK, third, STRANDED);
  }

  /** A list of states, each the next of the one before, is a run. */
  lemma {:induction false} TraceIsRun(states: seq<State>, steps: seq<Step>)
    requires |states| == |steps| + 1
    requires forall i :: 0 <= i < |steps| ==> Enabled(states[i], steps[i]) && Next(states[i], steps[i]) == states[i + 1]
    ensures IsRun(states[0], steps, states[|steps|])
    decreases |steps|
  {
    if steps != [] {
      TraceIsRun(states[1..], steps[1..]);
    }
  }
}
