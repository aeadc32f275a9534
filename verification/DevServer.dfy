/** The dev server's restart protocol as a state machine (platform/backend/tsdown.config.ts).

    Restarts run one at a time off restartQueue. Each step below is what the event loop runs
    without interruption: a build's callback, a module load, a child's exit, or the front
    restart's next continuation or timer. Exits and steps may interleave in any order. */
module DevServer {
  import opened Wrappers

  const SERVER_SPAWN_MAX_RETRIES: nat := 3

  datatype Life = Running | Exited(bySignal: bool)

  datatype Child = Child(life: Life, termSent: bool, killSent: bool)

  /** Where a restart stands. Only the front one can be past Queued. */
  datatype Phase =
    | Queued
    | Stopping(proc: nat)             // SIGTERM sent, awaiting exit or the force-kill timer
    | KillGrace(proc: nat)            // force-kill timer fired, awaiting exit or the grace timer
    | Stopped(proc: nat)              // stopServer resolved, its continuation is pending
    | PortRelease                     // no current server, awaiting the port timer
    | Starting(child: nat, attempt: nat)                 // spawned, awaiting exit or the startup timer
    | Died(child: nat, attempt: nat, bySignal: bool)     // exited during startup, continuation pending
    | RetryWait(attempt: nat)         // awaiting the retry timer

  datatype Restart = Restart(id: nat, configGeneration: nat, phase: Phase)

  datatype Spawn = Spawn(id: nat, configGeneration: nat)

  datatype State = State(
    current: Option<nat>,
    queue: seq<Restart>,
    latestRestartId: nat,
    generation: nat,
    children: seq<Child>,
    spawns: seq<Spawn>)

  /** The process before any module load. */
  const Boot := State(None, [], 0, 0, [], [])

  datatype Step =
    | Load                               // a config (re)load evaluates the module
    | Build(configGeneration: nat)       // a build succeeded and a loaded module's onSuccess runs
    | Exit(child: nat, bySignal: bool)
    | Advance                            // the front restart's continuation or timer

  // ----- The steps -----

  predicate Superseded(s: State, r: Restart) {
    r.id != s.latestRestartId || r.configGeneration != s.generation
  }

  predicate Gone(c: Child) {
    c.life.Exited? || c.killSent
  }

  function Finish(s: State): State
    requires s.queue != []
  {
    s.(queue := s.queue[1..])
  }

  function Become(s: State, phase: Phase): State
    requires s.queue != []
  {
    s.(queue := s.queue[0 := s.queue[0].(phase := phase)])
  }

  /** spawnWithRetry up to its first await. */
  function SpawnServer(s: State, attempt: nat): State
    requires s.queue != []
  {
    var r := s.queue[0];
    if Superseded(s, r) then Finish(s)
    else
      var child := |s.children|;
      Become(s, Starting(child, attempt)).(
        children := s.children + [Child(Running, false, false)],
        current := Some(child),
        spawns := s.spawns + [Spawn(r.id, r.configGeneration)])
  }

  function ReleaseCurrent(s: State, child: nat): State {
    if s.current == Some(child) then s.(current := None) else s
  }

  function AfterStartupDeath(s: State, child: nat, attempt: nat, bySignal: bool): State
    requires s.queue != []
  {
    if bySignal || Superseded(s, s.queue[0]) then Finish(ReleaseCurrent(s, child))
    else if attempt + 1 > SERVER_SPAWN_MAX_RETRIES then Finish(ReleaseCurrent(s, child))
    else Become(s, RetryWait(attempt + 1))
  }

  /** The restart reaches the front of the queue. */
  function Dequeue(s: State): State
    requires s.queue != []
  {
    if Superseded(s, s.queue[0]) then Finish(s)
    else if s.current.None? then SpawnServer(s, 0)
    else
      var proc := s.current.value;
      if proc < |s.children| && s.children[proc].life.Running? then
        Become(s, Stopping(proc)).(children := s.children[proc := s.children[proc].(termSent := true)])
      else
        Become(s, Stopped(proc))
  }

  function ForceKill(s: State, proc: nat): State
    requires s.queue != []
  {
    if proc < |s.children| && s.children[proc].life.Running? then
      Become(s, KillGrace(proc)).(children := s.children[proc := s.children[proc].(killSent := true)])
    else
      Become(s, KillGrace(proc))
  }

  function DoAdvance(s: State): State
    requires s.queue != []
  {
    match s.queue[0].phase
    case Queued => Dequeue(s)
    case Stopping(proc) => ForceKill(s, proc)
    case KillGrace(proc) => Become(s, Stopped(proc))
    case Stopped(proc) => Become(s, PortRelease).(current := None)
    case PortRelease => SpawnServer(s, 0)
    case Starting(child, attempt) => Finish(s)
    case Died(child, attempt, bySignal) => AfterStartupDeath(s, child, attempt, bySignal)
    case RetryWait(attempt) => SpawnServer(s, attempt)
  }

  /** A child's exit, and what the listener armed on it does. */
  function DoExit(s: State, child: nat, bySignal: bool): State
    requires child < |s.children|
  {
    var s' := s.(children := s.children[child := s.children[child].(life := Exited(bySignal))]);
    if s.queue == [] then s'
    else
      match s.queue[0].phase
      case Stopping(proc) => if proc == child then Become(s', Stopped(proc)) else s'
      case KillGrace(proc) => if proc == child then Become(s', Stopped(proc)) else s'
      case Starting(c, attempt) => if c == child then Become(s', Died(c, attempt, bySignal)) else s'
      case _ => s'
  }

  function DoBuild(s: State, configGeneration: nat): State {
    var id := s.latestRestartId + 1;
    s.(latestRestartId := id, queue := s.queue + [Restart(id, configGeneration, Queued)])
  }

  function DoLoad(s: State): State {
    s.(generation := s.generation + 1)
  }

  predicate Enabled(s: State, step: Step) {
    match step
    case Load => true
    case Build(g) => 1 <= g <= s.generation
    case Exit(child, _) => child < |s.children| && s.children[child].life.Running?
    case Advance => s.queue != []
  }

  function Next(s: State, step: Step): State
    requires Enabled(s, step)
  {
    match step
    case Load => DoLoad(s)
    case Build(g) => DoBuild(s, g)
    case Exit(child, bySignal) => DoExit(s, child, bySignal)
    case Advance => DoAdvance(s)
  }

  ghost predicate IsRun(from: State, steps: seq<Step>, to: State)
    decreases |steps|
  {
    if steps == [] then from == to
    else Enabled(from, steps[0]) && IsRun(Next(from, steps[0]), steps[1..], to)
  }

  ghost predicate Reachable(s: State) {
    exists steps :: IsRun(Boot, steps, s)
  }

  // ----- The invariant -----

  /** Whoever is alive and has not been sent SIGKILL is the current server. */
  ghost predicate NoOrphan(s: State) {
    && (s.current.Some? ==> s.current.value < |s.children|)
    && forall c :: 0 <= c < |s.children| && !Gone(s.children[c]) ==> s.current == Some(c)
  }

  ghost predicate FrontFits(s: State) {
    s.queue != [] ==>
      match s.queue[0].phase
      case Queued => true
      case Stopping(proc) => s.current == Some(proc) && proc < |s.children| && s.children[proc].termSent
      case KillGrace(proc) => s.current == Some(proc) && proc < |s.children| && Gone(s.children[proc])
      case Stopped(proc) => s.current == Some(proc) && proc < |s.children| && Gone(s.children[proc])
      case PortRelease => s.current.None?
      case Starting(child, attempt) => s.current == Some(child) && attempt <= SERVER_SPAWN_MAX_RETRIES
      case Died(child, attempt, _) =>
        && s.current == Some(child) && child < |s.children| && s.children[child].life.Exited?
        && attempt <= SERVER_SPAWN_MAX_RETRIES
      case RetryWait(attempt) =>
        && (s.current.Some? ==> s.current.value < |s.children| && s.children[s.current.value].life.Exited?)
        && 1 <= attempt <= SERVER_SPAWN_MAX_RETRIES
  }

  ghost predicate QueueFits(s: State) {
    && (forall i :: 0 < i < |s.queue| ==> s.queue[i].phase == Queued)
    && (forall i, j :: 0 <= i < j < |s.queue| ==> s.queue[i].id < s.queue[j].id)
    && (forall i :: 0 <= i < |s.queue| ==> s.queue[i].id <= s.latestRestartId && s.queue[i].configGeneration <= s.generation)
  }

  function SpawnsOf(spawns: seq<Spawn>, id: nat): nat {
    if spawns == [] then 0
    else SpawnsOf(spawns[..|spawns| - 1], id) + if spawns[|spawns| - 1].id == id then 1 else 0
  }

  /** How many servers the front restart has spawned so far. */
  function SpawnedSoFar(phase: Phase): nat {
    match phase
    case Starting(_, attempt) => attempt + 1
    case Died(_, attempt, _) => attempt + 1
    case RetryWait(attempt) => attempt
    case _ => 0
  }

  ghost predicate SpawnsFit(s: State) {
    && (forall id :: SpawnsOf(s.spawns, id) <= SERVER_SPAWN_MAX_RETRIES + 1)
    && (forall i :: 0 <= i < |s.queue| ==> SpawnsOf(s.spawns, s.queue[i].id) == SpawnedSoFar(s.queue[i].phase))
    && (forall id :: id > s.latestRestartId ==> SpawnsOf(s.spawns, id) == 0)
    && |s.spawns| == |s.children|
  }

  ghost predicate Inv(s: State) {
    NoOrphan(s) && FrontFits(s) && QueueFits(s) && SpawnsFit(s)
  }

  lemma {:induction false} SpawnsOfAppend(spawns: seq<Spawn>, sp: Spawn, id: nat)
    ensures SpawnsOf(spawns + [sp], id) == SpawnsOf(spawns, id) + if sp.id == id then 1 else 0
  {
    assert (spawns + [sp])[..|spawns|] == spawns;
  }

  /** With no current server, or a dead one, nobody is left to hold the ports. */
  lemma {:induction false} NobodyElse(s: State)
    requires NoOrphan(s)
    requires s.current.Some? ==> Gone(s.children[s.current.value])
    ensures forall c :: 0 <= c < |s.children| ==> Gone(s.children[c])
  {
  }

  lemma {:induction false} SpawnKeepsInv(s: State, attempt: nat)
    requires Inv(s) && s.queue != [] && attempt <= SERVER_SPAWN_MAX_RETRIES
    requires SpawnedSoFar(s.queue[0].phase) == attempt
    requires s.current.Some? ==> Gone(s.children[s.current.value])
    ensures Inv(SpawnServer(s, attempt))
  {
    var r := s.queue[0];
    if Superseded(s, r) {
    } else {
      NobodyElse(s);
      forall id ensures SpawnsOf(SpawnServer(s, attempt).spawns, id) == SpawnsOf(s.spawns, id) + if r.id == id then 1 else 0 {
        SpawnsOfAppend(s.spawns, Spawn(r.id, r.configGeneration), id);
      }
    }
  }

  lemma {:induction false} FinishKeepsInv(s: State)
    requires Inv(s) && s.queue != []
    ensures Inv(Finish(s))
  {
  }

  /** The front restart moves on without spawning, and nothing else about the queue changes. */
  lemma {:induction false} BecomeKeepsInv(s: State, phase: Phase)
    requires Inv(s) && s.queue != []
    requires SpawnedSoFar(phase) == SpawnedSoFar(s.queue[0].phase)
    requires FrontFits(Become(s, phase))
    ensures Inv(Become(s, phase))
  {
  }

  lemma {:induction false} DequeueKeepsInv(s: State)
    requires Inv(s) && s.queue != [] && s.queue[0].phase == Queued
    ensures Inv(Dequeue(s))
  {
    if Superseded(s, s.queue[0]) {
      FinishKeepsInv(s);
    } else if s.current.None? {
      SpawnKeepsInv(s, 0);
    } else {
      var proc := s.current.value;
      if s.children[proc].life.Running? {
        var asked := s.(children := s.children[proc := s.children[proc].(termSent := true)]);
        assert Inv(asked);
        BecomeKeepsInv(asked, Stopping(proc));
      } else {
        BecomeKeepsInv(s, Stopped(proc));
      }
    }
  }

  lemma {:induction false} ForceKillKeepsInv(s: State, proc: nat)
    requires Inv(s) && s.queue != [] && s.queue[0].phase == Stopping(proc)
    ensures Inv(ForceKill(s, proc))
  {
    if s.children[proc].life.Running? {
      var asked := s.(children := s.children[proc := s.children[proc].(killSent := true)]);
      assert Inv(asked);
      BecomeKeepsInv(asked, KillGrace(proc));
    } else {
      BecomeKeepsInv(s, KillGrace(proc));
    }
  }

  lemma {:induction false} DeathKeepsInv(s: State, child: nat, attempt: nat, bySignal: bool)
    requires Inv(s) && s.queue != [] && s.queue[0].phase == Died(child, attempt, bySignal)
    ensures Inv(AfterStartupDeath(s, child, attempt, bySignal))
  {
    FinishKeepsInv(s);
    if attempt + 1 <= SERVER_SPAWN_MAX_RETRIES {
      BecomeKeepsInv(s, RetryWait(attempt + 1));
    }
  }

  lemma {:induction false} AdvanceKeepsInv(s: State)
    requires Inv(s) && s.queue != []
    ensures Inv(DoAdvance(s))
  {
    match s.queue[0].phase
    case Queued => DequeueKeepsInv(s);
    case Stopping(proc) => ForceKillKeepsInv(s, proc);
    case KillGrace(proc) => BecomeKeepsInv(s, Stopped(proc));
    case Stopped(proc) =>
    case PortRelease => SpawnKeepsInv(s, 0);
    case Starting(child, attempt) => FinishKeepsInv(s);
    case Died(child, attempt, bySignal) => DeathKeepsInv(s, child, attempt, bySignal);
    case RetryWait(attempt) => SpawnKeepsInv(s, attempt);
  }

  lemma {:induction false} ExitKeepsInv(s: State, child: nat, bySignal: bool)
    requires Inv(s) && child < |s.children| && s.children[child].life.Running?
    ensures Inv(DoExit(s, child, bySignal))
  {
    var s' := s.(children := s.children[child := s.children[child].(life := Exited(bySignal))]);
    assert Inv(s');
    if s.queue != [] {
      match s.queue[0].phase
      case Stopping(proc) => if proc == child { BecomeKeepsInv(s', Stopped(proc)); }
      case KillGrace(proc) => if proc == child { BecomeKeepsInv(s', Stopped(proc)); }
      case Starting(c, attempt) => if c == child { BecomeKeepsInv(s', Died(c, attempt, bySignal)); }
      case _ =>
    }
  }

  lemma {:induction false} BuildKeepsInv(s: State, g: nat)
    requires Inv(s) && g <= s.generation
    ensures Inv(DoBuild(s, g))
  {
    assert SpawnsOf(s.spawns, s.latestRestartId + 1) == 0;
  }

  lemma {:induction false} NextKeepsInv(s: State, step: Step)
    requires Inv(s) && Enabled(s, step)
    ensures Inv(Next(s, step))
  {
    match step
    case Load =>
    case Build(g) => BuildKeepsInv(s, g);
    case Exit(child, bySignal) => ExitKeepsInv(s, child, bySignal);
    case Advance => AdvanceKeepsInv(s);
  }

  lemma {:induction false} RunKeepsInv(from: State, steps: seq<Step>, to: State)
    requires Inv(from) && IsRun(from, steps, to)
    ensures Inv(to)
    decreases |steps|
  {
    if steps != [] {
      NextKeepsInv(from, steps[0]);
      RunKeepsInv(Next(from, steps[0]), steps[1..], to);
    }
  }

  lemma {:induction false} ReachableInv(s: State)
    requires Reachable(s)
    ensures Inv(s)
  {
    var steps :| IsRun(Boot, steps, s);
    RunKeepsInv(Boot, steps, s);
  }
}
