/** The process-global restart handle, updated in place the way the callbacks and continuations
    of platform/backend/tsdown.config.ts update it. Every method is proved to take exactly the
    step that the state machine in module DevServer takes. */
module DevServerHandle {
  import opened Wrappers
  import opened DevServer
  import opened DevServerLaws

  class Handle {
    var current: Option<nat>
    var restartQueue: seq<Restart>
    var latestRestartId: nat
    var generation: nat
    /** The children ever spawned, by the order they were spawned in. */
    var children: seq<Child>
    ghost var spawns: seq<Spawn>

    ghost function View(): State
      reads this
    {
      State(current, restartQueue, latestRestartId, generation, children, spawns)
    }

    constructor ()
      ensures View() == Boot && Inv(View())
    {
      current, restartQueue, latestRestartId, generation, children, spawns := None, [], 0, 0, [], [];
    }

    /** Evaluating the config module. */
    method LoadModule() returns (configGeneration: nat)
      requires Inv(View())
      modifies this
      ensures Inv(View()) && View() == Next(old(View()), Load)
      ensures configGeneration == generation
    {
      NextKeepsInv(View(), Load);
      generation := generation + 1;
      configGeneration := generation;
    }

    /** onSuccessHandler of the module that was loaded as configGeneration. */
    method OnSuccess(configGeneration: nat)
      requires Inv(View()) && Enabled(View(), Build(configGeneration))
      modifies this
      ensures Inv(View()) && View() == Next(old(View()), Build(configGeneration))
    {
      NextKeepsInv(View(), Build(configGeneration));
      latestRestartId := latestRestartId + 1;
      var restartId := latestRestartId;
      restartQueue := restartQueue + [Restart(restartId, configGeneration, Queued)];
    }

    predicate IsSuperseded(r: Restart)
      reads this
    {
      r.id != latestRestartId || r.configGeneration != generation
    }

    method Await(phase: Phase)
      requires restartQueue != []
      modifies this`restartQueue
      ensures View() == Become(old(View()), phase)
    {
      restartQueue := restartQueue[0 := restartQueue[0].(phase := phase)];
    }

    method Return()
      requires restartQueue != []
      modifies this`restartQueue
      ensures View() == Finish(old(View()))
    {
      restartQueue := restartQueue[1..];
    }

    /** stopServer up to its first await. */
    method StopServer(proc: nat)
      requires restartQueue != [] && proc < |children|
      modifies this`restartQueue, this`children
      ensures old(children[proc]).life.Running? ==>
                View() == Become(old(View()), Stopping(proc)).(
                            children := old(children)[proc := old(children)[proc].(termSent := true)])
      ensures !old(children[proc]).life.Running? ==> View() == Become(old(View()), Stopped(proc))
    {
      if !children[proc].life.Running? {
        Await(Stopped(proc));
        return;
      }
      Await(Stopping(proc));
      children := children[proc := children[proc].(termSent := true)];
    }

    /** The force-kill timer. */
    method ForceKillTimer(proc: nat)
      requires restartQueue != [] && proc < |children|
      modifies this`restartQueue, this`children
      ensures View() == ForceKill(old(View()), proc)
    {
      if children[proc].life.Running? {
        children := children[proc := children[proc].(killSent := true)];
      }
      Await(KillGrace(proc));
    }

    /** spawnWithRetry up to the startup race. */
    method SpawnWithRetry(attempt: nat)
      requires restartQueue != []
      modifies this`restartQueue, this`children, this`current, this`spawns
      ensures View() == SpawnServer(old(View()), attempt)
    {
      if IsSuperseded(restartQueue[0]) {
        Return();
        return;
      }
      var child := |children|;
      children := children + [Child(Running, false, false)];
      spawns := spawns + [Spawn(restartQueue[0].id, restartQueue[0].configGeneration)];
      current := Some(child);
      Await(Starting(child, attempt));
    }

    /** What spawnWithRetry does about a child that exited inside the startup window. */
    method StartupFailed(child: nat, attempt: nat, bySignal: bool)
      requires restartQueue != []
      modifies this`restartQueue, this`current
      ensures View() == AfterStartupDeath(old(View()), child, attempt, bySignal)
    {
      if bySignal || IsSuperseded(restartQueue[0]) {
        if current == Some(child) {
          current := None;
        }
        Return();
        return;
      }
      var next := attempt + 1;
      if next > SERVER_SPAWN_MAX_RETRIES {
        if current == Some(child) {
          current := None;
        }
        Return();
        return;
      }
      Await(RetryWait(next));
    }

    /** The restart body from its start. */
    method BeginRestart()
      requires restartQueue != []
      requires current.Some? ==> current.value < |children|
      modifies this`restartQueue, this`children, this`current, this`spawns
      ensures View() == Dequeue(old(View()))
    {
      if IsSuperseded(restartQueue[0]) {
        Return();
        return;
      }
      if current.Some? {
        StopServer(current.value);
        return;
      }
      SpawnWithRetry(0);
    }

    /** The front restart's next continuation or timer. */
    method AdvanceFront()
      requires Inv(View()) && restartQueue != []
      modifies this
      ensures Inv(View()) && View() == Next(old(View()), Advance)
    {
      NextKeepsInv(View(), Advance);
      match restartQueue[0].phase {
        case Queued => BeginRestart();
        case Stopping(proc) => ForceKillTimer(proc);
        case KillGrace(proc) => Await(Stopped(proc));
        case Stopped(proc) =>
          current := None;
          Await(PortRelease);
        case PortRelease => SpawnWithRetry(0);
        case Starting(child, attempt) => Return();
        case Died(child, attempt, bySignal) => StartupFailed(child, attempt, bySignal);
        case RetryWait(attempt) => SpawnWithRetry(attempt);
      }
    }

    /** A child exits, and the listener armed on it runs. */
    method ChildExits(child: nat, bySignal: bool)
      requires Inv(View()) && Enabled(View(), Exit(child, bySignal))
      modifies this
      ensures Inv(View()) && View() == Next(old(View()), Exit(child, bySignal))
    {
      NextKeepsInv(View(), Exit(child, bySignal));
      children := children[child := children[child].(life := Exited(bySignal))];
      if restartQueue != [] {
        match restartQueue[0].phase {
          case Stopping(proc) => if proc == child { Await(Stopped(proc)); }
          case KillGrace(proc) => if proc == child { Await(Stopped(proc)); }
          case Starting(c, attempt) => if c == child { Await(Died(c, attempt, bySignal)); }
          case _ =>
        }
      }
    }

    /** Drives the handle through whatever happens, in the order given; what cannot happen is passed
        over. However it went, no server is orphaned, all but the last one spawned are gone, and no
        restart has spawned more servers than its retries allow. */
    method Drive(happenings: seq<Step>) returns (ghost taken: seq<Step>)
      requires View() == Boot
      modifies this
      ensures IsRun(Boot, taken, View()) && Inv(View())
      ensures forall c :: 0 <= c < |children| && !Gone(children[c]) ==> current == Some(c) && c == |children| - 1
      ensures |spawns| == |children| && forall id :: SpawnsOf(spawns, id) <= SERVER_SPAWN_MAX_RETRIES + 1
    {
      taken := [];
      for i := 0 to |happenings|
        invariant IsRun(Boot, taken, View()) && Inv(View())
      {
        ghost var was := View();
        match happenings[i] {
          case Load =>
            var _ := LoadModule();
          case Build(g) =>
            if !(1 <= g <= generation) { continue; }
            OnSuccess(g);
          case Exit(child, bySignal) =>
            if child >= |children| || !children[child].life.Running? { continue; }
            ChildExits(child, bySignal);
          case Advance =>
            if restartQueue == [] { continue; }
            AdvanceFront();
        }
        RunThenStep(Boot, taken, was, happenings[i]);
        taken := taken + [happenings[i]];
      }
      RunKeepsOnlyLast(Boot, taken, View());
    }
  }

  lemma {:induction false} RunThenStep(from: State, steps: seq<Step>, at: State, step: Step)
    requires IsRun(from, steps, at) && Enabled(at, step)
    ensures IsRun(from, steps + [step], Next(at, step))
  {
    assert IsRun(at, [step], Next(at, step)) by {
      assert [step][1..] == [];
    }
    RunsCompose(from, steps, at, [step], Next(at, step));
  }
}
