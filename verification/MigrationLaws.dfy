/** What applying a plan promises over whole runs, and over running it again
    (migration-kit/scripts/apply.py:555-692, 768-826). */
module MigrationLaws {
  import opened Wrappers
  import opened Surrogates
  import opened PyText
  import opened PyJson
  import opened Frontmatter
  import opened Migration
  import opened Planning

  /** A skill is filed under the name that is searched for. */
  ghost predicate ReadsBack(t: Task) {
    t.built.Some? && t.built.value.SkillCreate? ==> Named(t.built.value.content, t.name)
  }

  ghost predicate Sound(tasks: seq<Task>) {
    forall t :: t in tasks ==> WellBuilt(t) && ReadsBack(t)
  }

  function Clean(n: nat): seq<Trouble> {
    seq(n, i => NoTrouble)
  }

  // ----- Queries -----

  predicate Identity(q: Query) {
    !q.CatalogCalled?
  }

  /** Two identities that share an entity share all of them. */
  lemma {:induction false} SameIdentity(q: Query, other: Query, shared: Row, r: Row)
    requires Identity(q) && Identity(other)
    requires Matches(q, shared) && Matches(other, shared) && Matches(q, r)
    ensures Matches(other, r)
  {
  }

  lemma {:induction false} FirstMatchAppend(q: Query, rows: seq<Row>, more: seq<Row>)
    ensures FirstMatch(q, rows + more)
         == if FirstMatch(q, rows).Some? then FirstMatch(q, rows) else FirstMatch(q, more)
    decreases |rows|
  {
    if rows == [] {
      assert rows + more == more;
    } else {
      assert (rows + more)[1..] == rows[1..] + more;
      FirstMatchAppend(q, rows[1..], more);
    }
  }

  function Backwards(rows: seq<Row>): (out: seq<Row>)
    ensures forall r :: r in out <==> r in rows
    decreases |rows|
  {
    if rows == [] then [] else [rows[|rows| - 1]] + Backwards(rows[..|rows| - 1])
  }

  /** Listing oldest first and listing newest first are both stable. */
  lemma {:induction false} ListingsAreStable()
    ensures Stable(rows => rows)
    ensures Stable(Backwards)
  {
    var oldest: Listing := rows => rows;
    forall rows: seq<Row>, r: Row, q: Query | !Matches(q, r)
      ensures FirstMatch(q, oldest(rows + [r])) == FirstMatch(q, oldest(rows))
      ensures FirstMatch(q, Backwards(rows + [r])) == FirstMatch(q, Backwards(rows))
    {
      FirstMatchAppend(q, rows, [r]);
      assert (rows + [r])[..|rows|] == rows;
      assert Backwards(rows + [r]) == [r] + Backwards(rows);
      FirstMatchAppend(q, [r], Backwards(rows));
    }
  }

  // ----- One operation -----

  /** An operation leaves the instance alone or stores one row that nothing there matched. */
  lemma {:induction false} ExecuteGrows(order: Listing, inst: Instance, name: Text, b: Built, trouble: Trouble)
    ensures var e := Execute(order, inst, name, b, trouble);
            e.inst == inst
            || var l := Resolve(order, inst, name, b);
               (l.Search? && FirstMatch(l.query, order(inst.rows)).None? && e.inst == Stored(inst, l.row))
  {
  }

  ghost predicate AllReadBack(tasks: seq<Task>) {
    forall t :: t in tasks ==> ReadsBack(t)
  }

  /** What was found under an identity is what will be found. */
  lemma {:induction false} ExecuteKeepsFound(
      order: Listing, inst: Instance, name: Text, b: Built, trouble: Trouble, q: Query)
    requires Stable(order) && Identity(q) && FirstMatch(q, order(inst.rows)).Some?
    requires b.SkillCreate? && q.SkillNamed? ==> Named(b.content, name)
    ensures FirstMatch(q, order(Execute(order, inst, name, b, trouble).inst.rows)) == FirstMatch(q, order(inst.rows))
  {
    var e := Execute(order, inst, name, b, trouble);
    ExecuteGrows(order, inst, name, b, trouble);
    if e.inst != inst {
      var l := Resolve(order, inst, name, b);
      if Matches(q, l.row) {
        SameIdentity(q, l.query, l.row, FirstMatch(q, order(inst.rows)).value);
        assert false;
      }
    }
  }

  lemma {:induction false} AdvanceKeepsFound(order: Listing, p: Progress, t: Task, trouble: Trouble, q: Query)
    requires Stable(order) && Identity(q) && FirstMatch(q, order(p.inst.rows)).Some?
    requires q.SkillNamed? ==> ReadsBack(t)
    ensures FirstMatch(q, order(Advance(order, p, t, trouble).inst.rows)) == FirstMatch(q, order(p.inst.rows))
  {
    if t.built.Some? {
      ExecuteKeepsFound(order, p.inst, t.name, Attached(t.built.value, p.primary), trouble, q);
    }
  }

  lemma {:induction false} RunKeepsFound(
      order: Listing, p: Progress, tasks: seq<Task>, troubles: seq<Trouble>, q: Query)
    requires |troubles| == |tasks| && Stable(order) && (q.SkillNamed? ==> AllReadBack(tasks))
    requires Identity(q) && FirstMatch(q, order(p.inst.rows)).Some?
    ensures FirstMatch(q, order(Run(order, p, tasks, troubles).inst.rows)) == FirstMatch(q, order(p.inst.rows))
    decreases |tasks|
  {
    if tasks != [] {
      assert tasks[0] in tasks && forall t :: t in tasks[1..] ==> t in tasks;
      AdvanceKeepsFound(order, p, tasks[0], troubles[0], q);
      RunKeepsFound(order, Advance(order, p, tasks[0], troubles[0]), tasks[1..], troubles[1..], q);
    }
  }

  /** What is found among some rows is found among more. */
  lemma {:induction false} MatchStays(order: Listing, rows: seq<Row>, more: seq<Row>, q: Query)
    requires Stable(order) && rows <= more && FirstMatch(q, order(rows)).Some?
    ensures FirstMatch(q, order(more)).Some?
  {
    var r := FirstMatch(q, order(rows)).value;
    assert r in rows && r in more && r in order(more);
  }

  ghost predicate NoCatalogs(tasks: seq<Task>) {
    forall i :: 0 <= i < |tasks| && tasks[i].built.Some? ==> !tasks[i].built.value.CatalogCreate?
  }

  /** Without catalog operations, an install's catalog lookup keeps its answer. */
  lemma {:induction false} RunKeepsCatalog(
      order: Listing, p: Progress, tasks: seq<Task>, troubles: seq<Trouble>, name: Text)
    requires |troubles| == |tasks| && Stable(order) && NoCatalogs(tasks)
    ensures FirstMatch(CatalogCalled(name), order(Run(order, p, tasks, troubles).inst.rows))
         == FirstMatch(CatalogCalled(name), order(p.inst.rows))
    decreases |tasks|
  {
    if tasks != [] {
      var t, next := tasks[0], Advance(order, p, tasks[0], troubles[0]);
      RunKeepsCatalog(order, next, tasks[1..], troubles[1..], name);
      if t.built.Some? {
        var b := Attached(t.built.value, p.primary);
        ExecuteGrows(order, p.inst, t.name, b, troubles[0]);
        var l := Resolve(order, p.inst, t.name, b);
        assert l.Search? ==> !Matches(CatalogCalled(name), l.row);
      }
    }
  }

  lemma {:induction false} RunKeepsTools(order: Listing, p: Progress, tasks: seq<Task>, troubles: seq<Trouble>)
    requires |troubles| == |tasks|
    ensures Run(order, p, tasks, troubles).inst.tools == p.inst.tools
    ensures p.inst.rows <= Run(order, p, tasks, troubles).inst.rows
    decreases |tasks|
  {
    if tasks != [] {
      RunKeepsTools(order, Advance(order, p, tasks[0], troubles[0]), tasks[1..], troubles[1..]);
    }
  }

  // ----- Running again -----

  /** An operation that had no trouble finds its entity afterwards. */
  lemma {:induction false} ExecutedIsFound(order: Listing, inst: Instance, name: Text, b: Built)
    requires Stable(order) && (b.SkillCreate? ==> Named(b.content, name))
    ensures var l, e := Resolve(order, inst, name, b), Execute(order, inst, name, b, NoTrouble);
            l.Search? ==>
              && Identity(l.query)
              && FirstMatch(l.query, order(e.inst.rows)).Some?
              && (!b.Policy? && !b.Hook? ==> e.id == Some(FirstMatch(l.query, order(e.inst.rows)).value.id))
              && (e.outcome == Created || e.outcome == Skipped)
  {
    var l := Resolve(order, inst, name, b);
    if l.Search? && FirstMatch(l.query, order(inst.rows)).None? {
      var rows := inst.rows + [l.row];
      assert l.row in rows && l.row in order(rows);
      var found := FirstMatch(l.query, order(rows)).value;
      assert found in rows;
      assert found !in inst.rows;
    }
  }

  /** Where the later instance has what the operation looks for, and the same agent if it is one, the
      operation changes nothing. */
  lemma {:induction false} ExecuteAgain(order: Listing, before: Instance, after: Instance, name: Text, b: Built)
    requires Stable(order) && after.tools == before.tools
    requires b.Install? ==>
               FirstMatch(CatalogCalled(name), order(after.rows)) == FirstMatch(CatalogCalled(name), order(before.rows))
    requires var l, e := Resolve(order, before, name, b), Execute(order, before, name, b, NoTrouble);
             && (l.Search? ==> FirstMatch(l.query, order(after.rows)).Some?)
             && (b.AgentCreate? ==> FirstMatch(l.query, order(after.rows)) == FirstMatch(l.query, order(e.inst.rows)))
    ensures var e, e' := Execute(order, before, name, b, NoTrouble), Execute(order, after, name, b, NoTrouble);
            && e'.inst == after
            && e'.outcome != Created
            && (e'.outcome == Skipped <==> e.outcome == Created || e.outcome == Skipped)
            && (b.AgentCreate? ==> e'.id == e.id)
  {
    if b.AgentCreate? {
      ExecutedIsFound(order, before, name, b);
    }
  }

  ghost predicate NoneCreated(results: seq<Result>) {
    forall i :: 0 <= i < |results| ==> results[i].outcome != Created
  }

  /** The skill, if the task is one, is found by the name it is searched by. */
  ghost predicate SkillFound(order: Listing, rows: seq<Row>, t: Task) {
    t.built.Some? && t.built.value.SkillCreate? ==>
      FirstMatch(SkillNamed(t.name, t.built.value.scope), order(rows)).Some?
  }

  ghost predicate AllSkillsFound(order: Listing, rows: seq<Row>, tasks: seq<Task>) {
    forall t :: t in tasks ==> SkillFound(order, rows, t)
  }

  lemma {:induction false} InstallsComeLate(tasks: seq<Task>)
    requires AllWellBuilt(tasks) && InOrder(tasks)
    requires tasks != [] && tasks[0].built.Some? && tasks[0].built.value.Install?
    ensures NoCatalogs(tasks)
  {
    forall i | 0 <= i < |tasks| && tasks[i].built.Some? ensures !tasks[i].built.value.CatalogCreate? {
      assert tasks[i] in tasks && tasks[0] in tasks;
    }
  }

  lemma {:induction false} CatalogAtTheEnd(order: Listing, p: Progress, t: Task, rest: seq<Task>, end: Instance)
    requires Stable(order) && NoCatalogs([t] + rest)
    requires end == Run(order, Advance(order, p, t, NoTrouble), rest, Clean(|rest|)).inst
    ensures FirstMatch(CatalogCalled(t.name), order(end.rows)) == FirstMatch(CatalogCalled(t.name), order(p.inst.rows))
  {
    var tasks, troubles := [t] + rest, [NoTrouble] + Clean(|rest|);
    assert tasks[1..] == rest && troubles[1..] == Clean(|rest|);
    RunKeepsCatalog(order, p, tasks, troubles, t.name);
  }

  /** What an operation searched for is found at the end of the run, and an agent is the same one. */
  lemma {:induction false} SearchedAtTheEnd(
      order: Listing, p: Progress, t: Task, rest: seq<Task>, b: Built, end: Instance)
    requires Stable(order) && t.built.Some? && b == Attached(t.built.value, p.primary)
    requires end == Run(order, Advance(order, p, t, NoTrouble), rest, Clean(|rest|)).inst
    requires SkillFound(order, end.rows, t)
    ensures var l, e := Resolve(order, p.inst, t.name, b), Execute(order, p.inst, t.name, b, NoTrouble);
            && (l.Search? ==> FirstMatch(l.query, order(end.rows)).Some?)
            && (b.AgentCreate? ==> FirstMatch(l.query, order(end.rows)) == FirstMatch(l.query, order(e.inst.rows)))
  {
    var next := Advance(order, p, t, NoTrouble);
    var l := Resolve(order, p.inst, t.name, b);
    if l.Search? && !b.SkillCreate? {
      ExecutedIsFound(order, p.inst, t.name, b);
      RunKeepsTools(order, next, rest, Clean(|rest|));
      MatchStays(order, next.inst.rows, end.rows, l.query);
      if b.AgentCreate? {
        RunKeepsFound(order, next, rest, Clean(|rest|), l.query);
      }
    }
  }

  /** The later operation created nothing and landed like the earlier one, on the same agent. */
  predicate Repeats(e: Executed, e': Executed, t: Task) {
    && e'.outcome != Created
    && (e'.outcome == Skipped <==> e.outcome == Created || e.outcome == Skipped)
    && (t.target == Some(AgentKind) ==> e'.id == e.id)
  }

  lemma {:induction false} InstallKeepsCatalog(order: Listing, p: Progress, t: Task, rest: seq<Task>, end: Instance)
    requires Stable(order) && AllWellBuilt([t] + rest) && InOrder([t] + rest)
    requires end == Run(order, Advance(order, p, t, NoTrouble), rest, Clean(|rest|)).inst
    ensures end.tools == p.inst.tools
    ensures t.built.Some? && t.built.value.Install? ==>
              FirstMatch(CatalogCalled(t.name), order(end.rows)) == FirstMatch(CatalogCalled(t.name), order(p.inst.rows))
  {
    RunKeepsTools(order, Advance(order, p, t, NoTrouble), rest, Clean(|rest|));
    if t.built.Some? && t.built.value.Install? {
      assert ([t] + rest)[0] == t;
      InstallsComeLate([t] + rest);
      CatalogAtTheEnd(order, p, t, rest, end);
    }
  }

  lemma {:induction false} TurnAgain(
      order: Listing, p: Progress, t: Task, rest: seq<Task>, b: Built, end: Instance, after: Instance,
      e: Executed, e': Executed)
    requires Stable(order) && AllWellBuilt([t] + rest) && InOrder([t] + rest) && WellBuilt(t)
    requires t.built.Some? && b == Attached(t.built.value, p.primary)
    requires end == Run(order, Advance(order, p, t, NoTrouble), rest, Clean(|rest|)).inst
    requires after.rows == end.rows && after.tools == end.tools && SkillFound(order, end.rows, t)
    requires e == Execute(order, p.inst, t.name, b, NoTrouble)
    requires e' == Execute(order, after, t.name, b, NoTrouble)
    ensures e'.inst == after && Repeats(e, e', t)
  {
    InstallKeepsCatalog(order, p, t, rest, end);
    SearchedAtTheEnd(order, p, t, rest, b, end);
    ExecuteAgain(order, p.inst, after, t.name, b);
  }

  lemma {:induction false} AdvanceRecords(order: Listing, p: Progress, t: Task, e: Executed)
    requires t.built.Some? && e == Execute(order, p.inst, t.name, Attached(t.built.value, p.primary), NoTrouble)
    ensures Advance(order, p, t, NoTrouble) == Recorded(p, t, e)
  {
  }

  /** Two runs that stand alike but for what they created. */
  ghost predicate Level(p: Progress, q: Progress) {
    q.primary == p.primary && q.agents == p.agents && q.skillOrAgent == p.skillOrAgent && NoneCreated(q.results)
  }

  /** One turn of the second run next to the same turn of the first. */
  lemma {:induction false} BothRecord(
      order: Listing, p: Progress, q: Progress, t: Task, e: Executed, e': Executed, p': Progress, q': Progress)
    requires t.built.Some? && e'.inst == q.inst && Repeats(e, e', t) && Level(p, q)
    requires e == Execute(order, p.inst, t.name, Attached(t.built.value, p.primary), NoTrouble)
    requires e' == Execute(order, q.inst, t.name, Attached(t.built.value, q.primary), NoTrouble)
    requires p' == Advance(order, p, t, NoTrouble) && q' == Advance(order, q, t, NoTrouble)
    ensures q'.inst == q.inst && Level(p', q')
  {
    AdvanceRecords(order, p, t, e);
    AdvanceRecords(order, q, t, e');
  }

  predicate SameEnd(end: Instance, after: Instance) {
    after.rows == end.rows && after.tools == end.tools
  }

  lemma {:induction false} OperationAgain(
      order: Listing, p: Progress, q: Progress, t: Task, rest: seq<Task>, p': Progress, q': Progress)
    requires Stable(order) && AllWellBuilt([t] + rest) && InOrder([t] + rest) && WellBuilt(t) && t.built.Some?
    requires p' == Advance(order, p, t, NoTrouble) && q' == Advance(order, q, t, NoTrouble)
    requires SameEnd(Run(order, p', rest, Clean(|rest|)).inst, q.inst) && SkillFound(order, q.inst.rows, t)
    requires Level(p, q)
    ensures q'.inst == q.inst && Level(p', q')
  {
    var b := Attached(t.built.value, p.primary);
    var e, e' := Execute(order, p.inst, t.name, b, NoTrouble), Execute(order, q.inst, t.name, b, NoTrouble);
    TurnAgain(order, p, t, rest, b, Run(order, p', rest, Clean(|rest|)).inst, q.inst, e, e');
    BothRecord(order, p, q, t, e, e', p', q');
  }

  lemma {:induction false} BothAdvance(
      order: Listing, p: Progress, q: Progress, t: Task, rest: seq<Task>, p': Progress, q': Progress)
    requires Stable(order) && AllWellBuilt([t] + rest) && InOrder([t] + rest) && WellBuilt(t)
    requires p' == Advance(order, p, t, NoTrouble) && q' == Advance(order, q, t, NoTrouble)
    requires SameEnd(Run(order, p', rest, Clean(|rest|)).inst, q.inst) && SkillFound(order, q.inst.rows, t)
    requires Level(p, q)
    ensures q'.inst == q.inst && Level(p', q')
  {
    if t.built.Some? {
      OperationAgain(order, p, q, t, rest, p', q');
    }
  }

  lemma {:induction false} WithoutFirst(order: Listing, rows: seq<Row>, t: Task, rest: seq<Task>)
    requires AllWellBuilt([t] + rest) && InOrder([t] + rest) && AllSkillsFound(order, rows, [t] + rest)
    ensures AllWellBuilt(rest) && InOrder(rest) && AllSkillsFound(order, rows, rest)
    ensures WellBuilt(t) && SkillFound(order, rows, t)
  {
    var tasks := [t] + rest;
    assert t in tasks && forall u :: u in rest ==> u in tasks;
    assert tasks[1..] == rest;
  }

  lemma {:induction false} CleanRun(order: Listing, p: Progress, t: Task, rest: seq<Task>)
    ensures Run(order, p, [t] + rest, Clean(1 + |rest|))
         == Run(order, Advance(order, p, t, NoTrouble), rest, Clean(|rest|))
  {
    assert ([t] + rest)[1..] == rest && Clean(1 + |rest|)[1..] == Clean(|rest|);
  }

  /** Where every skill is found by its name, a run over its own outcome repeats it and creates nothing. */
  lemma {:induction false} RunAgain(order: Listing, p: Progress, q: Progress, tasks: seq<Task>)
    requires Stable(order) && AllWellBuilt(tasks) && InOrder(tasks) && AllSkillsFound(order, q.inst.rows, tasks)
    requires SameEnd(Run(order, p, tasks, Clean(|tasks|)).inst, q.inst) && Level(p, q)
    ensures var end' := Run(order, q, tasks, Clean(|tasks|));
            end'.inst == q.inst && Level(Run(order, p, tasks, Clean(|tasks|)), end')
    decreases |tasks|
  {
    if tasks != [] {
      var t, rest := tasks[0], tasks[1..];
      assert tasks == [t] + rest;
      CleanRun(order, p, t, rest);
      CleanRun(order, q, t, rest);
      WithoutFirst(order, q.inst.rows, t, rest);
      var p', q' := Advance(order, p, t, NoTrouble), Advance(order, q, t, NoTrouble);
      BothAdvance(order, p, q, t, rest, p', q');
      RunAgain(order, p', q', rest);
    }
  }

  lemma {:induction false} RunKeepsResults(order: Listing, p: Progress, tasks: seq<Task>, troubles: seq<Trouble>)
    requires |troubles| == |tasks|
    ensures p.results <= Run(order, p, tasks, troubles).results
    decreases |tasks|
  {
    if tasks != [] {
      RunKeepsResults(order, Advance(order, p, tasks[0], troubles[0]), tasks[1..], troubles[1..]);
    }
  }

  /** A turn without trouble changes the instance only by creating something. */
  lemma {:induction false} ChangeIsCreation(order: Listing, q: Progress, t: Task)
    ensures var next := Advance(order, q, t, NoTrouble);
            && |next.results| == |q.results| + 1
            && (next.inst != q.inst ==> next.results[|q.results|].outcome == Created)
            && (!SkillFound(order, q.inst.rows, t) ==> next.results[|q.results|].outcome == Created)
  {
  }

  /** A skill that is not found by its name makes a run create something. */
  lemma {:induction false} UnfoundSkillCreates(order: Listing, q: Progress, tasks: seq<Task>)
    requires !AllSkillsFound(order, q.inst.rows, tasks)
    ensures !NoneCreated(Run(order, q, tasks, Clean(|tasks|)).results)
    decreases |tasks|
  {
    var t, rest := tasks[0], tasks[1..];
    var next, n := Advance(order, q, t, NoTrouble), |q.results|;
    assert Clean(|tasks|)[1..] == Clean(|rest|);
    ChangeIsCreation(order, q, t);
    RunKeepsResults(order, next, rest, Clean(|rest|));
    if next.inst == q.inst && SkillFound(order, q.inst.rows, t) {
      var u :| u in tasks && !SkillFound(order, q.inst.rows, u);
      assert u in rest;
      UnfoundSkillCreates(order, next, rest);
    } else {
      var all := Run(order, next, rest, Clean(|rest|)).results;
      assert all[n] == next.results[n];
    }
  }

  lemma {:induction false} PlanIsInOrder(tasks: seq<Task>)
    requires AllWellBuilt(tasks)
    ensures AllWellBuilt(Planned(tasks)) && InOrder(Planned(tasks))
  {
    PlannedProperties(tasks);
  }

  /** A second run of a plan is a no-op, in that it creates nothing, resolves the same primary agent
      and leaves the instance exactly as it was, exactly when the instance that the first run left
      files every skill of the plan under the name it is searched by. */
  lemma {:induction false} RerunExactlyWhen(order: Listing, inst: Instance, tasks: seq<Task>)
    requires Stable(order) && AllWellBuilt(tasks) && !(exists t :: t in Planned(tasks) && InvalidBuild(t))
    ensures var none := Clean(|Planned(tasks)|);
            var once := Applied(order, inst, tasks, none);
            var run, rerun := Run(order, Start(inst), Planned(tasks), none), Run(order, Start(once), Planned(tasks), none);
            AllSkillsFound(order, once.rows, Planned(tasks))
            <==> Applied(order, once, tasks, none) == once && NoneCreated(rerun.results)
                 && rerun.primary == run.primary && rerun.agents == run.agents
  {
    var plan := Planned(tasks);
    var run := Run(order, Start(inst), plan, Clean(|plan|));
    var once := Settled(run);
    PlanIsInOrder(tasks);
    if AllSkillsFound(order, once.rows, plan) {
      RunAgain(order, Start(inst), Start(once), plan);
    } else {
      UnfoundSkillCreates(order, Start(once), plan);
    }
  }

  /** A clean run leaves every skill that reads back where it is searched. */
  lemma {:induction false} RunFindsSkills(order: Listing, p: Progress, tasks: seq<Task>, t: Task)
    requires Stable(order) && t in tasks && ReadsBack(t)
    ensures SkillFound(order, Run(order, p, tasks, Clean(|tasks|)).inst.rows, t)
    decreases |tasks|
  {
    var next, rest := Advance(order, p, tasks[0], NoTrouble), tasks[1..];
    assert Clean(|tasks|)[1..] == Clean(|rest|);
    if t == tasks[0] {
      if t.built.Some? && t.built.value.SkillCreate? {
        ExecutedIsFound(order, p.inst, t.name, t.built.value);
        RunKeepsTools(order, next, rest, Clean(|rest|));
        MatchStays(order, next.inst.rows, Run(order, next, rest, Clean(|rest|)).inst.rows,
                   SkillNamed(t.name, t.built.value.scope));
      }
    } else {
      RunFindsSkills(order, next, rest, t);
    }
  }

  lemma {:induction false} PlanIsSound(tasks: seq<Task>)
    requires Sound(tasks)
    ensures Sound(Planned(tasks)) && InOrder(Planned(tasks))
  {
    FlaggedFromTasks(tasks, {});
    SortProperties(Flagged(tasks, {}), 0);
  }

  /** So it is whenever every skill's content carries the name the skill is searched by. */
  lemma {:induction false} ApplyTwice(order: Listing, inst: Instance, tasks: seq<Task>)
    requires Stable(order) && Sound(tasks)
    ensures var none := Clean(|Planned(tasks)|);
            var once := Applied(order, inst, tasks, none);
            var run, rerun := Run(order, Start(inst), Planned(tasks), none), Run(order, Start(once), Planned(tasks), none);
            && Applied(order, once, tasks, none) == once
            && (!(exists t :: t in Planned(tasks) && InvalidBuild(t)) ==>
                  NoneCreated(rerun.results) && rerun.primary == run.primary && rerun.agents == run.agents)
  {
    var plan := Planned(tasks);
    if !(exists t :: t in plan && InvalidBuild(t)) {
      var run := Run(order, Start(inst), plan, Clean(|plan|));
      PlanIsSound(tasks);
      forall t | t in plan ensures SkillFound(order, run.inst.rows, t) {
        RunFindsSkills(order, Start(inst), plan, t);
      }
      RerunExactlyWhen(order, inst, tasks);
    }
  }

  // ----- Retrying after trouble -----

  /** No two entities share an identity. */
  ghost predicate NoTwins(rows: seq<Row>) {
    forall i, j, q :: 0 <= i < j < |rows| && Identity(q) && Matches(q, rows[i]) ==> !Matches(q, rows[j])
  }

  lemma {:induction false} StoredIsNoTwin(order: Listing, rows: seq<Row>, q: Query, row: Row)
    requires Stable(order) && NoTwins(rows)
    requires Identity(q) && Matches(q, row) && FirstMatch(q, order(rows)).None?
    ensures NoTwins(rows + [row])
  {
    forall i, q' | 0 <= i < |rows| && Identity(q') && Matches(q', rows[i]) ensures !Matches(q', row) {
      assert rows[i] in rows && rows[i] in order(rows);
      assert !Matches(q, rows[i]);
      if Matches(q', row) {
        SameIdentity(q', q, row, rows[i]);
      }
    }
  }

  lemma {:induction false} ExecuteMakesNoTwins(order: Listing, inst: Instance, name: Text, b: Built, trouble: Trouble)
    requires Stable(order) && NoTwins(inst.rows) && (b.SkillCreate? ==> Named(b.content, name))
    ensures NoTwins(Execute(order, inst, name, b, trouble).inst.rows)
  {
    var l, e := Resolve(order, inst, name, b), Execute(order, inst, name, b, trouble);
    ExecuteGrows(order, inst, name, b, trouble);
    if e.inst != inst {
      StoredIsNoTwin(order, inst.rows, l.query, l.row);
    }
  }

  lemma {:induction false} RunMakesNoTwins(order: Listing, p: Progress, tasks: seq<Task>, troubles: seq<Trouble>)
    requires |troubles| == |tasks| && Stable(order) && Sound(tasks) && NoTwins(p.inst.rows)
    ensures NoTwins(Run(order, p, tasks, troubles).inst.rows)
    decreases |tasks|
  {
    if tasks != [] {
      var t := tasks[0];
      assert t in tasks;
      if t.built.Some? {
        ExecuteMakesNoTwins(order, p.inst, t.name, Attached(t.built.value, p.primary), troubles[0]);
      }
      RunMakesNoTwins(order, Advance(order, p, t, troubles[0]), tasks[1..], troubles[1..]);
    }
  }

  /** The instance after as many runs of a plan as there are lists of troubles. */
  function Retried(order: Listing, inst: Instance, tasks: seq<Task>, runs: seq<seq<Trouble>>): Instance
    requires forall i :: 0 <= i < |runs| ==> |runs[i]| == |Planned(tasks)|
    decreases |runs|
  {
    if runs == [] then inst else Retried(order, Applied(order, inst, tasks, runs[0]), tasks, runs[1..])
  }

  /** However often a plan is retried and whatever goes wrong each time, requests that fail and
      replies that are lost after the entity was stored, no two entities come to share an identity. */
  lemma {:induction false} RetriesMakeNoTwins(order: Listing, inst: Instance, tasks: seq<Task>, runs: seq<seq<Trouble>>)
    requires forall i :: 0 <= i < |runs| ==> |runs[i]| == |Planned(tasks)|
    requires Stable(order) && Sound(tasks) && NoTwins(inst.rows)
    ensures NoTwins(Retried(order, inst, tasks, runs).rows)
    ensures inst.rows <= Retried(order, inst, tasks, runs).rows
    decreases |runs|
  {
    if runs != [] {
      PlanIsSound(tasks);
      RunMakesNoTwins(order, Start(inst), Planned(tasks), runs[0]);
      RunKeepsTools(order, Start(inst), Planned(tasks), runs[0]);
      RetriesMakeNoTwins(order, Applied(order, inst, tasks, runs[0]), tasks, runs[1..]);
    }
  }

  /** A skill that was created is created again by the next run exactly when its content does not
      carry the name it is searched by. */
  lemma {:induction false} SkillTwiceExactlyWhen(order: Listing, inst: Instance, name: Text, b: Built)
    requires Stable(order) && b.SkillCreate? && name != []
    requires Execute(order, inst, name, b, NoTrouble).outcome == Created
    ensures var e := Execute(order, inst, name, b, NoTrouble);
            Execute(order, e.inst, name, b, NoTrouble).outcome == Created <==> !Named(b.content, name)
  {
    var l, e := Resolve(order, inst, name, b), Execute(order, inst, name, b, NoTrouble);
    assert Matches(l.query, l.row) <==> Named(b.content, name);
    if Named(b.content, name) {
      ExecutedIsFound(order, inst, name, b);
    } else {
      assert FirstMatch(l.query, order(inst.rows + [l.row])) == FirstMatch(l.query, order(inst.rows));
    }
  }

  // ----- The primary agent -----

  function LastClaudeMd(results: seq<Result>): Option<Id>
    decreases |results|
  {
    if results == [] then None
    else
      var r := results[|results| - 1];
      if AgentLanded(r) && r.source == CLAUDE_MD then r.id else LastClaudeMd(results[..|results| - 1])
  }

  function FirstAgent(results: seq<Result>): Option<Id>
    decreases |results|
  {
    if results == [] then None else if AgentLanded(results[0]) then results[0].id else FirstAgent(results[1..])
  }

  /** The last claude_md agent that landed, or else the first agent that did. */
  function PrimaryOf(results: seq<Result>): Option<Id> {
    if LastClaudeMd(results).Some? then LastClaudeMd(results) else FirstAgent(results)
  }

  lemma {:induction false} FirstAgentAppend(results: seq<Result>, r: Result)
    ensures FirstAgent(results + [r])
         == if FirstAgent(results).Some? then FirstAgent(results) else if AgentLanded(r) then r.id else None
    decreases |results|
  {
    if results == [] {
      assert results + [r] == [r];
    } else {
      assert (results + [r])[1..] == results[1..] + [r];
      FirstAgentAppend(results[1..], r);
    }
  }

  lemma {:induction false} LastIsAnAgent(results: seq<Result>)
    ensures LastClaudeMd(results).Some? ==> FirstAgent(results).Some?
    decreases |results|
  {
    if results != [] {
      var n := |results| - 1;
      LastIsAnAgent(results[..n]);
      FirstAgentAppend(results[..n], results[n]);
      assert results[..n] + [results[n]] == results;
    }
  }

  lemma {:induction false} PrimaryAppend(results: seq<Result>, r: Result)
    ensures PrimaryOf(results + [r]) == NextPrimary(PrimaryOf(results), r)
  {
    FirstAgentAppend(results, r);
    LastIsAnAgent(results);
    assert (results + [r])[..|results|] == results;
  }

  lemma {:induction false} RunPrimary(order: Listing, p: Progress, tasks: seq<Task>, troubles: seq<Trouble>)
    requires |troubles| == |tasks| && p.primary == PrimaryOf(p.results)
    ensures var q := Run(order, p, tasks, troubles); q.primary == PrimaryOf(q.results)
    decreases |tasks|
  {
    if tasks != [] {
      var t := tasks[0];
      match t.built {
        case None =>
          PrimaryAppend(p.results, NotRun(t));
        case Some(b) =>
          var e := Execute(order, p.inst, t.name, Attached(b, p.primary), troubles[0]);
          PrimaryAppend(p.results, Result(t.source, t.target, t.name, e.outcome, e.id));
      }
      RunPrimary(order, Advance(order, p, t, troubles[0]), tasks[1..], troubles[1..]);
    }
  }

  lemma {:induction false} RunWithoutAgents(order: Listing, p: Progress, tasks: seq<Task>, troubles: seq<Trouble>)
    requires |troubles| == |tasks| && forall t :: t in tasks ==> t.target != Some(AgentKind)
    ensures Run(order, p, tasks, troubles).primary == p.primary
    decreases |tasks|
  {
    if tasks != [] {
      assert tasks[0] in tasks;
      RunWithoutAgents(order, Advance(order, p, tasks[0], troubles[0]), tasks[1..], troubles[1..]);
    }
  }

  lemma {:induction false} RunAppend(
      order: Listing, p: Progress, tasks: seq<Task>, more: seq<Task>, troubles: seq<Trouble>, rest: seq<Trouble>)
    requires |troubles| == |tasks| && |rest| == |more|
    ensures Run(order, p, tasks + more, troubles + rest) == Run(order, Run(order, p, tasks, troubles), more, rest)
    decreases |tasks|
  {
    if tasks == [] {
      assert tasks + more == more && troubles + rest == rest;
    } else {
      assert (tasks + more)[1..] == tasks[1..] + more && (troubles + rest)[1..] == troubles[1..] + rest;
      RunAppend(order, Advance(order, p, tasks[0], troubles[0]), tasks[1..], more, troubles[1..], rest);
    }
  }

  lemma {:induction false} NoAgentsAfter(tasks: seq<Task>, k: nat)
    requires InOrder(tasks) && AllWellBuilt(tasks)
    requires k < |tasks| && tasks[k].built.Some? && (tasks[k].built.value.Install? || tasks[k].built.value.Hook?)
    ensures forall t :: t in tasks[k..] ==> t.target != Some(AgentKind)
  {
    assert tasks[k] in tasks && Rank(tasks[k]) >= 4;
    forall t | t in tasks[k..] ensures t.target != Some(AgentKind) {
      var i :| 0 <= i < |tasks[k..]| && t == tasks[k..][i];
      assert tasks[k + i] == t;
    }
  }

  /** Whatever goes wrong on the way, every install and every hook runs with the primary agent that
      the whole run ends with. */
  lemma {:induction false} PrimaryIsFinal(
      order: Listing, inst: Instance, tasks: seq<Task>, troubles: seq<Trouble>, k: nat)
    requires |troubles| == |tasks| && InOrder(tasks) && AllWellBuilt(tasks)
    requires k < |tasks| && tasks[k].built.Some? && (tasks[k].built.value.Install? || tasks[k].built.value.Hook?)
    ensures Run(order, Start(inst), tasks[..k], troubles[..k]).primary
         == PrimaryOf(Run(order, Start(inst), tasks, troubles).results)
  {
    var before, after, t1, t2 := tasks[..k], tasks[k..], troubles[..k], troubles[k..];
    assert before + after == tasks && t1 + t2 == troubles;
    NoAgentsAfter(tasks, k);
    RunAppend(order, Start(inst), before, after, t1, t2);
    RunPrimary(order, Start(inst), tasks, troubles);
    RunWithoutAgents(order, Run(order, Start(inst), before, t1), after, t2);
  }

  /** So an install or hook that names no agent goes to the primary agent of the whole run, and one
      that names its agents keeps them. */
  lemma {:induction false} AttachedToFinalPrimary(
      order: Listing, inst: Instance, tasks: seq<Task>, troubles: seq<Trouble>, k: nat)
    requires |troubles| == |tasks| && InOrder(tasks) && AllWellBuilt(tasks)
    requires k < |tasks| && tasks[k].built.Some? && (tasks[k].built.value.Install? || tasks[k].built.value.Hook?)
    ensures var primary := PrimaryOf(Run(order, Start(inst), tasks, troubles).results);
            var given := tasks[k].built.value;
            var b := Attached(given, Run(order, Start(inst), tasks[..k], troubles[..k]).primary);
            && (b.Install? ==> b.agents == if given.agents != [] || primary.None? then given.agents else [primary.value])
            && (b.Hook? ==> b.agent == if given.agent.Some? then given.agent else primary)
  {
    PrimaryIsFinal(order, inst, tasks, troubles, k);
  }

  /** A hook that ran without refusal leaves a row that its query finds. */
  lemma {:induction false} HookIsStored(order: Listing, inst: Instance, name: Text, b: Built, trouble: Trouble)
    requires Stable(order) && b.Hook? && b.agent.Some? && trouble != Refusal
    ensures FirstMatch(HookAt(b.agent.value, b.event, b.file), order(Execute(order, inst, name, b, trouble).inst.rows)).Some?
  {
    var l := Resolve(order, inst, name, b);
    var rows := inst.rows + [l.row];
    assert l.row in rows && l.row in order(rows);
  }

  lemma {:induction false} StoredHookIsSkipped(order: Listing, p: Progress, t: Task, trouble: Trouble, b: Built)
    requires t.built.Some? && b == Attached(t.built.value, p.primary) && b.Hook? && b.agent.Some? && trouble != Refusal
    requires FirstMatch(HookAt(b.agent.value, b.event, b.file), order(p.inst.rows)).Some?
    ensures var next := Advance(order, p, t, trouble);
            next.inst == p.inst && next.results == p.results + [Result(t.source, t.target, t.name, Skipped, None)]
  {
  }

  /** From the turn of one hook to the turn of a later one that meets it. */
  lemma {:induction false} MetIsSkipped(
      order: Listing, p: Progress, a: Task, between: seq<Task>, t1: Trouble, ts: seq<Trouble>, b: Task, t2: Trouble,
      x: Built, y: Built)
    requires Stable(order) && |ts| == |between| && a.built.Some? && b.built.Some? && t1 != Refusal && t2 != Refusal
    requires x == Attached(a.built.value, p.primary) && Meet(x, y) && x.agent.Some?
    requires y == Attached(b.built.value, Run(order, Advance(order, p, a, t1), between, ts).primary)
    ensures var at := Run(order, Advance(order, p, a, t1), between, ts);
            var next := Advance(order, at, b, t2);
            next.inst == at.inst && next.results == at.results + [Result(b.source, b.target, b.name, Skipped, None)]
  {
    var next := Advance(order, p, a, t1);
    var at := Run(order, next, between, ts);
    var q := HookAt(x.agent.value, x.event, x.file);
    HookIsStored(order, p.inst, a.name, x, t1);
    RunKeepsTools(order, next, between, ts);
    MatchStays(order, next.inst.rows, at.inst.rows, q);
    StoredHookIsSkipped(order, at, b, t2, y);
  }

  lemma {:induction false} CutRun(
      order: Listing, inst: Instance, tasks: seq<Task>, troubles: seq<Trouble>, k: nat, m: nat)
    requires |troubles| == |tasks| && k < m <= |tasks|
    ensures Run(order, Start(inst), tasks[..m], troubles[..m])
         == Run(order, Advance(order, Run(order, Start(inst), tasks[..k], troubles[..k]), tasks[k], troubles[k]),
                tasks[k + 1..m], troubles[k + 1..m])
  {
    var rest, ts := tasks[k..m], troubles[k..m];
    assert tasks[..k] + rest == tasks[..m] && troubles[..k] + ts == troubles[..m];
    RunAppend(order, Start(inst), tasks[..k], rest, troubles[..k], ts);
    assert rest[1..] == tasks[k + 1..m] && ts[1..] == troubles[k + 1..m];
  }

  /** One of two hooks for the same event and file is pinned to the agent the other is attached to. */
  predicate Pinned(a: Built, b: Built, primary: Option<Id>)
    requires a.Hook? && b.Hook?
  {
    primary.Some? && a.event == b.event && a.file == b.file
    && ((a.agent.None? && b.agent == primary) || (b.agent.None? && a.agent == primary))
  }

  /** Of two hooks that survive with different keys, one pinned to the agent the other is attached to
      and both with the same event and file, the later is recorded as skipped and stores nothing,
      whatever its script; hooks with different keys meet in no other way. */
  lemma {:induction false} PinnedHookIsSkipped(
      order: Listing, inst: Instance, tasks: seq<Task>, troubles: seq<Trouble>, k: nat, m: nat, primary: Option<Id>)
    requires |troubles| == |tasks| && Stable(order) && InOrder(tasks) && AllWellBuilt(tasks) && k < m < |tasks|
    requires IsHook(tasks[k]) && IsHook(tasks[m]) && HookKeyOf(tasks[k]) != HookKeyOf(tasks[m])
    requires troubles[k] != Refusal && troubles[m] != Refusal
    requires primary == PrimaryOf(Run(order, Start(inst), tasks, troubles).results)
    ensures Meet(Attached(tasks[k].built.value, primary), Attached(tasks[m].built.value, primary))
       <==> Pinned(tasks[k].built.value, tasks[m].built.value, primary)
    ensures Meet(Attached(tasks[k].built.value, primary), Attached(tasks[m].built.value, primary)) ==>
              var at, t := Run(order, Start(inst), tasks[..m], troubles[..m]), tasks[m];
              var next := Advance(order, at, t, troubles[m]);
              next.inst == at.inst && next.results == at.results + [Result(t.source, t.target, t.name, Skipped, None)]
  {
    var x, y := Attached(tasks[k].built.value, primary), Attached(tasks[m].built.value, primary);
    if Meet(x, y) {
      var p := Run(order, Start(inst), tasks[..k], troubles[..k]);
      PrimaryIsFinal(order, inst, tasks, troubles, k);
      PrimaryIsFinal(order, inst, tasks, troubles, m);
      CutRun(order, inst, tasks, troubles, k, m);
      MetIsSkipped(order, p, tasks[k], tasks[k + 1..m], troubles[k], troubles[k + 1..m], tasks[m], troubles[m], x, y);
    }
  }

  ghost predicate LandedAs(results: seq<Result>, id: Id) {
    exists r :: r in results && AgentLanded(r) && r.id == Some(id)
  }

  ghost predicate AgentsAreLanded(p: Progress) {
    && (forall id :: id in p.agents <==> LandedAs(p.results, id))
    && (forall i, j :: 0 <= i < j < |p.agents| ==> p.agents[i] != p.agents[j])
  }

  /** The agents given the sandbox tools are those that landed, each once. */
  lemma {:induction false} RunAgents(order: Listing, p: Progress, tasks: seq<Task>, troubles: seq<Trouble>)
    requires |troubles| == |tasks| && AgentsAreLanded(p)
    ensures AgentsAreLanded(Run(order, p, tasks, troubles))
    decreases |tasks|
  {
    if tasks != [] {
      RunAgents(order, Advance(order, p, tasks[0], troubles[0]), tasks[1..], troubles[1..]);
    }
  }
}
