/** What a run stores and reports, in terms of the tasks, the instance and what went wrong alone
    (migration-kit/scripts/apply.py:560-675, 755-850). */
module AppliedPlan {
  import opened Wrappers
  import opened Surrogates
  import opened PyText
  import opened Migration
  import opened Planning
  import opened MigrationLaws

  // ----- Looking things up -----

  /** The first good one in the list, if there is one. */
  ghost predicate FirstOf<T>(list: seq<T>, good: T -> bool, found: Option<T>) {
    match found
    case None => forall k :: 0 <= k < |list| ==> !good(list[k])
    case Some(x) => exists k :: 0 <= k < |list| && list[k] == x && good(x) && forall m :: 0 <= m < k ==> !good(list[m])
  }

  function ItemNamed(name: Text): Row -> bool {
    (r: Row) => r.CatalogRow? && r.name == name
  }

  function ToolNamed(name: Text): Tool -> bool {
    (t: Tool) => t.name == name
  }

  /** What an operation is attached to: an install to the first catalog item listed with the task's
      name, a policy to the first tool of the name it gives, a hook to its agent or else the primary. */
  ghost predicate Targets(order: Listing, inst: Instance, primary: Option<Id>, t: Task, op: Built, target: Option<Id>) {
    match op
    case Install(_, _, _) =>
      exists found :: FirstOf(order(inst.rows), ItemNamed(t.name), found)
                      && target == (match found case None => None case Some(r) => Some(r.id))
    case Policy(tool, _, _) =>
      exists found :: FirstOf(inst.tools, ToolNamed(tool), found)
                      && target == (match found case None => None case Some(x) => Some(x.id))
    case Hook(_, _, _, agent) => target == if agent.Some? then agent else primary
    case _ => target == None
  }

  /** It has nothing to be attached to. */
  predicate Adrift(op: Built, target: Option<Id>) {
    target.None? && (op.Install? || op.Policy? || op.Hook?)
  }

  // ----- Entities -----

  /** The row is the entity that the operation is about. */
  predicate SameEntity(t: Task, op: Built, target: Option<Id>, r: Row)
    requires !Adrift(op, target)
  {
    match op
    case AgentCreate(scope, _) => r.AgentRow? && r.name == t.name && r.scope == scope
    case SkillCreate(_, scope) => r.SkillRow? && r.name == t.name && r.scope == scope
    case CatalogCreate(scope) => r.CatalogRow? && r.name == t.name && r.scope == scope
    case Install(scope, _, team) =>
      r.ServerRow? && r.catalog == target.value && r.scope == scope && (scope == Team ==> r.team == team)
    case KeyCreate(provider, scope, team) =>
      r.KeyRow? && r.name == t.name && r.provider == provider && r.scope == scope && r.team == team
    case Policy(_, conditions, action) =>
      r.PolicyRow? && r.tool == target.value && r.conditions == conditions && r.action == action
    case Hook(event, file, _, _) => r.HookRow? && r.agent == target.value && r.event == event && r.file == file
  }

  /** The row that the operation stores: the task's own fields, and the agents an install names or
      else the primary one. */
  function RowOf(t: Task, op: Built, primary: Option<Id>, target: Option<Id>, id: Id): Row
    requires !Adrift(op, target)
  {
    match op
    case AgentCreate(scope, prompt) => AgentRow(id, t.name, scope, prompt)
    case SkillCreate(content, scope) => SkillRow(id, NameIn(content), scope, content)
    case CatalogCreate(scope) => CatalogRow(id, t.name, scope)
    case Install(scope, agents, team) =>
      ServerRow(id, target.value, scope, team,
                if agents != [] then agents else if primary.Some? then [primary.value] else [])
    case KeyCreate(provider, scope, team) => KeyRow(id, t.name, provider, scope, team)
    case Policy(_, conditions, action) => PolicyRow(id, target.value, conditions, action)
    case Hook(event, file, content, _) => HookRow(id, target.value, event, file, content)
  }

  // ----- One turn -----

  predicate IsLanded(outcome: Outcome) {
    outcome == Created || outcome == Skipped
  }

  /** How a turn is recorded. */
  predicate Ends(p: Progress, t: Task, q: Progress, outcome: Outcome, id: Option<Id>) {
    var agent := t.target == Some(AgentKind) && IsLanded(outcome) && id.Some?;
    && q.results == p.results + [Result(t.source, t.target, t.name, outcome, id)]
    && q.skillOrAgent == (p.skillOrAgent
                          || ((t.target == Some(AgentKind) || t.target == Some(SkillKind)) && IsLanded(outcome)))
    && q.agents == (if agent && id.value !in p.agents then p.agents + [id.value] else p.agents)
    && q.primary == if agent && (p.primary.None? || t.source == Py("claude_md")) then id else p.primary
  }

  ghost predicate There(t: Task, op: Built, target: Option<Id>, rows: seq<Row>)
    requires !Adrift(op, target)
  {
    exists r :: r in rows && SameEntity(t, op, target, r)
  }

  ghost predicate Turn(
      order: Listing, p: Progress, t: Task, op: Built, target: Option<Id>, trouble: Trouble, q: Progress) {
    if trouble == Refusal then q.inst == p.inst && Ends(p, t, q, Failed, None)
    else if Adrift(op, target) then q.inst == p.inst && Ends(p, t, q, if op.Policy? then Manual else Failed, None)
    else if There(t, op, target, p.inst.rows) then
      && q.inst == p.inst
      && exists r :: FirstOf(order(p.inst.rows), r' => SameEntity(t, op, target, r'), Some(r))
                     && Ends(p, t, q, Skipped, if op.Policy? || op.Hook? then None else Some(r.id))
    else
      var id := p.inst.nextId;
      && q.inst == p.inst.(rows := p.inst.rows + [RowOf(t, op, p.primary, target, id)], nextId := id + 1)
      && if trouble == LostReply then Ends(p, t, q, Failed, None) else Ends(p, t, q, Created, Some(id))
  }

  ghost predicate TurnIs(order: Listing, p: Progress, t: Task, trouble: Trouble, q: Progress) {
    match t.built
    case None =>
      var outcome := match t.action case Migrate => Invalid case Skip => Skipped case ByHand => Manual;
      q == p.(results := p.results + [Result(t.source, t.target, t.name, outcome, None)])
    case Some(op) => exists target :: Targets(order, p.inst, p.primary, t, op, target)
                                      && Turn(order, p, t, op, target, trouble, q)
  }

  /** The first good one among the rest is the first of all, if the head is not good. */
  lemma {:induction false} FirstOfTail<T>(list: seq<T>, good: T -> bool, found: Option<T>)
    requires list != [] && !good(list[0]) && FirstOf(list[1..], good, found)
    ensures FirstOf(list, good, found)
  {
    assert forall k :: 1 <= k < |list| ==> list[k] == list[1..][k - 1];
    if found.Some? {
      var k :| 0 <= k < |list[1..]| && list[1..][k] == found.value && forall m :: 0 <= m < k ==> !good(list[1..][m]);
      assert list[k + 1] == found.value;
    }
  }

  lemma {:induction false} FirstMatchIsFirst(q: Query, rows: seq<Row>)
    ensures FirstOf(rows, r => Matches(q, r), FirstMatch(q, rows))
    decreases |rows|
  {
    if rows != [] && !Matches(q, rows[0]) {
      FirstMatchIsFirst(q, rows[1..]);
      FirstOfTail(rows, r => Matches(q, r), FirstMatch(q, rows));
    }
  }

  lemma {:induction false} ToolCalledIsFirst(tools: seq<Tool>, name: Text)
    ensures FirstOf(tools, ToolNamed(name), ToolCalled(tools, name))
    decreases |tools|
  {
    if tools != [] && tools[0].name != name {
      ToolCalledIsFirst(tools[1..], name);
      FirstOfTail(tools, ToolNamed(name), ToolCalled(tools, name));
    }
  }

  /** What the operation of a turn is attached to. */
  function TargetOf(order: Listing, inst: Instance, primary: Option<Id>, t: Task, op: Built): Option<Id> {
    match op
    case Install(_, _, _) => (
      match FirstMatch(CatalogCalled(t.name), order(inst.rows)) case None => None case Some(r) => Some(r.id))
    case Policy(tool, _, _) => (match ToolCalled(inst.tools, tool) case None => None case Some(x) => Some(x.id))
    case Hook(_, _, _, agent) => if agent.Some? then agent else primary
    case _ => None
  }

  lemma {:induction false} FirstOfSame<T>(list: seq<T>, a: T -> bool, b: T -> bool, found: Option<T>)
    requires FirstOf(list, a, found) && forall x :: x in list ==> a(x) == b(x)
    ensures FirstOf(list, b, found)
  {
  }

  lemma {:induction false} TargetIsTarget(order: Listing, inst: Instance, primary: Option<Id>, t: Task, op: Built)
    ensures Targets(order, inst, primary, t, op, TargetOf(order, inst, primary, t, op))
  {
    match op
    case Install(_, _, _) =>
      var q, rows := CatalogCalled(t.name), order(inst.rows);
      FirstMatchIsFirst(q, rows);
      FirstOfSame(rows, r => Matches(q, r), ItemNamed(t.name), FirstMatch(q, rows));
    case Policy(tool, _, _) => ToolCalledIsFirst(inst.tools, tool);
    case _ =>
  }

  lemma {:induction false} ResolvedAs(order: Listing, inst: Instance, primary: Option<Id>, t: Task, op: Built)
    ensures var target, l := TargetOf(order, inst, primary, t, op), Resolve(order, inst, t.name, Attached(op, primary));
            if Adrift(op, target) then l == Stuck(if op.Policy? then Manual else Failed)
            else l.Search? && l.row == RowOf(t, op, primary, target, inst.nextId)
                 && forall r :: Matches(l.query, r) == SameEntity(t, op, target, r)
  {
  }

  lemma {:induction false} RecordedEnds(p: Progress, t: Task, e: Executed)
    ensures Ends(p, t, Recorded(p, t, e), e.outcome, e.id) && Recorded(p, t, e).inst == e.inst
  {
  }

  lemma {:induction false} FoundThere(order: Listing, inst: Instance, t: Task, op: Built, target: Option<Id>, q: Query)
    requires Stable(order) && !Adrift(op, target) && forall r :: Matches(q, r) == SameEntity(t, op, target, r)
    ensures FirstMatch(q, order(inst.rows)).Some? <==> There(t, op, target, inst.rows)
    ensures FirstMatch(q, order(inst.rows)).Some? ==>
              FirstOf(order(inst.rows), r' => SameEntity(t, op, target, r'), FirstMatch(q, order(inst.rows)))
  {
    var rows := order(inst.rows);
    assert forall r :: r in rows <==> r in inst.rows;
    FirstMatchIsFirst(q, rows);
    FirstOfSame(rows, r => Matches(q, r), r' => SameEntity(t, op, target, r'), FirstMatch(q, rows));
  }

  lemma {:induction false} AdvanceIsTurn(order: Listing, p: Progress, t: Task, trouble: Trouble)
    requires Stable(order)
    ensures TurnIs(order, p, t, trouble, Advance(order, p, t, trouble))
  {
    if t.built.Some? {
      var op := t.built.value;
      var b, target := Attached(op, p.primary), TargetOf(order, p.inst, p.primary, t, op);
      TargetIsTarget(order, p.inst, p.primary, t, op);
      ResolvedAs(order, p.inst, p.primary, t, op);
      RecordedEnds(p, t, Execute(order, p.inst, t.name, b, trouble));
      if !Adrift(op, target) {
        FoundThere(order, p.inst, t, op, target, Resolve(order, p.inst, t.name, b).query);
      }
      assert Turn(order, p, t, op, target, trouble, Advance(order, p, t, trouble));
    }
  }

  /** Every turn of a run, whatever goes wrong. */
  lemma {:induction false} EveryTurn(order: Listing, inst: Instance, tasks: seq<Task>, troubles: seq<Trouble>, i: nat)
    requires Stable(order) && |troubles| == |tasks| && i < |tasks|
    ensures TurnIs(order, Run(order, Start(inst), tasks[..i], troubles[..i]), tasks[i], troubles[i],
                   Run(order, Start(inst), tasks[..i + 1], troubles[..i + 1]))
  {
    CutRun(order, inst, tasks, troubles, i, i + 1);
    AdvanceIsTurn(order, Run(order, Start(inst), tasks[..i], troubles[..i]), tasks[i], troubles[i]);
  }

  // ----- What a run stores -----

  /** Where the run stands before task i. */
  function At(order: Listing, inst: Instance, tasks: seq<Task>, troubles: seq<Trouble>, i: nat): Progress
    requires |troubles| == |tasks| && i <= |tasks|
  {
    Run(order, Start(inst), tasks[..i], troubles[..i])
  }

  /** The row is the one that task i stores when it is attached as p has it, and the result r says so,
      unless the reply was lost. */
  ghost predicate StoredBy(order: Listing, p: Progress, t: Task, trouble: Trouble, r: Result, row: Row) {
    && t.built.Some?
    && (exists target :: Targets(order, p.inst, p.primary, t, t.built.value, target)
                         && !Adrift(t.built.value, target)
                         && row == RowOf(t, t.built.value, p.primary, target, row.id))
    && r == if trouble == LostReply then Result(t.source, t.target, t.name, Failed, None)
            else Result(t.source, t.target, t.name, Created, Some(row.id))
  }

  /** Task i stores the row, attached as the run has it at its turn. */
  ghost predicate StoredAt(
      order: Listing, inst: Instance, tasks: seq<Task>, troubles: seq<Trouble>, i: nat, r: Result, row: Row)
    requires |troubles| == |tasks| && i < |tasks|
  {
    StoredBy(order, At(order, inst, tasks, troubles, i), tasks[i], troubles[i], r, row)
  }

  /** The k-th new row is stored by task from[k], and every task recorded as created has one. */
  ghost predicate Accounted(
      order: Listing, inst: Instance, tasks: seq<Task>, troubles: seq<Trouble>, p: Progress, from: seq<nat>)
    requires |troubles| == |tasks|
  {
    && inst.rows <= p.inst.rows && |p.inst.rows| == |inst.rows| + |from|
    && (forall j, k :: 0 <= j < k < |from| ==> from[j] < from[k])
    && (forall k :: 0 <= k < |from| ==> from[k] < |p.results| && from[k] < |tasks|)
    && (forall k :: 0 <= k < |from| ==>
          StoredAt(order, inst, tasks, troubles, from[k], p.results[from[k]], p.inst.rows[|inst.rows| + k]))
    && (forall i :: 0 <= i < |p.results| && p.results[i].outcome == Created ==> i in from)
  }

  lemma {:induction false} TurnGrows(order: Listing, p: Progress, t: Task, trouble: Trouble, q: Progress)
    requires TurnIs(order, p, t, trouble, q)
    ensures |q.results| == |p.results| + 1 && q.results[..|p.results|] == p.results
    ensures q.inst.rows == p.inst.rows ==> q.results[|p.results|].outcome != Created
    ensures q.inst.rows != p.inst.rows ==>
              exists row :: q.inst.rows == p.inst.rows + [row]
                            && StoredBy(order, p, t, trouble, q.results[|p.results|], row)
  {
    if t.built.Some? {
      var op := t.built.value;
      var target :| Targets(order, p.inst, p.primary, t, op, target) && Turn(order, p, t, op, target, trouble, q);
      if q.inst.rows != p.inst.rows {
        var row := RowOf(t, op, p.primary, target, p.inst.nextId);
        assert row.id == p.inst.nextId;
        assert StoredBy(order, p, t, trouble, q.results[|p.results|], row);
      }
    }
  }

  lemma {:induction false} ResultsStay(p: Progress, q: Progress)
    requires |q.results| >= |p.results| && q.results[..|p.results|] == p.results
    ensures forall i :: 0 <= i < |p.results| ==> q.results[i] == p.results[i]
  {
    forall i | 0 <= i < |p.results| ensures q.results[i] == p.results[i] {
      assert q.results[..|p.results|][i] == q.results[i];
    }
  }

  lemma {:induction false} AccountMore(
      order: Listing, inst: Instance, tasks: seq<Task>, troubles: seq<Trouble>, p: Progress, q: Progress, from: seq<nat>)
    returns (more: seq<nat>)
    requires |troubles| == |tasks| && Accounted(order, inst, tasks, troubles, p, from)
    requires var n := |p.results|;
             && n < |tasks| && |q.results| == n + 1 && q.results[..n] == p.results
             && p == At(order, inst, tasks, troubles, n)
             && exists row :: q.inst.rows == p.inst.rows + [row]
                              && StoredBy(order, p, tasks[n], troubles[n], q.results[n], row)
    ensures Accounted(order, inst, tasks, troubles, q, more)
  {
    var n := |p.results|;
    more := from + [n];
    ResultsStay(p, q);
    assert more[|from|] == n;
    assert forall i :: i in from ==> i in more;
  }

  lemma {:induction false} AccountSame(
      order: Listing, inst: Instance, tasks: seq<Task>, troubles: seq<Trouble>, p: Progress, q: Progress, from: seq<nat>)
    requires |troubles| == |tasks| && Accounted(order, inst, tasks, troubles, p, from)
    requires var n := |p.results|;
             && |q.results| == n + 1 && q.results[..n] == p.results && q.inst.rows == p.inst.rows
             && q.results[n].outcome != Created
    ensures Accounted(order, inst, tasks, troubles, q, from)
  {
    ResultsStay(p, q);
  }

  lemma {:induction false} Account(order: Listing, inst: Instance, tasks: seq<Task>, troubles: seq<Trouble>, n: nat)
    returns (from: seq<nat>)
    requires Stable(order) && |troubles| == |tasks| && n <= |tasks|
    ensures |At(order, inst, tasks, troubles, n).results| == n
    ensures Accounted(order, inst, tasks, troubles, At(order, inst, tasks, troubles, n), from)
  {
    from := [];
    if n > 0 {
      from := Account(order, inst, tasks, troubles, n - 1);
      EveryTurn(order, inst, tasks, troubles, n - 1);
      var p, q := At(order, inst, tasks, troubles, n - 1), At(order, inst, tasks, troubles, n);
      TurnGrows(order, p, tasks[n - 1], troubles[n - 1], q);
      if q.inst.rows == p.inst.rows {
        AccountSame(order, inst, tasks, troubles, p, q, from);
      } else {
        from := AccountMore(order, inst, tasks, troubles, p, q, from);
      }
    }
  }

  /** What task i is attached to is the same at the run's end. */
  lemma {:induction false} TargetLasts(
      order: Listing, inst: Instance, tasks: seq<Task>, troubles: seq<Trouble>, i: nat, target: Option<Id>)
    requires Stable(order) && |troubles| == |tasks| && InOrder(tasks) && AllWellBuilt(tasks)
    requires i < |tasks| && tasks[i].built.Some?
    requires var p := At(order, inst, tasks, troubles, i);
             Targets(order, p.inst, p.primary, tasks[i], tasks[i].built.value, target)
    ensures var end := Run(order, Start(inst), tasks, troubles);
            && Targets(order, end.inst, PrimaryOf(end.results), tasks[i], tasks[i].built.value, target)
            && (tasks[i].built.value.Install? || tasks[i].built.value.Hook? ==>
                  At(order, inst, tasks, troubles, i).primary == PrimaryOf(end.results))
  {
    var t, op, p := tasks[i], tasks[i].built.value, At(order, inst, tasks, troubles, i);
    var rest, ts := tasks[i..], troubles[i..];
    assert tasks[..i] + rest == tasks && troubles[..i] + ts == troubles;
    RunAppend(order, Start(inst), tasks[..i], rest, troubles[..i], ts);
    RunKeepsTools(order, p, rest, ts);
    if op.Install? || op.Hook? {
      PrimaryIsFinal(order, inst, tasks, troubles, i);
    }
    if op.Install? {
      NoCatalogsFrom(tasks, i);
      RunKeepsCatalog(order, p, rest, ts, t.name);
      var end := Run(order, p, rest, ts);
      TargetIsOne(order, p.inst, p.primary, t, op, target);
      TargetIsTarget(order, end.inst, PrimaryOf(end.results), t, op);
    }
  }

  lemma {:induction false} NoCatalogsFrom(tasks: seq<Task>, i: nat)
    requires InOrder(tasks) && AllWellBuilt(tasks) && i < |tasks|
    requires tasks[i].built.Some? && tasks[i].built.value.Install?
    ensures NoCatalogs(tasks[i..])
  {
    assert tasks[i] in tasks;
    forall j | 0 <= j < |tasks[i..]| && tasks[i..][j].built.Some? ensures !tasks[i..][j].built.value.CatalogCreate? {
      assert tasks[i + j] in tasks && tasks[i..][j] == tasks[i + j];
    }
  }

  lemma {:induction false} FirstOfIsOne<T>(list: seq<T>, good: T -> bool, a: Option<T>, b: Option<T>)
    requires FirstOf(list, good, a) && FirstOf(list, good, b)
    ensures a == b
  {
    if a.Some? && b.Some? {
      var i :| 0 <= i < |list| && list[i] == a.value && good(a.value) && forall m :: 0 <= m < i ==> !good(list[m]);
      var j :| 0 <= j < |list| && list[j] == b.value && good(b.value) && forall m :: 0 <= m < j ==> !good(list[m]);
      assert !(i < j) && !(j < i);
    }
  }

  lemma {:induction false} TargetIsOne(
      order: Listing, inst: Instance, primary: Option<Id>, t: Task, op: Built, target: Option<Id>)
    requires Targets(order, inst, primary, t, op, target)
    ensures target == TargetOf(order, inst, primary, t, op)
  {
    match op
    case Install(_, _, _) =>
      var q, rows := CatalogCalled(t.name), order(inst.rows);
      var found :| FirstOf(rows, ItemNamed(t.name), found)
                   && target == (match found case None => None case Some(r) => Some(r.id));
      FirstMatchIsFirst(q, rows);
      FirstOfSame(rows, r => Matches(q, r), ItemNamed(t.name), FirstMatch(q, rows));
      FirstOfIsOne(rows, ItemNamed(t.name), found, FirstMatch(q, rows));
    case Policy(tool, _, _) =>
      var found :| FirstOf(inst.tools, ToolNamed(tool), found)
                   && target == (match found case None => None case Some(x) => Some(x.id));
      ToolCalledIsFirst(inst.tools, tool);
      FirstOfIsOne(inst.tools, ToolNamed(tool), found, ToolCalled(inst.tools, tool));
    case _ =>
  }

  /** The new rows of a whole run, in the order of their tasks: each is its task's own fields, attached
      to what the run ends with, so that installs and hooks without an agent go to the final primary
      one; every task recorded as created has its row, under the id in its result; and the other new
      rows are those of lost replies. */
  ghost predicate RowsAre(
      order: Listing, inst: Instance, tasks: seq<Task>, troubles: seq<Trouble>, end: Progress, from: seq<nat>)
    requires |troubles| == |tasks|
  {
    && |end.results| == |tasks|
    && inst.rows <= end.inst.rows && |end.inst.rows| == |inst.rows| + |from|
    && (forall j, k :: 0 <= j < k < |from| ==> from[j] < from[k])
    && (forall k :: 0 <= k < |from| ==>
          from[k] < |tasks| && StoredBy(order, end.(primary := PrimaryOf(end.results)), tasks[from[k]],
                                        troubles[from[k]], end.results[from[k]], end.inst.rows[|inst.rows| + k]))
    && (forall i :: 0 <= i < |tasks| && end.results[i].outcome == Created ==> i in from)
  }

  lemma {:induction false} StoredAtTheEnd(
      order: Listing, inst: Instance, tasks: seq<Task>, troubles: seq<Trouble>, i: nat, r: Result, row: Row)
    requires Stable(order) && |troubles| == |tasks| && InOrder(tasks) && AllWellBuilt(tasks) && i < |tasks|
    requires StoredBy(order, At(order, inst, tasks, troubles, i), tasks[i], troubles[i], r, row)
    ensures var end := Run(order, Start(inst), tasks, troubles);
            StoredBy(order, end.(primary := PrimaryOf(end.results)), tasks[i], troubles[i], r, row)
  {
    var p, op := At(order, inst, tasks, troubles, i), tasks[i].built.value;
    var target :| Targets(order, p.inst, p.primary, tasks[i], op, target) && !Adrift(op, target)
                  && row == RowOf(tasks[i], op, p.primary, target, row.id);
    TargetLasts(order, inst, tasks, troubles, i, target);
  }

  lemma {:induction false} RowsAreTheTasks(
      order: Listing, inst: Instance, tasks: seq<Task>, troubles: seq<Trouble>)
    requires Stable(order) && |troubles| == |tasks| && InOrder(tasks) && AllWellBuilt(tasks)
    ensures exists from :: RowsAre(order, inst, tasks, troubles, Run(order, Start(inst), tasks, troubles), from)
  {
    var end := Run(order, Start(inst), tasks, troubles);
    var from := Account(order, inst, tasks, troubles, |tasks|);
    assert tasks[..|tasks|] == tasks && troubles[..|tasks|] == troubles;
    forall k | 0 <= k < |from|
      ensures from[k] < |tasks| && StoredBy(order, end.(primary := PrimaryOf(end.results)), tasks[from[k]],
                                            troubles[from[k]], end.results[from[k]], end.inst.rows[|inst.rows| + k])
    {
      StoredAtTheEnd(order, inst, tasks, troubles, from[k], end.results[from[k]], end.inst.rows[|inst.rows| + k]);
    }
    assert RowsAre(order, inst, tasks, troubles, end, from);
  }

  // ----- After the run -----

  predicate EndsWith(s: Text, end: Text) {
    |end| <= |s| && s[|s| - |end|..] == end
  }

  function ToolOffered(short: Text): Tool -> bool {
    (t: Tool) => t.name == short || EndsWith(t.name, Py("__") + short)
  }

  /** The id is that of the first tool that offers the command, under its own name or a server's. */
  ghost predicate Offered(tools: seq<Tool>, short: Text, id: Id) {
    exists t :: FirstOf(tools, ToolOffered(short), Some(t)) && t.id == id
  }

  ghost predicate NotOffered(tools: seq<Tool>, short: Text) {
    FirstOf(tools, ToolOffered(short), None)
  }

  /** The ids of the tools that offer three commands, or nothing if one is not offered. */
  ghost predicate IdsOf(tools: seq<Tool>, a: Text, b: Text, c: Text, ids: Option<seq<Id>>) {
    match ids
    case Some(three) =>
      |three| == 3 && Offered(tools, a, three[0]) && Offered(tools, b, three[1]) && Offered(tools, c, three[2])
    case None => NotOffered(tools, a) || NotOffered(tools, b) || NotOffered(tools, c)
  }

  ghost predicate SandboxIds(tools: seq<Tool>, ids: Option<seq<Id>>) {
    IdsOf(tools, Py("run_command"), Py("upload_file"), Py("download_file"), ids)
  }

  lemma {:induction false} OfferingIsFirst(tools: seq<Tool>, short: Text)
    ensures FirstOf(tools, ToolOffered(short), ToolOffering(tools, short))
    decreases |tools|
  {
    assert forall t: Tool :: ToolOffered(short)(t) == Offers(t, short);
    if tools != [] && !Offers(tools[0], short) {
      OfferingIsFirst(tools[1..], short);
      FirstOfTail(tools, ToolOffered(short), ToolOffering(tools, short));
    }
  }

  lemma {:induction false} OfferedIs(tools: seq<Tool>, short: Text, id: Id)
    ensures Offered(tools, short, id) <==>
              ToolOffering(tools, short).Some? && ToolOffering(tools, short).value.id == id
    ensures NotOffered(tools, short) <==> ToolOffering(tools, short).None?
  {
    var found := ToolOffering(tools, short);
    OfferingIsFirst(tools, short);
    if Offered(tools, short, id) {
      var t :| FirstOf(tools, ToolOffered(short), Some(t)) && t.id == id;
      FirstOfIsOne(tools, ToolOffered(short), Some(t), found);
    }
    if NotOffered(tools, short) {
      FirstOfIsOne(tools, ToolOffered(short), None, found);
    }
  }

  lemma {:induction false} IdsAreOne(tools: seq<Tool>, a: Text, b: Text, c: Text, ids: Option<seq<Id>>)
    requires IdsOf(tools, a, b, c, ids)
    ensures var x, y, z := ToolOffering(tools, a), ToolOffering(tools, b), ToolOffering(tools, c);
            ids == if x.Some? && y.Some? && z.Some? then Some([x.value.id, y.value.id, z.value.id]) else None
  {
    var three := if ids.Some? then ids.value else [0, 0, 0];
    OfferedIs(tools, a, three[0]);
    OfferedIs(tools, b, three[1]);
    OfferedIs(tools, c, three[2]);
    assert |three| == 3 ==> three == [three[0], three[1], three[2]];
  }

  lemma {:induction false} SandboxIdsAreOne(tools: seq<Tool>, ids: Option<seq<Id>>)
    requires SandboxIds(tools, ids)
    ensures ids == SandboxTools(tools)
  {
    IdsAreOne(tools, RUN_COMMAND, UPLOAD_FILE, DOWNLOAD_FILE, ids);
  }

  /** An operation, and so one with an id, created or found a skill or an agent. */
  predicate SkillOrAgentLanded(r: Result) {
    (r.target == Some(SkillKind) || r.target == Some(AgentKind)) && IsLanded(r.outcome) && r.id.Some?
  }

  ghost predicate SomeLanded(results: seq<Result>) {
    exists r :: r in results && SkillOrAgentLanded(r)
  }

  lemma {:induction false} TurnCounts(order: Listing, p: Progress, t: Task, trouble: Trouble, q: Progress)
    requires WellBuilt(t) && TurnIs(order, p, t, trouble, q)
    ensures exists r :: q.results == p.results + [r]
                        && q.skillOrAgent == (p.skillOrAgent || SkillOrAgentLanded(r))
    ensures q.inst == p.inst.(rows := q.inst.rows, nextId := q.inst.nextId)
  {
    var r := q.results[|p.results|];
    assert q.results == p.results + [r];
  }

  lemma {:induction false} RunCounts(order: Listing, p: Progress, tasks: seq<Task>, troubles: seq<Trouble>)
    requires Stable(order) && |troubles| == |tasks| && AllWellBuilt(tasks)
    requires p.skillOrAgent <==> SomeLanded(p.results)
    ensures var q := Run(order, p, tasks, troubles);
            && (q.skillOrAgent <==> SomeLanded(q.results))
            && q.inst == p.inst.(rows := q.inst.rows, nextId := q.inst.nextId)
    decreases |tasks|
  {
    if tasks != [] {
      var t := tasks[0];
      assert t in tasks;
      var next := Advance(order, p, t, troubles[0]);
      AdvanceIsTurn(order, p, t, troubles[0]);
      TurnCounts(order, p, t, troubles[0], next);
      RunCounts(order, next, tasks[1..], troubles[1..]);
    }
  }

  /** What is left of the instance by a run that ended so, apart from the rows: skill defaults are on if
      they were or some skill or agent landed, and each agent that landed has the three sandbox tools,
      if the instance has all of them; nothing else changes. */
  ghost predicate LeftBy(inst: Instance, results: seq<Result>, ids: Option<seq<Id>>, after: Instance) {
    && after.tools == inst.tools
    && (after.skillDefaults <==> inst.skillDefaults || SomeLanded(results))
    && forall agent: Id, tool: Id :: (agent, tool) in after.given <==>
         (agent, tool) in inst.given || (ids.Some? && tool in ids.value && LandedAs(results, agent))
  }

  lemma {:induction false} SettledIs(inst: Instance, p: Progress, ids: Option<seq<Id>>)
    requires AgentsAreLanded(p) && ids == SandboxTools(p.inst.tools)
    requires p.skillOrAgent <==> SomeLanded(p.results)
    requires p.inst == inst.(rows := p.inst.rows, nextId := p.inst.nextId)
    ensures LeftBy(inst, p.results, ids, Settled(p)) && Settled(p).rows == p.inst.rows
  {
  }

  /** What the whole tool leaves. An invalid operation in the plan stops all of it. */
  lemma {:induction false} AppliedLeaves(
      order: Listing, inst: Instance, tasks: seq<Task>, troubles: seq<Trouble>, ids: Option<seq<Id>>)
    requires Stable(order) && AllWellBuilt(tasks) && |troubles| == |Planned(tasks)|
    requires SandboxIds(inst.tools, ids)
    ensures var run, after := Run(order, Start(inst), Planned(tasks), troubles), Applied(order, inst, tasks, troubles);
            if exists t :: t in Planned(tasks) && t.action == Migrate && t.built.None? then after == inst
            else after.rows == run.inst.rows && LeftBy(inst, run.results, ids, after)
  {
    var plan := Planned(tasks);
    var run := Run(order, Start(inst), plan, troubles);
    assert forall t :: InvalidBuild(t) <==> t.action == Migrate && t.built.None?;
    PlannedProperties(tasks);
    RunCounts(order, Start(inst), plan, troubles);
    RunAgents(order, Start(inst), plan, troubles);
    SandboxIdsAreOne(inst.tools, ids);
    SettledIs(inst, run, ids);
  }

  // ----- The plan -----

  /** Keys before agents, agents before skills and so on to the hooks, and what has no kind last. */
  const DEPENDENCIES := [KeyKind, AgentKind, SkillKind, CatalogKind, InstallKind, PolicyKind, HookKind]

  ghost predicate Precedes(a: Option<Kind>, b: Option<Kind>) {
    a.Some? && (b.Some? ==> exists i, j :: 0 <= i < j < |DEPENDENCIES| && DEPENDENCIES[i] == a.value
                                           && DEPENDENCIES[j] == b.value)
  }

  function OfTarget(tasks: seq<Task>, target: Option<Kind>): seq<Task>
    decreases |tasks|
  {
    if tasks == [] then []
    else (if tasks[0].target == target then [tasks[0]] else []) + OfTarget(tasks[1..], target)
  }

  /** Two hooks that name the same agent, if any, and the same event and file. */
  predicate Collide(a: Task, b: Task) {
    && a.built.Some? && b.built.Some? && a.built.value.Hook? && b.built.value.Hook?
    && a.built.value.agent == b.built.value.agent
    && a.built.value.event == b.built.value.event && a.built.value.file == b.built.value.file
  }

  /** The tasks, each hook that collides with an earlier one without its operation. */
  ghost predicate Uncollided(tasks: seq<Task>, out: seq<Task>) {
    && |out| == |tasks|
    && forall i :: 0 <= i < |tasks| ==>
         out[i] == if exists j :: 0 <= j < i && Collide(tasks[j], tasks[i]) then tasks[i].(built := None) else tasks[i]
  }

  lemma {:induction false} KeyIsAmong(tasks: seq<Task>, key: HookKey)
    ensures key in HookKeys(tasks) <==> exists j :: 0 <= j < |tasks| && IsHook(tasks[j]) && HookKeyOf(tasks[j]) == key
    decreases |tasks|
  {
    if tasks != [] {
      KeyIsAmong(tasks[1..], key);
      assert forall j :: 1 <= j < |tasks| ==> tasks[j] == tasks[1..][j - 1];
    }
  }

  lemma {:induction false} FlaggedIsUncollided(tasks: seq<Task>)
    ensures Uncollided(tasks, Flagged(tasks, {}))
  {
    forall i | 0 <= i < |tasks|
      ensures Flagged(tasks, {})[i] == if exists j :: 0 <= j < i && Collide(tasks[j], tasks[i])
                                       then tasks[i].(built := None) else tasks[i]
    {
      FlaggedExactlyLater(tasks, {}, i);
      if IsHook(tasks[i]) {
        KeyIsAmong(tasks[..i], HookKeyOf(tasks[i]));
        assert forall j :: 0 <= j < i ==> (Collide(tasks[j], tasks[i]) <==>
                                             IsHook(tasks[..i][j]) && HookKeyOf(tasks[..i][j]) == HookKeyOf(tasks[i]));
      }
    }
  }

  lemma {:induction false} TargetIsRank(tasks: seq<Task>, t: Task)
    ensures OfTarget(tasks, t.target) == OfRank(tasks, Rank(t))
    decreases |tasks|
  {
    if tasks != [] {
      TargetIsRank(tasks[1..], t);
    }
  }

  lemma {:induction false} RankFollows(a: Task, b: Task)
    requires Precedes(a.target, b.target)
    ensures Rank(a) < Rank(b)
  {
  }

  /** The plan that is run: what later operations depend on comes first, and of each kind it is the
      tasks in their own order, hooks that collide with an earlier one having lost their operation. */
  lemma {:induction false} PlanIs(tasks: seq<Task>, target: Option<Kind>, out: seq<Task>)
    requires Uncollided(tasks, out)
    ensures forall i, j :: 0 <= i < j < |Planned(tasks)| ==> !Precedes(Planned(tasks)[j].target, Planned(tasks)[i].target)
    ensures OfTarget(Planned(tasks), target) == OfTarget(out, target)
  {
    FlaggedIsUncollided(tasks);
    assert out == Flagged(tasks, {});
    var any := Task([], target, Skip, [], None);
    SortProperties(out, Rank(any));
    TargetIsRank(out, any);
    TargetIsRank(Planned(tasks), any);
    forall i, j | 0 <= i < j < |Planned(tasks)|
      ensures !Precedes(Planned(tasks)[j].target, Planned(tasks)[i].target)
    {
      if Precedes(Planned(tasks)[j].target, Planned(tasks)[i].target) {
        RankFollows(Planned(tasks)[j], Planned(tasks)[i]);
      }
    }
  }
}
