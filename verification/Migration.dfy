/** Applying a migration plan (migration-kit/scripts/apply.py). The instance it talks to is a store
    that only grows, with exact search filters and a fixed list of tools. */
module Migration {
  import opened Wrappers
  import opened Surrogates
  import opened PyText
  import opened PyJson
  import opened Frontmatter

  type Id = nat

  datatype Scope = Personal | Team | Org

  datatype Condition = Condition(key: Text, operator: Text, value: Text)

  // ----- The instance -----

  datatype Row =
    | AgentRow(id: Id, name: Text, scope: Scope, prompt: Text)
    | SkillRow(id: Id, name: Text, scope: Scope, content: Text)
    | CatalogRow(id: Id, name: Text, scope: Scope)
    | ServerRow(id: Id, catalog: Id, scope: Scope, team: Option<Text>, agents: seq<Id>)
    | KeyRow(id: Id, name: Text, provider: Text, scope: Scope, team: Option<Text>)
    | PolicyRow(id: Id, tool: Id, conditions: seq<Condition>, action: Text)
    | HookRow(id: Id, agent: Id, event: Text, file: Text, content: Text)

  datatype Tool = Tool(id: Id, name: Text)

  type Assignment = (Id, Id)

  datatype Instance = Instance(
    rows: seq<Row>, nextId: Id, tools: seq<Tool>, given: set<Assignment>, skillDefaults: bool)

  /** What an existence check looks for. All but the last name an entity by everything that
      identifies it. */
  datatype Query =
    | AgentNamed(name: Text, scope: Scope)
    | SkillNamed(name: Text, scope: Scope)
    | CatalogNamed(name: Text, scope: Scope)
    | ServerAt(catalog: Id, scope: Scope, team: Option<Text>)
    | KeyNamed(name: Text, provider: Text, scope: Scope, team: Option<Text>)
    | PolicyOn(tool: Id, conditions: seq<Condition>, action: Text)
    | HookAt(agent: Id, event: Text, file: Text)
    | CatalogCalled(name: Text)

  predicate Matches(q: Query, r: Row) {
    match q
    case AgentNamed(name, scope) => r.AgentRow? && r.name == name && r.scope == scope
    case SkillNamed(name, scope) => r.SkillRow? && r.name == name && r.scope == scope
    case CatalogNamed(name, scope) => r.CatalogRow? && r.name == name && r.scope == scope
    case ServerAt(catalog, scope, team) =>
      r.ServerRow? && r.catalog == catalog && r.scope == scope && (scope.Team? ==> r.team == team)
    case KeyNamed(name, provider, scope, team) =>
      r.KeyRow? && r.name == name && r.provider == provider && r.scope == scope && r.team == team
    case PolicyOn(tool, conditions, action) =>
      r.PolicyRow? && r.tool == tool && r.conditions == conditions && r.action == action
    case HookAt(agent, event, file) => r.HookRow? && r.agent == agent && r.event == event && r.file == file
    case CatalogCalled(name) => r.CatalogRow? && r.name == name
  }

  function FirstMatch(q: Query, rows: seq<Row>): (found: Option<Row>)
    ensures found.Some? <==> exists r :: r in rows && Matches(q, r)
    ensures found.Some? ==> found.value in rows && Matches(q, found.value)
    decreases |rows|
  {
    if rows == [] then None
    else if Matches(q, rows[0]) then Some(rows[0])
    else
      assert forall r :: r in rows <==> r == rows[0] || r in rows[1..];
      FirstMatch(q, rows[1..])
  }

  /** The order an instance lists its rows in. */
  type Listing = seq<Row> -> seq<Row>

  /** Everything is listed, and a new row does not change which of the others comes first. */
  ghost predicate Stable(order: Listing) {
    && (forall rows: seq<Row>, r: Row :: r in order(rows) <==> r in rows)
    && (forall rows: seq<Row>, r: Row, q: Query ::
          !Matches(q, r) ==> FirstMatch(q, order(rows + [r])) == FirstMatch(q, order(rows)))
  }

  // ----- The built plan -----

  datatype Kind = KeyKind | AgentKind | SkillKind | CatalogKind | InstallKind | PolicyKind | HookKind

  datatype Built =
    | AgentCreate(scope: Scope, prompt: Text)
    | SkillCreate(content: Text, scope: Scope)
    | CatalogCreate(scope: Scope)
    | Install(scope: Scope, agents: seq<Id>, team: Option<Text>)
    | KeyCreate(provider: Text, scope: Scope, team: Option<Text>)
    | Policy(tool: Text, conditions: seq<Condition>, action: Text)
    | Hook(event: Text, file: Text, content: Text, agent: Option<Id>)

  function KindOf(b: Built): Kind {
    match b
    case AgentCreate(_, _) => AgentKind
    case SkillCreate(_, _) => SkillKind
    case CatalogCreate(_) => CatalogKind
    case Install(_, _, _) => InstallKind
    case KeyCreate(_, _, _) => KeyKind
    case Policy(_, _, _) => PolicyKind
    case Hook(_, _, _, _) => HookKind
  }

  datatype Action = Migrate | Skip | ByHand

  /** One decision after the offline build. Names that payloads repeat are the task's own name. */
  datatype Task = Task(source: Text, target: Option<Kind>, action: Action, name: Text, built: Option<Built>)

  /** What the offline build gives: an operation of the decision's own kind, for a migration. */
  predicate WellBuilt(t: Task) {
    t.built.Some? ==> t.action == Migrate && t.target == Some(KindOf(t.built.value))
  }

  datatype Outcome = Created | Skipped | Failed | Manual | Invalid

  datatype Result = Result(source: Text, target: Option<Kind>, name: Text, outcome: Outcome, id: Option<Id>)

  // ----- Executing one operation -----

  /** The name under which a skill is filed: its frontmatter's. */
  function NameIn(content: Text): Text {
    var fm := Parse(content).fm;
    if NAME in fm && fm[NAME].Scalar? then fm[NAME].text else []
  }

  function ToolCalled(tools: seq<Tool>, name: Text): (found: Option<Tool>)
    decreases |tools|
  {
    if tools == [] then None
    else if tools[0].name == name then Some(tools[0])
    else ToolCalled(tools[1..], name)
  }

  /** What an operation searches for and what it would store, or the outcome it ends in instead. */
  datatype Lookup =
    | Search(query: Query, row: Row)
    | Stuck(outcome: Outcome)

  function Resolve(order: Listing, inst: Instance, name: Text, b: Built): Lookup {
    var id := inst.nextId;
    match b
    case AgentCreate(scope, prompt) => Search(AgentNamed(name, scope), AgentRow(id, name, scope, prompt))
    case SkillCreate(content, scope) =>
      Search(SkillNamed(name, scope), SkillRow(id, NameIn(content), scope, content))
    case CatalogCreate(scope) => Search(CatalogNamed(name, scope), CatalogRow(id, name, scope))
    case Install(scope, agents, team) => (
      match FirstMatch(CatalogCalled(name), order(inst.rows))
      case None => Stuck(Failed)
      case Some(catalog) => Search(ServerAt(catalog.id, scope, team), ServerRow(id, catalog.id, scope, team, agents)))
    case KeyCreate(provider, scope, team) =>
      Search(KeyNamed(name, provider, scope, team), KeyRow(id, name, provider, scope, team))
    case Policy(tool, conditions, action) => (
      match ToolCalled(inst.tools, tool)
      case None => Stuck(Manual)
      case Some(t) => Search(PolicyOn(t.id, conditions, action), PolicyRow(id, t.id, conditions, action)))
    case Hook(event, file, content, agent) => (
      match agent
      case None => Stuck(Failed)
      case Some(a) => Search(HookAt(a, event, file), HookRow(id, a, event, file, content)))
  }

  /** What may go wrong with an operation's requests: nothing; an error before anything is stored; or
      an error after the entity was stored. */
  datatype Trouble = NoTrouble | Refusal | LostReply

  datatype Executed = Executed(inst: Instance, outcome: Outcome, id: Option<Id>)

  function Stored(inst: Instance, row: Row): Instance {
    inst.(rows := inst.rows + [row], nextId := inst.nextId + 1)
  }

  function Execute(order: Listing, inst: Instance, name: Text, b: Built, trouble: Trouble): Executed {
    if trouble.Refusal? then Executed(inst, Failed, None)
    else match Resolve(order, inst, name, b)
      case Stuck(outcome) => Executed(inst, outcome, None)
      case Search(query, row) =>
        match FirstMatch(query, order(inst.rows))
        case Some(existing) => Executed(inst, Skipped, if b.Policy? || b.Hook? then None else Some(existing.id))
        case None =>
          if trouble.LostReply? then Executed(Stored(inst, row), Failed, None)
          else Executed(Stored(inst, row), Created, Some(row.id))
  }

  // ----- The run -----

  datatype Progress = Progress(
    inst: Instance, primary: Option<Id>, agents: seq<Id>, skillOrAgent: bool, results: seq<Result>)

  const CLAUDE_MD: Text := Py("claude_md")

  /** Installs and hooks that name no agent go to the primary one. */
  function Attached(b: Built, primary: Option<Id>): Built {
    if b.Install? && b.agents == [] && primary.Some? then b.(agents := [primary.value])
    else if b.Hook? && b.agent.None? && primary.Some? then b.(agent := primary)
    else b
  }

  function NotRun(t: Task): Result {
    Result(t.source, t.target, t.name,
           match t.action case Migrate => Invalid case Skip => Skipped case ByHand => Manual, None)
  }

  predicate Landed(r: Result) {
    r.outcome == Created || r.outcome == Skipped
  }

  predicate AgentLanded(r: Result) {
    r.target == Some(AgentKind) && Landed(r) && r.id.Some?
  }

  function NextPrimary(primary: Option<Id>, r: Result): Option<Id> {
    if AgentLanded(r) && (primary.None? || r.source == CLAUDE_MD) then r.id else primary
  }

  function NextAgents(agents: seq<Id>, r: Result): seq<Id> {
    if AgentLanded(r) && r.id.value !in agents then agents + [r.id.value] else agents
  }

  /** The progress after an operation that ended as e says. */
  function Recorded(p: Progress, t: Task, e: Executed): Progress {
    var r := Result(t.source, t.target, t.name, e.outcome, e.id);
    var counts := (r.target == Some(SkillKind) || r.target == Some(AgentKind)) && Landed(r);
    Progress(e.inst, NextPrimary(p.primary, r), NextAgents(p.agents, r), p.skillOrAgent || counts, p.results + [r])
  }

  function Advance(order: Listing, p: Progress, t: Task, trouble: Trouble): Progress {
    match t.built
    case None => p.(results := p.results + [NotRun(t)])
    case Some(b) => Recorded(p, t, Execute(order, p.inst, t.name, Attached(b, p.primary), trouble))
  }

  function Run(order: Listing, p: Progress, tasks: seq<Task>, troubles: seq<Trouble>): Progress
    requires |troubles| == |tasks|
    decreases |tasks|
  {
    if tasks == [] then p else Run(order, Advance(order, p, tasks[0], troubles[0]), tasks[1..], troubles[1..])
  }

  function Start(inst: Instance): Progress {
    Progress(inst, None, [], false, [])
  }

  // ----- After the run -----

  const SEPARATOR: Text := Py("__")
  const RUN_COMMAND: Text := Py("run_command")
  const UPLOAD_FILE: Text := Py("upload_file")
  const DOWNLOAD_FILE: Text := Py("download_file")

  predicate Offers(tool: Tool, short: Text) {
    || tool.name == short
    || (|tool.name| >= |short| + 2 && tool.name[|tool.name| - |short| - 2..] == SEPARATOR + short)
  }

  function ToolOffering(tools: seq<Tool>, short: Text): (found: Option<Tool>)
    ensures found.Some? <==> exists t :: t in tools && Offers(t, short)
    ensures found.Some? ==> found.value in tools && Offers(found.value, short)
    decreases |tools|
  {
    if tools == [] then None
    else if Offers(tools[0], short) then Some(tools[0])
    else
      assert forall t :: t in tools <==> t == tools[0] || t in tools[1..];
      ToolOffering(tools[1..], short)
  }

  /** The sandbox tools' ids, if the instance has all three. */
  function SandboxTools(tools: seq<Tool>): Option<seq<Id>> {
    var run, up, down := ToolOffering(tools, RUN_COMMAND), ToolOffering(tools, UPLOAD_FILE), ToolOffering(tools, DOWNLOAD_FILE);
    if run.Some? && up.Some? && down.Some? then Some([run.value.id, up.value.id, down.value.id]) else None
  }

  function Pairs(agents: seq<Id>, tools: seq<Id>): set<Assignment> {
    set a, t | a in agents && t in tools :: (a, t)
  }

  /** The instance once skill defaults are enabled and the agents have the sandbox tools. */
  function Settled(p: Progress): Instance {
    var inst := if p.skillOrAgent then p.inst.(skillDefaults := true) else p.inst;
    var tools := SandboxTools(inst.tools);
    if p.agents != [] && tools.Some? then inst.(given := inst.given + Pairs(p.agents, tools.value)) else inst
  }

  // ----- Collisions and order -----

  function Rank(t: Task): nat {
    match t.target
    case None => 99
    case Some(KeyKind) => 0
    case Some(AgentKind) => 1
    case Some(SkillKind) => 2
    case Some(CatalogKind) => 3
    case Some(InstallKind) => 4
    case Some(PolicyKind) => 5
    case Some(HookKind) => 6
  }

  predicate IsHook(t: Task) {
    t.built.Some? && t.built.value.Hook?
  }

  type HookKey = (Option<Id>, Text, Text)

  function HookKeyOf(t: Task): HookKey
    requires IsHook(t)
  {
    (t.built.value.agent, t.built.value.event, t.built.value.file)
  }

  /** Later hooks with a key already seen lose their operation. */
  function Flagged(tasks: seq<Task>, seen: set<HookKey>): (out: seq<Task>)
    ensures |out| == |tasks|
    decreases |tasks|
  {
    if tasks == [] then []
    else if !IsHook(tasks[0]) then [tasks[0]] + Flagged(tasks[1..], seen)
    else if HookKeyOf(tasks[0]) in seen then [tasks[0].(built := None)] + Flagged(tasks[1..], seen)
    else [tasks[0]] + Flagged(tasks[1..], seen + {HookKeyOf(tasks[0])})
  }

  function Insert(t: Task, sorted: seq<Task>): seq<Task>
    decreases |sorted|
  {
    if sorted == [] || Rank(t) <= Rank(sorted[0]) then [t] + sorted else [sorted[0]] + Insert(t, sorted[1..])
  }

  /** The stable sort by rank. */
  function Sorted(tasks: seq<Task>): seq<Task>
    decreases |tasks|
  {
    if tasks == [] then [] else Insert(tasks[0], Sorted(tasks[1..]))
  }

  predicate InvalidBuild(t: Task) {
    t.action == Migrate && t.built.None?
  }

  function Planned(tasks: seq<Task>): seq<Task> {
    Sorted(Flagged(tasks, {}))
  }

  /** A whole run of the tool without dry-run: nothing is sent when any operation is invalid. */
  function Applied(order: Listing, inst: Instance, tasks: seq<Task>, troubles: seq<Trouble>): Instance
    requires |troubles| == |Planned(tasks)|
  {
    if exists t :: t in Planned(tasks) && InvalidBuild(t) then inst
    else Settled(Run(order, Start(inst), Planned(tasks), troubles))
  }

  // ----- Skills -----

  /** Where a skill's text comes from: a SKILL.md kept as it is, or a body under printed frontmatter. */
  datatype SkillSource =
    | Original(content: Text)
    | Generated(description: Text, body: Text)

  function SkillContent(source: SkillSource, name: Text): Renamed {
    match source
    case Original(content) => SetName(content, name)
    case Generated(description, body) => Content(Emit(name, description) + body)
  }
}
