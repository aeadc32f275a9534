/** The loops of migration-kit/scripts/apply.py, against the functions of Migration.dfy. */
module MigrationRun {
  import opened Wrappers
  import opened Surrogates
  import opened PyJson
  import opened Migration
  import opened Planning

  lemma {:induction false} FlaggedFrom(built: seq<Task>, out: seq<Task>, i: nat, seen: set<HookKey>, first: Task)
    requires i < |built|
    requires first == if IsHook(built[i]) && HookKeyOf(built[i]) in seen then built[i].(built := None) else built[i]
    ensures out + Flagged(built[i..], seen) == (out + [first]) + Flagged(built[i + 1..], SeenAfter(built[i], seen))
  {
    FlaggedTail(built[i..], seen);
    assert built[i..][1..] == built[i + 1..];
    assert Flagged(built[i..], seen) == [first] + Flagged(built[i..], seen)[1..];
  }

  method FlagHookCollisions(built: seq<Task>) returns (out: seq<Task>)
    ensures out == Flagged(built, {})
  {
    var seen: set<HookKey> := {};
    out := [];
    assert built[0..] == built;
    for i := 0 to |built|
      invariant Flagged(built, {}) == out + Flagged(built[i..], seen)
    {
      var b := built[i];
      if IsHook(b) {
        var key := HookKeyOf(b);
        if key in seen {
          FlaggedFrom(built, out, i, seen, b.(built := None));
          assert SeenAfter(b, seen) == seen;
          out := out + [b.(built := None)];
          continue;
        }
        FlaggedFrom(built, out, i, seen, b);
        seen := seen + {key};
      } else {
        FlaggedFrom(built, out, i, seen, b);
      }
      out := out + [b];
    }
    assert built[|built|..] == [];
  }

  /** The loop of _run_apply, with the error that the i-th operation runs into, if any. */
  method RunApply(order: Listing, before: Instance, built: seq<Task>, troubles: seq<Trouble>)
    returns (inst: Instance, primary: Option<Id>, agents: seq<Id>, skillOrAgent: bool, results: seq<Result>)
    requires |troubles| == |built|
    ensures inst == Run(order, Start(before), built, troubles).inst
    ensures results == Run(order, Start(before), built, troubles).results
    ensures primary == Run(order, Start(before), built, troubles).primary
    ensures agents == Run(order, Start(before), built, troubles).agents
    ensures skillOrAgent == Run(order, Start(before), built, troubles).skillOrAgent
  {
    inst, primary, agents, skillOrAgent, results := before, None, [], false, [];
    assert built[0..] == built && troubles[0..] == troubles;
    for i := 0 to |built|
      invariant Run(order, Start(before), built, troubles)
             == Run(order, Progress(inst, primary, agents, skillOrAgent, results), built[i..], troubles[i..])
    {
      var t := built[i];
      assert built[i..][1..] == built[i + 1..] && troubles[i..][1..] == troubles[i + 1..];
      if t.built.None? {
        results := results + [NotRun(t)];
        continue;
      }
      var op := t.built.value;
      if op.Install? && op.agents == [] && primary.Some? {
        op := op.(agents := [primary.value]);
      }
      if op.Hook? && op.agent.None? && primary.Some? {
        op := op.(agent := primary);
      }
      assert op == Attached(t.built.value, primary);
      var e := Execute(order, inst, t.name, op, troubles[i]);
      var r := Result(t.source, t.target, t.name, e.outcome, e.id);
      inst := e.inst;
      results := results + [r];
      if r.target == Some(AgentKind) && (r.outcome == Created || r.outcome == Skipped) && r.id.Some? {
        if r.id.value !in agents {
          agents := agents + [r.id.value];
        }
        if primary.None? || r.source == CLAUDE_MD {
          primary := r.id;
        }
      }
      if (r.target == Some(SkillKind) || r.target == Some(AgentKind)) && (r.outcome == Created || r.outcome == Skipped) {
        skillOrAgent := true;
      }
    }
    assert built[|built|..] == [] && troubles[|built|..] == [];
  }

  method AgentPairs(agent: Id, tools: seq<Id>) returns (out: seq<Assignment>)
    ensures forall pair :: pair in out <==> pair in Pairs([agent], tools)
  {
    out := [];
    for j := 0 to |tools|
      invariant forall pair :: pair in out <==> pair in Pairs([agent], tools[..j])
    {
      assert tools[..j + 1] == tools[..j] + [tools[j]];
      assert forall pair :: pair in Pairs([agent], tools[..j + 1]) <==>
                              pair in Pairs([agent], tools[..j]) || pair == (agent, tools[j]);
      out := out + [(agent, tools[j])];
    }
    assert tools[..|tools|] == tools;
  }

  /** The pairs that the migrated agents are given, unless a sandbox tool is missing. */
  method SandboxAssignments(tools: seq<Tool>, agents: seq<Id>) returns (assignments: Option<seq<Assignment>>)
    ensures assignments.Some? <==> SandboxTools(tools).Some?
    ensures assignments.Some? ==>
              forall pair :: pair in assignments.value <==> pair in Pairs(agents, SandboxTools(tools).value)
  {
    var resolved := SandboxTools(tools);
    if resolved.None? {
      return None;
    }
    var ids := resolved.value;
    var out: seq<Assignment> := [];
    for i := 0 to |agents|
      invariant forall pair :: pair in out <==> pair in Pairs(agents[..i], ids)
    {
      var more := AgentPairs(agents[i], ids);
      assert agents[..i + 1] == agents[..i] + [agents[i]];
      out := out + more;
    }
    assert agents[..|agents|] == agents;
    return Some(out);
  }
}
