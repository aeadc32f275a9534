/** The no-privilege-escalation check (platform/shared/access-control.ts:363-388). */
module Grants {
  datatype Entry = Entry(resource: string, actions: seq<string>)

  predicate OneEntryEach(entries: seq<Entry>) {
    forall i, j :: 0 <= i < j < |entries| ==> entries[i].resource != entries[j].resource
  }

  /** A record from resources to actions, in the order of its keys. */
  type Permissions = entries: seq<Entry> | OneEntryEach(entries)

  function ActionsOn(entries: seq<Entry>, resource: string): (actions: seq<string>)
    decreases |entries|
  {
    if entries == [] then []
    else if entries[0].resource == resource then entries[0].actions
    else ActionsOn(entries[1..], resource)
  }

  predicate Holds(p: Permissions, resource: string, action: string) {
    action in ActionsOn(p, resource)
  }

  lemma {:induction false} EntryIsFound(p: Permissions, i: nat)
    requires i < |p|
    ensures ActionsOn(p, p[i].resource) == p[i].actions
    decreases |p|
  {
    if i > 0 {
      EntryIsFound(p[1..], i - 1);
    }
  }

  lemma {:induction false} FoundIsEntry(p: Permissions, resource: string)
    ensures (forall i :: 0 <= i < |p| ==> p[i].resource != resource) ==> ActionsOn(p, resource) == []
    ensures ActionsOn(p, resource) != [] ==>
              exists i :: 0 <= i < |p| && p[i].resource == resource && p[i].actions == ActionsOn(p, resource)
    decreases |p|
  {
    if p != [] && p[0].resource != resource {
      FoundIsEntry(p[1..], resource);
      if ActionsOn(p, resource) != [] {
        var i :| 0 <= i < |p[1..]| && p[1..][i].resource == resource && p[1..][i].actions == ActionsOn(p[1..], resource);
        assert p[i + 1] == p[1..][i];
      }
    }
  }

  predicate Exempt(resource: string) {
    resource == "simpleView" || resource == "chatAgentPicker" || resource == "chatProviderSettings"
  }

  /** A permission that the rule is about: of the universe, and not exempt. */
  predicate Counts(universe: Permissions, resource: string, action: string) {
    !Exempt(resource) && Holds(universe, resource, action)
  }

  function Render(resource: string, action: string): string {
    resource + ":" + action
  }

  // ----- What is missing -----

  function MissingActions(
      universe: Permissions, granter: Permissions, resource: string, actions: seq<string>): seq<string>
    decreases |actions|
  {
    if actions == [] then []
    else
      (if Holds(universe, resource, actions[0]) && !Holds(granter, resource, actions[0]) then [Render(resource, actions[0])]
       else [])
      + MissingActions(universe, granter, resource, actions[1..])
  }

  function Missing(universe: Permissions, granter: Permissions, role: seq<Entry>): seq<string>
    decreases |role|
  {
    if role == [] then []
    else
      (if Exempt(role[0].resource) then [] else MissingActions(universe, granter, role[0].resource, role[0].actions))
      + Missing(universe, granter, role[1..])
  }

  lemma {:induction false} MissingActionsAppend(
      universe: Permissions, granter: Permissions, resource: string, actions: seq<string>, action: string)
    ensures MissingActions(universe, granter, resource, actions + [action])
         == MissingActions(universe, granter, resource, actions) + MissingActions(universe, granter, resource, [action])
    decreases |actions|
  {
    if actions == [] {
      assert actions + [action] == [action];
    } else {
      assert (actions + [action])[1..] == actions[1..] + [action];
      MissingActionsAppend(universe, granter, resource, actions[1..], action);
    }
  }

  lemma {:induction false} MissingAppend(universe: Permissions, granter: Permissions, role: seq<Entry>, entry: Entry)
    ensures Missing(universe, granter, role + [entry]) == Missing(universe, granter, role) + Missing(universe, granter, [entry])
    decreases |role|
  {
    if role == [] {
      assert role + [entry] == [entry];
    } else {
      assert (role + [entry])[1..] == role[1..] + [entry];
      MissingAppend(universe, granter, role[1..], entry);
    }
  }

  /** The inner loop: what one entry of the role asks beyond the granter. */
  method MissingOn(universe: Permissions, granter: Permissions, resource: string, actions: seq<string>)
    returns (missing: seq<string>)
    ensures missing == MissingActions(universe, granter, resource, actions)
  {
    missing := [];
    var granterActions, realActions := ActionsOn(granter, resource), ActionsOn(universe, resource);
    for j := 0 to |actions|
      invariant missing == MissingActions(universe, granter, resource, actions[..j])
    {
      assert actions[..j + 1] == actions[..j] + [actions[j]];
      MissingActionsAppend(universe, granter, resource, actions[..j], actions[j]);
      if actions[j] !in realActions {
        continue;
      }
      if actions[j] !in granterActions {
        missing := missing + [Render(resource, actions[j])];
      }
    }
    assert actions[..|actions|] == actions;
  }

  lemma {:induction false} MissingOfOne(universe: Permissions, granter: Permissions, entry: Entry)
    ensures Missing(universe, granter, [entry])
         == if Exempt(entry.resource) then [] else MissingActions(universe, granter, entry.resource, entry.actions)
  {
    assert [entry][1..] == [];
    assert Missing(universe, granter, [entry][1..]) == [];
  }

  method FindUngrantablePermissions(universe: Permissions, granter: Permissions, role: Permissions)
    returns (missing: seq<string>)
    ensures missing == Missing(universe, granter, role)
  {
    missing := [];
    for i := 0 to |role|
      invariant missing == Missing(universe, granter, role[..i])
    {
      assert role[..i + 1] == role[..i] + [role[i]];
      MissingAppend(universe, granter, role[..i], role[i]);
      MissingOfOne(universe, granter, role[i]);
      if Exempt(role[i].resource) {
        continue;
      }
      var more := MissingOn(universe, granter, role[i].resource, role[i].actions);
      missing := missing + more;
    }
    assert role[..|role|] == role;
  }
}
