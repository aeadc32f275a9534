/** What the grant rule promises, over one grant and over any number of them
    (platform/shared/access-control.ts:352-388, platform/shared/permission-hierarchy.ts:4-26). */
module GrantLaws {
  import opened Grants

  // ----- The rule as a relation -----

  /** The granter holds every permission of the role that counts. */
  ghost predicate Covers(universe: Permissions, granter: Permissions, role: Permissions) {
    forall r, a :: Counts(universe, r, a) && Holds(role, r, a) ==> Holds(granter, r, a)
  }

  lemma {:induction false} NothingMissingHere(
      universe: Permissions, granter: Permissions, resource: string, actions: seq<string>)
    ensures MissingActions(universe, granter, resource, actions) == []
       <==> forall a :: a in actions && Holds(universe, resource, a) ==> Holds(granter, resource, a)
    decreases |actions|
  {
    if actions != [] {
      NothingMissingHere(universe, granter, resource, actions[1..]);
      assert forall a :: a in actions <==> a == actions[0] || a in actions[1..];
    }
  }

  lemma {:induction false} NothingMissing(universe: Permissions, granter: Permissions, role: seq<Entry>)
    ensures Missing(universe, granter, role) == []
       <==> forall i :: 0 <= i < |role| ==>
              Exempt(role[i].resource) || MissingActions(universe, granter, role[i].resource, role[i].actions) == []
    decreases |role|
  {
    if role != [] {
      NothingMissing(universe, granter, role[1..]);
      assert forall i :: 1 <= i < |role| ==> role[i] == role[1..][i - 1];
    }
  }

  /** The check passes exactly when the granter covers the role. */
  lemma {:induction false} PassesExactlyWhenCovered(universe: Permissions, granter: Permissions, role: Permissions)
    ensures Missing(universe, granter, role) == [] <==> Covers(universe, granter, role)
  {
    NothingMissing(universe, granter, role);
    if Missing(universe, granter, role) == [] {
      forall r, a | Counts(universe, r, a) && Holds(role, r, a) ensures Holds(granter, r, a) {
        FoundIsEntry(role, r);
        var i :| 0 <= i < |role| && role[i].resource == r && role[i].actions == ActionsOn(role, r);
        NothingMissingHere(universe, granter, r, role[i].actions);
      }
    }
    if Covers(universe, granter, role) {
      forall i | 0 <= i < |role| && !Exempt(role[i].resource)
        ensures MissingActions(universe, granter, role[i].resource, role[i].actions) == []
      {
        EntryIsFound(role, i);
        NothingMissingHere(universe, granter, role[i].resource, role[i].actions);
      }
    }
  }

  // ----- What the check answers -----

  /** A resource and an action on it. */
  type Permission = (string, string)

  function PairsWith(resource: string, actions: seq<string>): seq<Permission> {
    seq(|actions|, i requires 0 <= i < |actions| => (resource, actions[i]))
  }

  /** The permissions of a role, in its order. */
  function PairsOf(role: seq<Entry>): seq<Permission> {
    if role == [] then [] else PairsWith(role[0].resource, role[0].actions) + PairsOf(role[1..])
  }

  ghost predicate Lists(p: Permissions, q: Permission) {
    exists i :: 0 <= i < |p| && p[i].resource == q.0 && q.1 in p[i].actions
  }

  /** One that the universe lists and the granter does not, and of no exempt resource. */
  ghost predicate Ungranted(universe: Permissions, granter: Permissions, q: Permission) {
    && q.0 != "simpleView" && q.0 != "chatAgentPicker" && q.0 != "chatProviderSettings"
    && Lists(universe, q) && !Lists(granter, q)
  }

  /** The list names, in order, the pairs that are ungranted and no others. */
  ghost predicate Names(universe: Permissions, granter: Permissions, pairs: seq<Permission>, out: seq<string>) {
    if pairs == [] then out == []
    else if Ungranted(universe, granter, pairs[0]) then
      out != [] && out[0] == pairs[0].0 + ":" + pairs[0].1 && Names(universe, granter, pairs[1..], out[1..])
    else Names(universe, granter, pairs[1..], out)
  }

  lemma {:induction false} ListsExactly(p: Permissions, q: Permission)
    ensures Lists(p, q) <==> Holds(p, q.0, q.1)
  {
    FoundIsEntry(p, q.0);
    if i :| 0 <= i < |p| && p[i].resource == q.0 && q.1 in p[i].actions {
      EntryIsFound(p, i);
    }
  }

  lemma {:induction false} NamesAppend(
      universe: Permissions, granter: Permissions, pairs: seq<Permission>, out: seq<string>,
      more: seq<Permission>, rest: seq<string>)
    requires Names(universe, granter, pairs, out) && Names(universe, granter, more, rest)
    ensures Names(universe, granter, pairs + more, out + rest)
  {
    if pairs == [] {
      assert pairs + more == more && out + rest == rest;
    } else {
      assert (pairs + more)[1..] == pairs[1..] + more;
      if Ungranted(universe, granter, pairs[0]) {
        NamesAppend(universe, granter, pairs[1..], out[1..], more, rest);
        assert (out + rest)[1..] == out[1..] + rest;
      } else {
        NamesAppend(universe, granter, pairs[1..], out, more, rest);
      }
    }
  }

  lemma {:induction false} MissingActionsNames(
      universe: Permissions, granter: Permissions, resource: string, actions: seq<string>)
    ensures Names(universe, granter, PairsWith(resource, actions),
                  if Exempt(resource) then [] else MissingActions(universe, granter, resource, actions))
    decreases |actions|
  {
    if actions != [] {
      ListsExactly(universe, (resource, actions[0]));
      ListsExactly(granter, (resource, actions[0]));
      MissingActionsNames(universe, granter, resource, actions[1..]);
      assert PairsWith(resource, actions)[1..] == PairsWith(resource, actions[1..]);
      var out := MissingActions(universe, granter, resource, actions);
      assert out != MissingActions(universe, granter, resource, actions[1..]) ==>
          out[1..] == MissingActions(universe, granter, resource, actions[1..]);
    }
  }

  /** The check lists, in the role's order, exactly the permissions that the universe has, the granter
      lacks and the rule does not exempt, each as resource:action. */
  lemma {:induction false} MissingNames(universe: Permissions, granter: Permissions, role: seq<Entry>)
    ensures Names(universe, granter, PairsOf(role), Missing(universe, granter, role))
    decreases |role|
  {
    if role != [] {
      var first := if Exempt(role[0].resource) then []
                   else MissingActions(universe, granter, role[0].resource, role[0].actions);
      MissingActionsNames(universe, granter, role[0].resource, role[0].actions);
      MissingNames(universe, granter, role[1..]);
      NamesAppend(universe, granter, PairsWith(role[0].resource, role[0].actions), first,
                  PairsOf(role[1..]), Missing(universe, granter, role[1..]));
    }
  }

  /** The check is a preorder: everyone may grant what they hold, and a grant never reaches further
      than the grant before it. */
  lemma {:induction false} GrantIsPreorder(universe: Permissions, a: Permissions, b: Permissions, c: Permissions)
    ensures Missing(universe, a, a) == []
    ensures Missing(universe, a, b) == [] && Missing(universe, b, c) == [] ==> Missing(universe, a, c) == []
  {
    PassesExactlyWhenCovered(universe, a, a);
    PassesExactlyWhenCovered(universe, a, b);
    PassesExactlyWhenCovered(universe, b, c);
    PassesExactlyWhenCovered(universe, a, c);
  }

  // ----- Runs of grants -----

  type User = nat

  type Org = map<User, Permissions>

  function PermissionsOf(org: Org, user: User): Permissions {
    if user in org then org[user] else []
  }

  /** The permissions of someone with two roles. */
  function Both(p: Permissions, q: Permissions): (both: Permissions)
    ensures forall r, a :: Holds(both, r, a) <==> Holds(p, r, a) || Holds(q, r, a)
  {
    BothHolds(p, q);
    Merged(p, q)
  }

  /** q's actions joined to p's, resource by resource, and q's other resources behind. */
  function Merged(p: Permissions, q: Permissions): (both: Permissions) {
    var front := Widened(p, q);
    WidenedKeys(p, q);
    LeftOverKeys(p, q);
    front + LeftOver(p, q)
  }

  function Widened(p: seq<Entry>, q: seq<Entry>): (out: seq<Entry>)
    ensures |out| == |p|
    decreases |p|
  {
    if p == [] then [] else [Entry(p[0].resource, p[0].actions + ActionsOn(q, p[0].resource))] + Widened(p[1..], q)
  }

  function LeftOver(p: seq<Entry>, q: seq<Entry>): seq<Entry>
    decreases |q|
  {
    if q == [] then []
    else (if Mentions(p, q[0].resource) then [] else [q[0]]) + LeftOver(p, q[1..])
  }

  predicate Mentions(p: seq<Entry>, resource: string) {
    exists i :: 0 <= i < |p| && p[i].resource == resource
  }

  lemma {:induction false} WidenedKeys(p: seq<Entry>, q: seq<Entry>)
    ensures forall i :: 0 <= i < |p| ==> Widened(p, q)[i].resource == p[i].resource
    decreases |p|
  {
    if p != [] {
      WidenedKeys(p[1..], q);
    }
  }

  lemma {:induction false} LeftOverKeys(p: seq<Entry>, q: seq<Entry>)
    requires OneEntryEach(q)
    ensures OneEntryEach(LeftOver(p, q))
    ensures forall i :: 0 <= i < |LeftOver(p, q)| ==>
              !Mentions(p, LeftOver(p, q)[i].resource) && LeftOver(p, q)[i] in q
    decreases |q|
  {
    if q != [] {
      LeftOverKeys(p, q[1..]);
      var rest := LeftOver(p, q[1..]);
      forall i | 0 <= i < |rest| ensures rest[i].resource != q[0].resource {
        var j :| 0 <= j < |q[1..]| && q[1..][j] == rest[i];
        assert q[j + 1] == rest[i];
      }
    }
  }

  lemma {:induction false} ActionsOnAppend(p: seq<Entry>, q: seq<Entry>, r: string)
    ensures ActionsOn(p + q, r) == if Mentions(p, r) then ActionsOn(p, r) else ActionsOn(q, r)
    decreases |p|
  {
    if p == [] {
      assert p + q == q;
    } else {
      assert (p + q)[1..] == p[1..] + q;
      ActionsOnAppend(p[1..], q, r);
      assert forall i :: 1 <= i < |p| ==> p[i] == p[1..][i - 1];
      assert Mentions(p, r) <==> p[0].resource == r || Mentions(p[1..], r);
    }
  }

  lemma {:induction false} ActionsOnWidened(p: seq<Entry>, q: seq<Entry>, r: string)
    ensures Mentions(Widened(p, q), r) <==> Mentions(p, r)
    ensures Mentions(p, r) ==> ActionsOn(Widened(p, q), r) == ActionsOn(p, r) + ActionsOn(q, r)
    ensures !Mentions(p, r) ==> ActionsOn(p, r) == []
    decreases |p|
  {
    WidenedKeys(p, q);
    if p != [] {
      ActionsOnWidened(p[1..], q, r);
      assert forall i :: 1 <= i < |p| ==> p[i] == p[1..][i - 1];
      assert Mentions(p, r) <==> p[0].resource == r || Mentions(p[1..], r);
    }
  }

  lemma {:induction false} ActionsOnLeftOver(p: seq<Entry>, q: seq<Entry>, r: string)
    requires !Mentions(p, r)
    ensures ActionsOn(LeftOver(p, q), r) == ActionsOn(q, r)
    decreases |q|
  {
    if q != [] {
      ActionsOnLeftOver(p, q[1..], r);
      var rest := LeftOver(p, q[1..]);
      assert Mentions(p, q[0].resource) ==> q[0].resource != r && LeftOver(p, q) == rest;
      assert !Mentions(p, q[0].resource) ==> LeftOver(p, q) == [q[0]] + rest && LeftOver(p, q)[1..] == rest;
    }
  }

  lemma {:induction false} BothHolds(p: Permissions, q: Permissions)
    ensures forall r, a :: Holds(Merged(p, q), r, a) <==> Holds(p, r, a) || Holds(q, r, a)
  {
    forall r, a ensures Holds(Merged(p, q), r, a) <==> Holds(p, r, a) || Holds(q, r, a) {
      ActionsOnAppend(Widened(p, q), LeftOver(p, q), r);
      ActionsOnWidened(p, q, r);
      if !Mentions(p, r) {
        ActionsOnLeftOver(p, q, r);
      }
    }
  }

  /** What can happen to an organization's permissions: someone assigns a role, in place of what the
      other user holds or on top of it, or a user is left with part of what they hold. */
  datatype Event =
    | Assign(granter: User, grantee: User, role: Permissions, onTop: bool)
    | Reduce(user: User, to: Permissions)

  /** A refused grant changes nothing. */
  function After(universe: Permissions, org: Org, e: Event): Org {
    match e
    case Assign(granter, grantee, role, onTop) =>
      if Missing(universe, PermissionsOf(org, granter), role) != [] then org
      else org[grantee := if onTop then Both(PermissionsOf(org, grantee), role) else role]
    case Reduce(user, to) =>
      if user in org && Reduces(org[user], to) then org[user := to] else org
  }

  predicate Reduces(p: Permissions, to: Permissions) {
    forall i :: 0 <= i < |to| ==> forall a :: a in to[i].actions ==> Holds(p, to[i].resource, a)
  }

  function Run(universe: Permissions, org: Org, events: seq<Event>): Org
    decreases |events|
  {
    if events == [] then org else Run(universe, After(universe, org, events[0]), events[1..])
  }

  ghost predicate SomeoneHolds(org: Org, r: string, a: string) {
    exists u :: u in org && Holds(org[u], r, a)
  }

  lemma {:induction false} OneGrantIsSafe(universe: Permissions, org: Org, e: Event, r: string, a: string)
    requires Counts(universe, r, a) && SomeoneHolds(After(universe, org, e), r, a)
    ensures SomeoneHolds(org, r, a)
  {
    var next := After(universe, org, e);
    var u :| u in next && Holds(next[u], r, a);
    match e {
      case Assign(granter, grantee, role, onTop) =>
        PassesExactlyWhenCovered(universe, PermissionsOf(org, granter), role);
        assert u != grantee || !Holds(role, r, a) || next == org || Holds(PermissionsOf(org, granter), r, a);
      case Reduce(user, to) =>
        FoundIsEntry(to, r);
    }
  }

  /** Over any sequence of grants, no permission that counts is held by anyone unless someone held it
      at the start. */
  lemma {:induction false} NoEscalation(universe: Permissions, org: Org, events: seq<Event>, r: string, a: string)
    requires Counts(universe, r, a) && SomeoneHolds(Run(universe, org, events), r, a)
    ensures SomeoneHolds(org, r, a)
    decreases |events|
  {
    if events != [] {
      NoEscalation(universe, After(universe, org, events[0]), events[1..], r, a);
      OneGrantIsSafe(universe, org, events[0], r, a);
    }
  }

  // ----- What admins are implied to hold -----

  const INSTALLATION := "mcpServerInstallation"

  predicate Crud(action: string) {
    action == "read" || action == "create" || action == "update" || action == "delete"
  }

  /** isPermissionActionGranted. */
  predicate Effective(p: Permissions, r: string, a: string) {
    Holds(p, r, a) || (r == INSTALLATION && Holds(p, r, "admin") && Crud(a))
  }

  ghost predicate SomeoneEffective(org: Org, r: string, a: string) {
    exists u :: u in org && Effective(org[u], r, a)
  }

  /** No run of grants lets anyone act as nobody could at the start. */
  ghost predicate NeverEscalates(universe: Permissions) {
    forall org: Org, events: seq<Event>, r: string, a: string ::
      Counts(universe, r, a) && SomeoneEffective(Run(universe, org, events), r, a) ==> SomeoneEffective(org, r, a)
  }

  /** The check looks at permissions as written, admins at permissions as implied. The two fit exactly
      when the universe lists the admin action, or none of the actions it implies. */
  lemma {:induction false} NeverEscalatesExactlyWhen(universe: Permissions)
    ensures NeverEscalates(universe)
       <==> Holds(universe, "mcpServerInstallation", "admin")
            || forall a :: a in {"read", "create", "update", "delete"} ==> !Holds(universe, "mcpServerInstallation", a)
  {
    assert forall a :: Crud(a) <==> a in {"read", "create", "update", "delete"};
    if Holds(universe, INSTALLATION, "admin") || forall a :: Crud(a) ==> !Holds(universe, INSTALLATION, a) {
      forall org: Org, events: seq<Event>, r, a
        | Counts(universe, r, a) && SomeoneEffective(Run(universe, org, events), r, a)
        ensures SomeoneEffective(org, r, a)
      {
        EffectiveRunIsSafe(universe, org, events, r, a);
      }
    } else {
      var a :| Crud(a) && Holds(universe, INSTALLATION, a);
      UnlistedAdminEscalates(universe, a);
    }
  }

  /** The shipped universe lists it. */
  lemma {:induction false} ShippedUniverseIsSafe(universe: Permissions)
    requires ActionsOn(universe, INSTALLATION) == ["read", "create", "update", "delete", "manage-deleted", "admin"]
    ensures NeverEscalates(universe)
  {
    assert ActionsOn(universe, INSTALLATION)[5] == "admin";
    NeverEscalatesExactlyWhen(universe);
  }

  lemma {:induction false} EffectiveRunIsSafe(universe: Permissions, org: Org, events: seq<Event>, r: string, a: string)
    requires Holds(universe, INSTALLATION, "admin") || forall a' :: Crud(a') ==> !Holds(universe, INSTALLATION, a')
    requires Counts(universe, r, a) && SomeoneEffective(Run(universe, org, events), r, a)
    ensures SomeoneEffective(org, r, a)
  {
    var end := Run(universe, org, events);
    var u :| u in end && Effective(end[u], r, a);
    var held := if Holds(end[u], r, a) then a else "admin";
    assert SomeoneHolds(end, r, held);
    NoEscalation(universe, org, events, r, held);
    var v :| v in org && Holds(org[v], r, held);
    assert Effective(org[v], r, a);
  }

  /** With an unlisted admin action, a user with no permission at all grants it to themselves. */
  lemma {:induction false} UnlistedAdminEscalates(universe: Permissions, a: string)
    requires Crud(a) && Holds(universe, INSTALLATION, a) && !Holds(universe, INSTALLATION, "admin")
    ensures !NeverEscalates(universe)
  {
    var role: Permissions := [Entry(INSTALLATION, ["admin"])];
    var nobody: Permissions := [];
    var org: Org := map[0 := nobody];
    var events := [Assign(0, 0, role, false)];
    PassesExactlyWhenCovered(universe, nobody, role);
    assert Covers(universe, nobody, role) by {
      forall r, b | Counts(universe, r, b) && Holds(role, r, b) ensures Holds(nobody, r, b) {
        assert ActionsOn(role[1..], r) == [];
      }
    }
    var end := Run(universe, org, events);
    assert end == Run(universe, After(universe, org, events[0]), events[1..]) == org[0 := role];
    assert "admin" in ActionsOn(role, INSTALLATION);
    assert Effective(end[0], INSTALLATION, a);
    assert SomeoneEffective(Run(universe, org, events), INSTALLATION, a) && !SomeoneEffective(org, INSTALLATION, a);
    assert !Exempt(INSTALLATION) && Counts(universe, INSTALLATION, a);
  }

  /** A granter who could do everything a role allows is still refused exactly when the role lists an
      installation action that they hold only as admins. */
  lemma {:induction false} RefusedThoughAble(universe: Permissions, granter: Permissions, role: Permissions)
    requires forall r, a :: Counts(universe, r, a) && Holds(role, r, a) ==> Effective(granter, r, a)
    ensures Missing(universe, granter, role) != []
       <==> Holds(granter, INSTALLATION, "admin")
            && exists a :: Crud(a) && Holds(universe, INSTALLATION, a) && Holds(role, INSTALLATION, a)
                           && !Holds(granter, INSTALLATION, a)
  {
    PassesExactlyWhenCovered(universe, granter, role);
    assert !Exempt(INSTALLATION);
    if Missing(universe, granter, role) != [] {
      var r, a :| Counts(universe, r, a) && Holds(role, r, a) && !Holds(granter, r, a);
      assert Effective(granter, r, a) && Crud(a);
    } else {
      forall a | Crud(a) && Holds(universe, INSTALLATION, a) && Holds(role, INSTALLATION, a)
        ensures Holds(granter, INSTALLATION, a)
      {
        assert Counts(universe, INSTALLATION, a);
      }
    }
  }
}
