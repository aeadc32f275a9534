/** The order a plan is run in and the hooks that survive into it
    (migration-kit/scripts/apply.py:91-94, 672-694, 725-726). */
module Planning {
  import opened Wrappers
  import opened Surrogates
  import opened Migration
  import opened PyJson

  ghost predicate InOrder(tasks: seq<Task>) {
    forall i, j :: 0 <= i < j < |tasks| ==> Rank(tasks[i]) <= Rank(tasks[j])
  }

  ghost predicate AllWellBuilt(tasks: seq<Task>) {
    forall t :: t in tasks ==> WellBuilt(t)
  }

  function OfRank(tasks: seq<Task>, k: nat): seq<Task>
    decreases |tasks|
  {
    if tasks == [] then [] else (if Rank(tasks[0]) == k then [tasks[0]] else []) + OfRank(tasks[1..], k)
  }

  // ----- The sort -----

  lemma {:induction false} InsertKeepsOrder(t: Task, sorted: seq<Task>)
    requires InOrder(sorted)
    ensures InOrder(Insert(t, sorted))
    ensures forall u :: u in Insert(t, sorted) <==> u == t || u in sorted
    decreases |sorted|
  {
    if sorted != [] && Rank(t) > Rank(sorted[0]) {
      InsertKeepsOrder(t, sorted[1..]);
      assert sorted == [sorted[0]] + sorted[1..];
      var rest := Insert(t, sorted[1..]);
      forall j | 0 <= j < |rest| ensures Rank(sorted[0]) <= Rank(rest[j]) {
        assert rest[j] in rest;
      }
    }
  }

  lemma {:induction false} InsertKeepsRanks(t: Task, sorted: seq<Task>, k: nat)
    requires InOrder(sorted)
    ensures OfRank(Insert(t, sorted), k) == OfRank([t] + sorted, k)
    decreases |sorted|
  {
    if sorted != [] && Rank(t) > Rank(sorted[0]) {
      var head, tail := sorted[0], sorted[1..];
      InsertKeepsRanks(t, tail, k);
      assert ([t] + tail)[1..] == tail && ([t] + sorted)[1..] == sorted;
      assert ([head] + Insert(t, tail))[1..] == Insert(t, tail);
    }
  }

  lemma {:induction false} SortProperties(tasks: seq<Task>, k: nat)
    ensures InOrder(Sorted(tasks))
    ensures forall t :: t in Sorted(tasks) <==> t in tasks
    ensures OfRank(Sorted(tasks), k) == OfRank(tasks, k)
    decreases |tasks|
  {
    if tasks != [] {
      var rest := Sorted(tasks[1..]);
      SortProperties(tasks[1..], k);
      InsertKeepsOrder(tasks[0], rest);
      InsertKeepsRanks(tasks[0], rest, k);
      assert ([tasks[0]] + rest)[1..] == rest;
    }
  }

  lemma {:induction false} RankIsThere(tasks: seq<Task>, t: Task)
    requires t in tasks
    ensures OfRank(tasks, Rank(t)) != []
    decreases |tasks|
  {
    if tasks[0] != t {
      RankIsThere(tasks[1..], t);
    }
  }

  lemma {:induction false} OfRankIsFromTasks(tasks: seq<Task>, k: nat)
    ensures forall t :: t in OfRank(tasks, k) ==> t in tasks && Rank(t) == k
    decreases |tasks|
  {
    if tasks != [] {
      OfRankIsFromTasks(tasks[1..], k);
    }
  }

  lemma {:induction false} LeastFirst(a: seq<Task>, b: seq<Task>)
    requires a != [] && b != [] && InOrder(b) && forall k :: OfRank(a, k) == OfRank(b, k)
    ensures Rank(b[0]) <= Rank(a[0])
  {
    RankIsThere(a, a[0]);
    OfRankIsFromTasks(b, Rank(a[0]));
    var t := OfRank(b, Rank(a[0]))[0];
    assert t in OfRank(b, Rank(a[0]));
  }

  /** A stable sort has one result: in order, and unchanged within each rank. */
  lemma {:induction false} StableSortIsUnique(a: seq<Task>, b: seq<Task>)
    requires InOrder(a) && InOrder(b)
    requires forall k :: OfRank(a, k) == OfRank(b, k)
    ensures a == b
    decreases |a|
  {
    if a == [] {
      if b != [] {
        RankIsThere(b, b[0]);
        assert false;
      }
    } else {
      RankIsThere(a, a[0]);
      assert b != [];
      LeastFirst(a, b);
      LeastFirst(b, a);
      var k := Rank(a[0]);
      assert OfRank(a, k)[0] == a[0] && OfRank(b, k)[0] == b[0];
      forall j ensures OfRank(a[1..], j) == OfRank(b[1..], j) {
        assert OfRank(a, j) == OfRank(b, j);
        var n := if k == j then 1 else 0;
        assert OfRank(a, j)[n..] == OfRank(a[1..], j) && OfRank(b, j)[n..] == OfRank(b[1..], j);
      }
      StableSortIsUnique(a[1..], b[1..]);
      assert a == [a[0]] + a[1..] && b == [b[0]] + b[1..];
    }
  }

  // ----- Hook collisions -----

  /** The keys of the hooks, in order. */
  function HookKeys(tasks: seq<Task>): seq<HookKey>
    decreases |tasks|
  {
    if tasks == [] then []
    else (if IsHook(tasks[0]) then [HookKeyOf(tasks[0])] else []) + HookKeys(tasks[1..])
  }

  ghost predicate Distinct(keys: seq<HookKey>) {
    forall i, j :: 0 <= i < j < |keys| ==> keys[i] != keys[j]
  }

  /** The keys seen after a task. */
  function SeenAfter(t: Task, seen: set<HookKey>): set<HookKey> {
    if IsHook(t) then seen + {HookKeyOf(t)} else seen
  }

  lemma {:induction false} FlaggedTail(tasks: seq<Task>, seen: set<HookKey>)
    requires tasks != []
    ensures Flagged(tasks, seen)[1..] == Flagged(tasks[1..], SeenAfter(tasks[0], seen))
  {
    var t := tasks[0];
    if IsHook(t) && HookKeyOf(t) in seen {
      assert seen + {HookKeyOf(t)} == seen;
    }
  }

  /** The hooks that survive have distinct keys, and every key has one that does. */
  lemma {:induction false} SurvivingKeys(tasks: seq<Task>, seen: set<HookKey>)
    ensures Distinct(HookKeys(Flagged(tasks, seen)))
    ensures forall k :: k in HookKeys(Flagged(tasks, seen)) <==> k in HookKeys(tasks) && k !in seen
    decreases |tasks|
  {
    if tasks != [] {
      var out := Flagged(tasks, seen);
      var seen' := SeenAfter(tasks[0], seen);
      FlaggedTail(tasks, seen);
      SurvivingKeys(tasks[1..], seen');
      if IsHook(tasks[0]) {
        assert HookKeys(tasks) == [HookKeyOf(tasks[0])] + HookKeys(tasks[1..]);
      }
    }
  }

  /** A hook loses its operation exactly when an earlier one has its key; nothing else changes. */
  lemma {:induction false} FlaggedExactlyLater(tasks: seq<Task>, seen: set<HookKey>, i: nat)
    requires i < |tasks|
    ensures Flagged(tasks, seen)[i]
         == if IsHook(tasks[i]) && (HookKeyOf(tasks[i]) in seen || HookKeyOf(tasks[i]) in HookKeys(tasks[..i]))
            then tasks[i].(built := None) else tasks[i]
    decreases |tasks|
  {
    if i > 0 {
      var seen' := SeenAfter(tasks[0], seen);
      FlaggedTail(tasks, seen);
      FlaggedExactlyLater(tasks[1..], seen', i - 1);
      assert Flagged(tasks, seen)[1..][i - 1] == Flagged(tasks, seen)[i];
      assert tasks[..i][1..] == tasks[1..][..i - 1];
      assert tasks[1..][i - 1] == tasks[i];
    }
  }

  lemma {:induction false} FlaggingTwice(tasks: seq<Task>, seen: set<HookKey>)
    ensures Flagged(Flagged(tasks, seen), seen) == Flagged(tasks, seen)
    decreases |tasks|
  {
    if tasks != [] {
      var out := Flagged(tasks, seen);
      var seen' := SeenAfter(tasks[0], seen);
      FlaggedTail(tasks, seen);
      FlaggingTwice(tasks[1..], seen');
      FlaggedTail(out, seen);
      assert SeenAfter(out[0], seen) == seen';
    }
  }

  /** Hooks rank last, so the sort keeps them all and keeps their order. */
  lemma {:induction false} InsertKeepsHooks(t: Task, sorted: seq<Task>)
    requires WellBuilt(t) && AllWellBuilt(sorted)
    ensures HookKeys(Insert(t, sorted)) == HookKeys([t] + sorted)
    decreases |sorted|
  {
    assert ([t] + sorted)[1..] == sorted;
    if sorted != [] && Rank(t) > Rank(sorted[0]) {
      var head, tail := sorted[0], sorted[1..];
      assert head in sorted;
      InsertKeepsHooks(t, tail);
      assert ([t] + tail)[1..] == tail;
      assert ([head] + Insert(t, tail))[1..] == Insert(t, tail);
      if IsHook(head) {
        assert Rank(head) == 6 && t.target.None?;
      }
    }
  }

  lemma {:induction false} SortKeepsHooks(tasks: seq<Task>)
    requires AllWellBuilt(tasks)
    ensures HookKeys(Sorted(tasks)) == HookKeys(tasks)
    decreases |tasks|
  {
    if tasks != [] {
      SortKeepsHooks(tasks[1..]);
      SortProperties(tasks[1..], 0);
      InsertKeepsHooks(tasks[0], Sorted(tasks[1..]));
      assert ([tasks[0]] + Sorted(tasks[1..]))[1..] == Sorted(tasks[1..]);
    }
  }

  lemma {:induction false} FlaggedFromTasks(tasks: seq<Task>, seen: set<HookKey>)
    ensures forall t :: t in Flagged(tasks, seen) ==> t in tasks || t.built.None?
    decreases |tasks|
  {
    if tasks != [] {
      FlaggedFromTasks(tasks[1..], SeenAfter(tasks[0], seen));
      FlaggedTail(tasks, seen);
    }
  }

  /** The plan that is run: in order, and no two of its hooks share agent, event and file. */
  lemma {:induction false} PlannedProperties(tasks: seq<Task>)
    requires AllWellBuilt(tasks)
    ensures InOrder(Planned(tasks)) && AllWellBuilt(Planned(tasks))
    ensures Distinct(HookKeys(Planned(tasks)))
    ensures forall k :: k in HookKeys(Planned(tasks)) <==> k in HookKeys(tasks)
  {
    var flagged := Flagged(tasks, {});
    FlaggedFromTasks(tasks, {});
    SortProperties(flagged, 0);
    SortKeepsHooks(flagged);
    SurvivingKeys(tasks, {});
  }

  predicate Meet(a: Built, b: Built) {
    a.Hook? && b.Hook? && a.agent == b.agent && a.event == b.event && a.file == b.file
  }
}
