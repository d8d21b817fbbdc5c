// From stored strategies, each with its own assignments, to the resolver's flat lists.
module StrategyFlattening {
  import opened Wrappers
  import opened Strategies

  datatype Target = Target(targetType: string, targetId: int)

  // A stored strategy; settings is what its settings_json decodes to, if it is an object.
  datatype Stored = Stored(id: int, name: string, enabled: bool, settings: Option<Settings>, assignments: seq<Target>)

  const SECURE_DEFAULTS: Settings :=
    map["terminal" := "N", "tcp_tunnel" := "N", "allow-remote-config-modification" := "N"]

  const DEFAULT_STRATEGY := Strategy(0, "default-secure", true, SECURE_DEFAULTS)

  function StrategyOf(item: Stored): Strategy
    requires item.settings.Some?
  {
    Strategy(item.id, item.name, item.enabled, item.settings.value)
  }

  function AssignmentsOf(item: Stored): (r: seq<Assignment>)
    ensures |r| == |item.assignments|
  {
    seq(|item.assignments|, i requires 0 <= i < |item.assignments| =>
          Assignment(item.id, item.assignments[i].targetType, item.assignments[i].targetId))
  }

  ghost predicate Readable(items: seq<Stored>) {
    forall i :: 0 <= i < |items| ==> items[i].settings.Some?
  }

  function FlatStrategies(items: seq<Stored>): seq<Strategy>
    requires Readable(items)
  {
    if items == [] then [] else FlatStrategies(Front(items)) + [StrategyOf(Last(items))]
  }

  function FlatAssignments(items: seq<Stored>): seq<Assignment> {
    if items == [] then [] else FlatAssignments(Front(items)) + AssignmentsOf(Last(items))
  }

  function Flattened(items: seq<Stored>): Resolver
    requires Readable(items)
  {
    Resolver(FlatStrategies(items), FlatAssignments(items), DEFAULT_STRATEGY)
  }

  // Fails on the first strategy whose settings are not a JSON object, naming it.
  method BuildStrategyResolver(items: seq<Stored>) returns (r: Result<Resolver, int>)
    ensures r.Ok? <==> Readable(items)
    ensures r.Ok? ==> r.value == Flattened(items)
    ensures r.Err? ==>
              exists i :: 0 <= i < |items| && items[i].id == r.error
                && items[i].settings == None && Readable(items[..i])
  {
    var resolver := Resolver([], [], DEFAULT_STRATEGY);
    for i := 0 to |items|
      invariant Readable(items[..i]) && resolver == Flattened(items[..i])
    {
      var item := items[i];
      if item.settings.None? {
        return Err(item.id);
      }
      assert Front(items[..i + 1]) == items[..i] && Last(items[..i + 1]) == item;
      ghost var before := resolver.assignments;
      var strategy := Strategy(item.id, item.name, item.enabled, item.settings.value);
      resolver := resolver.(strategies := resolver.strategies + [strategy]);
      for j := 0 to |item.assignments|
        invariant resolver.strategies == FlatStrategies(items[..i + 1]) && resolver.default == DEFAULT_STRATEGY
        invariant resolver.assignments == before + AssignmentsOf(item)[..j]
      {
        var a := item.assignments[j];
        resolver := resolver.(assignments := resolver.assignments + [Assignment(item.id, a.targetType, a.targetId)]);
        assert AssignmentsOf(item)[..j + 1] == AssignmentsOf(item)[..j] + [AssignmentsOf(item)[j]];
      }
      assert AssignmentsOf(item)[..|item.assignments|] == AssignmentsOf(item);
    }
    assert items[..|items|] == items;
    r := Ok(resolver);
  }

  // ------------------------------------------------------------------------
  // The direct meaning: each stored strategy against its own assignments, level by level.

  // How often one strategy is applied at a level: once per matching assignment of its own.
  function OwnContributions(item: Stored, targets: seq<Target>, level: string, ctx: Context): seq<Strategy>
    requires item.settings.Some?
  {
    if targets == [] then []
    else
      var t := Last(targets);
      OwnContributions(item, Front(targets), level, ctx) + OwnContribution(item, t, level, ctx)
  }

  function DirectPass(items: seq<Stored>, level: string, ctx: Context): seq<Strategy>
    requires Readable(items)
  {
    if items == [] then []
    else DirectPass(Front(items), level, ctx) + OwnContributions(Last(items), Last(items).assignments, level, ctx)
  }

  function DirectlyApplied(items: seq<Stored>, ctx: Context): seq<Strategy>
    requires Readable(items)
  {
    [DEFAULT_STRATEGY] + DirectPass(items, DEVICE_GROUP, ctx)
    + DirectPass(items, USER, ctx) + DirectPass(items, DEVICE, ctx)
  }

  ghost predicate DistinctIds(items: seq<Stored>) {
    forall i, j :: 0 <= i < j < |items| ==> items[i].id != items[j].id
  }

  lemma {:induction false} FindAppend(strategies: seq<Strategy>, s: Strategy, id: int)
    ensures Find(strategies + [s], id)
            == if Find(strategies, id).Some? then Find(strategies, id) else if s.id == id then Some(s) else None
  {
    if strategies == [] {
      assert (strategies + [s])[1..] == [];
    } else {
      FindAppend(strategies[1..], s, id);
      assert (strategies + [s])[1..] == strategies[1..] + [s];
    }
  }

  // With distinct identifiers each stored strategy is found again under its own.
  lemma {:induction false} StoredIsFound(items: seq<Stored>, id: int)
    requires Readable(items) && DistinctIds(items)
    ensures Find(FlatStrategies(items), id).Some? <==> exists k :: 0 <= k < |items| && items[k].id == id
    ensures forall k :: 0 <= k < |items| && items[k].id == id ==>
              Find(FlatStrategies(items), id) == Some(StrategyOf(items[k]))
  {
    if items != [] {
      StoredIsFound(Front(items), id);
      FindAppend(FlatStrategies(Front(items)), StrategyOf(Last(items)), id);
      assert forall k :: 0 <= k < |items| ==> items[k] == if k < |items| - 1 then Front(items)[k] else Last(items);
    }
  }

  // What one assignment of a stored strategy contributes.
  function OwnContribution(item: Stored, t: Target, level: string, ctx: Context): seq<Strategy>
    requires item.settings.Some?
  {
    if item.enabled && t.targetType == level
       && AssignmentMatches(Assignment(item.id, t.targetType, t.targetId), ctx)
    then [StrategyOf(item)] else []
  }

  lemma OwnPassStep(strategies: seq<Strategy>, item: Stored, n: nat, level: string, ctx: Context)
    requires n < |item.assignments| && item.settings.Some?
    requires Find(strategies, item.id) == Some(StrategyOf(item))
    ensures Pass(strategies, AssignmentsOf(item)[..n + 1], level, ctx)
            == Pass(strategies, AssignmentsOf(item)[..n], level, ctx)
               + OwnContribution(item, item.assignments[n], level, ctx)
  {
    var all := AssignmentsOf(item);
    assert all[..n + 1] == all[..n] + [all[n]];
    PassAppend(strategies, all[..n], all[n], level, ctx);
  }

  lemma OwnContributionsStep(item: Stored, n: nat, level: string, ctx: Context)
    requires n < |item.assignments| && item.settings.Some?
    ensures OwnContributions(item, item.assignments[..n + 1], level, ctx)
            == OwnContributions(item, item.assignments[..n], level, ctx)
               + OwnContribution(item, item.assignments[n], level, ctx)
  {
    assert Front(item.assignments[..n + 1]) == item.assignments[..n];
  }

  lemma {:induction false} OwnPass(strategies: seq<Strategy>, item: Stored, n: nat, level: string, ctx: Context)
    requires n <= |item.assignments| && item.settings.Some?
    requires Find(strategies, item.id) == Some(StrategyOf(item))
    ensures Pass(strategies, AssignmentsOf(item)[..n], level, ctx)
            == OwnContributions(item, item.assignments[..n], level, ctx)
  {
    if n > 0 {
      OwnPass(strategies, item, n - 1, level, ctx);
      OwnPassStep(strategies, item, n - 1, level, ctx);
      OwnContributionsStep(item, n - 1, level, ctx);
    }
  }

  lemma WholeOwnPass(strategies: seq<Strategy>, item: Stored, level: string, ctx: Context)
    requires item.settings.Some? && Find(strategies, item.id) == Some(StrategyOf(item))
    ensures Pass(strategies, AssignmentsOf(item), level, ctx) == OwnContributions(item, item.assignments, level, ctx)
  {
    OwnPass(strategies, item, |item.assignments|, level, ctx);
    assert AssignmentsOf(item)[..|item.assignments|] == AssignmentsOf(item);
    assert item.assignments[..|item.assignments|] == item.assignments;
  }

  // Each of the items is found in the strategies under its own identifier.
  ghost predicate AllFound(strategies: seq<Strategy>, items: seq<Stored>)
    requires Readable(items)
  {
    forall k :: 0 <= k < |items| ==> Find(strategies, items[k].id) == Some(StrategyOf(items[k]))
  }

  lemma {:induction false} FlatPassIsDirect(strategies: seq<Strategy>, items: seq<Stored>, level: string, ctx: Context)
    requires Readable(items) && AllFound(strategies, items)
    ensures Pass(strategies, FlatAssignments(items), level, ctx) == DirectPass(items, level, ctx)
  {
    if items != [] {
      FlatPassIsDirect(strategies, Front(items), level, ctx);
      PassOfTwo(strategies, FlatAssignments(Front(items)), AssignmentsOf(Last(items)), level, ctx);
      WholeOwnPass(strategies, Last(items), level, ctx);
    }
  }

  // Flattening and looking every strategy up again by identifier loses nothing.
  lemma FlatteningIsFaithful(items: seq<Stored>, ctx: Context)
    requires Readable(items) && DistinctIds(items)
    ensures Applied(Flattened(items), ctx) == DirectlyApplied(items, ctx)
    ensures Resolved(Flattened(items), ctx)
            == Resolution(MergeAll(DirectlyApplied(items, ctx)), Ids(DirectlyApplied(items, ctx)))
  {
    var strategies := FlatStrategies(items);
    forall k | 0 <= k < |items|
      ensures Find(strategies, items[k].id) == Some(StrategyOf(items[k]))
    {
      StoredIsFound(items, items[k].id);
    }
    FlatPassIsDirect(strategies, items, DEVICE_GROUP, ctx);
    FlatPassIsDirect(strategies, items, USER, ctx);
    FlatPassIsDirect(strategies, items, DEVICE, ctx);
  }

  // The three secure defaults are set whatever is stored; a strategy can only change them.
  lemma SecureDefaultsArePresent(items: seq<Stored>, ctx: Context, key: string)
    requires Readable(items) && key in {"terminal", "tcp_tunnel", "allow-remote-config-modification"}
    ensures key in Resolved(Flattened(items), ctx).settings
    ensures (forall s :: s in AppliedAfterDefault(items, ctx) ==> key !in s.settings)
            ==> Resolved(Flattened(items), ctx).settings[key] == "N"
  {
    assert key in SECURE_DEFAULTS && SECURE_DEFAULTS[key] == "N";
    DefaultsArePresent(items, ctx, key);
  }

  lemma DefaultsArePresent(items: seq<Stored>, ctx: Context, key: string)
    requires Readable(items) && key in SECURE_DEFAULTS && SECURE_DEFAULTS[key] == "N"
    ensures key in Resolved(Flattened(items), ctx).settings
    ensures (forall s :: s in AppliedAfterDefault(items, ctx) ==> key !in s.settings)
            ==> Resolved(Flattened(items), ctx).settings[key] == "N"
  {
    var applied := Applied(Flattened(items), ctx);
    var rest := AppliedAfterDefault(items, ctx);
    assert applied == [DEFAULT_STRATEGY] + rest;
    LastSetterOfConcat([DEFAULT_STRATEGY], rest, key);
    assert Front([DEFAULT_STRATEGY]) == [];
    MergeKeepsTheLast(applied, key);
    SetterIsListed(rest, key);
  }

  // The flat lists hold each stored strategy as it is, and each of its assignments.
  lemma {:induction false} FlattenedKeeps(items: seq<Stored>)
    requires Readable(items)
    ensures var flat := Flattened(items);
            && |flat.strategies| == |items|
            && (forall i :: 0 <= i < |items| ==>
                  && flat.strategies[i].id == items[i].id && flat.strategies[i].name == items[i].name
                  && flat.strategies[i].enabled == items[i].enabled
                  && flat.strategies[i].settings == items[i].settings.value)
            && (forall a :: a in flat.assignments <==> exists i :: 0 <= i < |items| && Assigns(items[i], a))
            && flat.default.enabled && flat.default.id == 0
  {
    if items != [] {
      FlattenedKeeps(Front(items));
      var last := Last(items);
      forall a
        ensures a in AssignmentsOf(last) <==> Assigns(last, a)
      {
        AssignmentsAre(last, a);
      }
      assert forall i :: 0 <= i < |items| ==> items[i] == if i < |items| - 1 then Front(items)[i] else last;
    }
  }

  // The stored strategy has this assignment.
  predicate Assigns(item: Stored, a: Assignment) {
    && a.strategyId == item.id
    && exists j :: 0 <= j < |item.assignments| && item.assignments[j] == Target(a.targetType, a.targetId)
  }

  lemma AssignmentsAre(item: Stored, a: Assignment)
    ensures a in AssignmentsOf(item) <==> Assigns(item, a)
  {
    var all := AssignmentsOf(item);
    if a in all {
      var j :| 0 <= j < |all| && all[j] == a;
      assert item.assignments[j] == Target(a.targetType, a.targetId);
    }
    if Assigns(item, a) {
      var j :| 0 <= j < |item.assignments| && item.assignments[j] == Target(a.targetType, a.targetId);
      assert all[j] == a;
    }
  }

  // The strategies applied after the default.
  function AppliedAfterDefault(items: seq<Stored>, ctx: Context): seq<Strategy>
    requires Readable(items)
  {
    var r := Flattened(items);
    Pass(r.strategies, r.assignments, DEVICE_GROUP, ctx)
    + Pass(r.strategies, r.assignments, USER, ctx)
    + Pass(r.strategies, r.assignments, DEVICE, ctx)
  }

  lemma {:induction false} SetterIsListed(applied: seq<Strategy>, key: string)
    ensures LastSetter(applied, key).Some? ==>
              LastSetter(applied, key).value in applied && key in LastSetter(applied, key).value.settings
  {
    if applied != [] {
      SetterIsListed(Front(applied), key);
      assert forall s :: s in Front(applied) ==> s in applied;
    }
  }

  // ------------------------------------------------------------------------
  // The groups of a device.

  // A listed group, and its members if it still exists when they are asked for.
  datatype Group = Group(id: int, members: Option<seq<int>>)

  predicate HasMember(g: Group, deviceId: int) {
    g.members.Some? && deviceId in g.members.value
  }

  function GroupsOf(groups: seq<Group>, deviceId: int): (r: seq<int>) {
    if groups == [] then []
    else GroupsOf(Front(groups), deviceId) + if HasMember(Last(groups), deviceId) then [Last(groups).id] else []
  }

  method DeviceGroupIDs(groups: seq<Group>, deviceId: int) returns (out: seq<int>)
    ensures out == GroupsOf(groups, deviceId)
  {
    out := [];
    for i := 0 to |groups|
      invariant out == GroupsOf(groups[..i], deviceId)
    {
      assert Front(groups[..i + 1]) == groups[..i];
      if groups[i].members.None? {
        continue;
      }
      var members, before := groups[i].members.value, out;
      for j := 0 to |members|
        invariant deviceId !in members[..j] && out == before
      {
        if members[j] == deviceId {
          out := out + [groups[i].id];
          break;
        }
      }
    }
    assert groups[..|groups|] == groups;
  }

  lemma {:induction false} GroupsOfAreItsGroups(groups: seq<Group>, deviceId: int, id: int)
    ensures id in GroupsOf(groups, deviceId)
            <==> exists k :: 0 <= k < |groups| && groups[k].id == id && HasMember(groups[k], deviceId)
  {
    if groups != [] {
      GroupsOfAreItsGroups(Front(groups), deviceId, id);
      assert forall k :: 0 <= k < |groups| ==> groups[k] == if k < |groups| - 1 then Front(groups)[k] else Last(groups);
    }
  }

  lemma {:induction false} PassIgnoresGroupOrder(
        strategies: seq<Strategy>, assignments: seq<Assignment>, level: string, ctx: Context, ids: seq<int>)
    requires forall id :: id in ids <==> id in ctx.deviceGroupIds
    ensures Pass(strategies, assignments, level, ctx.(deviceGroupIds := ids))
            == Pass(strategies, assignments, level, ctx)
  {
    if assignments != [] {
      PassIgnoresGroupOrder(strategies, Front(assignments), level, ctx, ids);
      assert AssignmentMatches(Last(assignments), ctx.(deviceGroupIds := ids))
             == AssignmentMatches(Last(assignments), ctx);
    }
  }

  // A device's settings depend on which groups it is in, not on how the groups are listed.
  lemma GroupListingDoesNotMatter(r: Resolver, ctx: Context, a: seq<Group>, b: seq<Group>)
    requires forall g :: g in a <==> g in b
    ensures var deviceId := ctx.deviceId;
            Resolved(r, ctx.(deviceGroupIds := GroupsOf(a, deviceId)))
              == Resolved(r, ctx.(deviceGroupIds := GroupsOf(b, deviceId)))
  {
    var idsA, idsB := GroupsOf(a, ctx.deviceId), GroupsOf(b, ctx.deviceId);
    forall id
      ensures id in idsA <==> id in idsB
    {
      SameGroupIn(a, b, ctx.deviceId, id);
      SameGroupIn(b, a, ctx.deviceId, id);
    }
    var first := ctx.(deviceGroupIds := idsA);
    PassIgnoresGroupOrder(r.strategies, r.assignments, DEVICE_GROUP, first, idsB);
    PassIgnoresGroupOrder(r.strategies, r.assignments, USER, first, idsB);
    PassIgnoresGroupOrder(r.strategies, r.assignments, DEVICE, first, idsB);
  }

  lemma SameGroupIn(a: seq<Group>, b: seq<Group>, deviceId: int, id: int)
    requires forall g :: g in a ==> g in b
    ensures id in GroupsOf(a, deviceId) ==> id in GroupsOf(b, deviceId)
  {
    GroupsOfAreItsGroups(a, deviceId, id);
    GroupsOfAreItsGroups(b, deviceId, id);
    if k :| 0 <= k < |a| && a[k].id == id && HasMember(a[k], deviceId) {
      assert a[k] in b;
      var j :| 0 <= j < |b| && b[j] == a[k];
      assert HasMember(b[j], deviceId);
    }
  }
}
