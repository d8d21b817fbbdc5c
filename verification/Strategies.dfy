// Layered settings: api/internal/strategy/resolver.go and the flattening of stored
// strategies in api/internal/devices/handler.go.
module Strategies {
  import opened Wrappers

  type Settings = map<string, string>

  // An assignment's target type is free text; only these three are ever looked for.
  const DEVICE := "device"
  const USER := "user"
  const DEVICE_GROUP := "device_group"

  // Lowest precedence first: the order in which the resolver makes its passes.
  const LEVELS := [DEVICE_GROUP, USER, DEVICE]

  datatype Strategy = Strategy(id: int, name: string, enabled: bool, settings: Settings)

  datatype Assignment = Assignment(strategyId: int, targetType: string, targetId: int)

  datatype Context = Context(deviceId: int, userId: Option<int>, deviceGroupIds: seq<int>)

  datatype Resolution = Resolution(settings: Settings, applied: seq<int>)

  datatype Resolver = Resolver(strategies: seq<Strategy>, assignments: seq<Assignment>, default: Strategy)

  // ------------------------------------------------------------------------
  // The resolver.

  predicate AssignmentMatches(a: Assignment, ctx: Context) {
    if a.targetType == DEVICE then a.targetId == ctx.deviceId
    else if a.targetType == USER then ctx.userId == Some(a.targetId)
    else a.targetType == DEVICE_GROUP && a.targetId in ctx.deviceGroupIds
  }

  function Find(strategies: seq<Strategy>, id: int): Option<Strategy> {
    if strategies == [] then None
    else if strategies[0].id == id then Some(strategies[0])
    else Find(strategies[1..], id)
  }

  // The strategy an assignment contributes at a level, if it contributes one.
  function Contribution(strategies: seq<Strategy>, a: Assignment, level: string, ctx: Context): Option<Strategy> {
    if a.targetType == level && AssignmentMatches(a, ctx) then
      var found := Find(strategies, a.strategyId);
      if found.Some? && found.value.enabled then found else None
    else None
  }

  // The strategies one pass applies, in order.
  function Pass(strategies: seq<Strategy>, assignments: seq<Assignment>, level: string, ctx: Context): seq<Strategy> {
    if assignments == [] then []
    else
      var c := Contribution(strategies, Last(assignments), level, ctx);
      Pass(strategies, Front(assignments), level, ctx) + if c.Some? then [c.value] else []
  }

  // All strategies applied, in order.
  function Applied(r: Resolver, ctx: Context): seq<Strategy> {
    (if r.default.enabled then [r.default] else [])
    + Pass(r.strategies, r.assignments, DEVICE_GROUP, ctx)
    + Pass(r.strategies, r.assignments, USER, ctx)
    + Pass(r.strategies, r.assignments, DEVICE, ctx)
  }

  function MergeAll(applied: seq<Strategy>): Settings {
    if applied == [] then map[] else MergeAll(Front(applied)) + Last(applied).settings
  }

  function Ids(applied: seq<Strategy>): seq<int> {
    if applied == [] then [] else Ids(Front(applied)) + [Last(applied).id]
  }

  function Resolved(r: Resolver, ctx: Context): Resolution {
    Resolution(MergeAll(Applied(r, ctx)), Ids(Applied(r, ctx)))
  }

  // merge(dst, src), one key at a time in whatever order the map is walked.
  method Merge(dst: Settings, src: Settings) returns (merged: Settings)
    ensures merged == dst + src
  {
    merged := dst;
    var rest := src.Keys;
    while rest != {}
      invariant rest <= src.Keys
      invariant merged == dst + (map key | key in src && key !in rest :: src[key])
      decreases rest
    {
      var key :| key in rest;
      rest := rest - {key};
      merged := merged[key := src[key]];
    }
    assert (map key | key in src && key !in rest :: src[key]) == src;
  }

  method FindStrategy(strategies: seq<Strategy>, id: int) returns (found: Option<Strategy>)
    ensures found == Find(strategies, id)
  {
    for i := 0 to |strategies|
      invariant Find(strategies, id) == Find(strategies[i..], id)
    {
      if strategies[i].id == id {
        return Some(strategies[i]);
      }
      assert strategies[i..][1..] == strategies[i + 1..];
    }
    found := None;
  }

  method Matches(a: Assignment, ctx: Context) returns (matches: bool)
    ensures matches == AssignmentMatches(a, ctx)
  {
    if a.targetType == DEVICE {
      return a.targetId == ctx.deviceId;
    }
    if a.targetType == USER {
      return ctx.userId.Some? && a.targetId == ctx.userId.value;
    }
    if a.targetType == DEVICE_GROUP {
      for i := 0 to |ctx.deviceGroupIds|
        invariant a.targetId !in ctx.deviceGroupIds[..i]
      {
        if a.targetId == ctx.deviceGroupIds[i] {
          return true;
        }
      }
    }
    matches := false;
  }

  lemma MergeOneMore(applied: seq<Strategy>, s: Strategy)
    ensures MergeAll(applied + [s]) == MergeAll(applied) + s.settings && Ids(applied + [s]) == Ids(applied) + [s.id]
  {
    FrontOfAppend(applied, s);
  }

  lemma PassAppend(strategies: seq<Strategy>, assignments: seq<Assignment>, a: Assignment, level: string, ctx: Context)
    ensures var c := Contribution(strategies, a, level, ctx);
            Pass(strategies, assignments + [a], level, ctx)
            == Pass(strategies, assignments, level, ctx) + if c.Some? then [c.value] else []
  {
    FrontOfAppend(assignments, a);
  }

  // The strategy to apply for one assignment in one pass.
  method Contributes(r: Resolver, a: Assignment, level: string, ctx: Context) returns (c: Option<Strategy>)
    ensures c == Contribution(r.strategies, a, level, ctx)
  {
    if a.targetType == level {
      var matches := Matches(a, ctx);
      if matches {
        var found := FindStrategy(r.strategies, a.strategyId);
        if found.Some? && found.value.enabled {
          return found;
        }
      }
    }
    c := None;
  }

  // One of the three passes over the assignments.
  method ApplyPass(
        r: Resolver, level: string, ctx: Context, ghost before: seq<Strategy>, start: Settings, ids: seq<int>)
    returns (settings: Settings, applied: seq<int>)
    requires start == MergeAll(before) && ids == Ids(before)
    ensures settings == MergeAll(before + Pass(r.strategies, r.assignments, level, ctx))
    ensures applied == Ids(before + Pass(r.strategies, r.assignments, level, ctx))
  {
    settings, applied := start, ids;
    ghost var done := before;
    assert before + [] == before;
    for i := 0 to |r.assignments|
      invariant done == before + Pass(r.strategies, r.assignments[..i], level, ctx)
      invariant settings == MergeAll(done) && applied == Ids(done)
    {
      assert r.assignments[..i + 1] == r.assignments[..i] + [r.assignments[i]];
      PassAppend(r.strategies, r.assignments[..i], r.assignments[i], level, ctx);
      ghost var pass := Pass(r.strategies, r.assignments[..i], level, ctx);
      var c := Contributes(r, r.assignments[i], level, ctx);
      if c.Some? {
        MergeOneMore(done, c.value);
        ConcatAssociates(before, pass, [c.value]);
        settings := Merge(settings, c.value.settings);
        applied := applied + [c.value.id];
        done := done + [c.value];
      } else {
        assert pass + [] == pass;
      }
    }
    assert r.assignments[..|r.assignments|] == r.assignments;
  }

  // What is applied after the first n levels.
  function AppliedThrough(r: Resolver, ctx: Context, n: nat): seq<Strategy>
    requires n <= |LEVELS|
  {
    if n == 0 then if r.default.enabled then [r.default] else []
    else AppliedThrough(r, ctx, n - 1) + Pass(r.strategies, r.assignments, LEVELS[n - 1], ctx)
  }

  lemma AppliedThroughAllLevels(r: Resolver, ctx: Context)
    ensures AppliedThrough(r, ctx, |LEVELS|) == Applied(r, ctx)
  {
    assert AppliedThrough(r, ctx, 1)
           == AppliedThrough(r, ctx, 0) + Pass(r.strategies, r.assignments, DEVICE_GROUP, ctx);
    assert AppliedThrough(r, ctx, 2) == AppliedThrough(r, ctx, 1) + Pass(r.strategies, r.assignments, USER, ctx);
  }

  method Resolve(r: Resolver, ctx: Context) returns (result: Resolution)
    ensures result == Resolved(r, ctx)
  {
    var settings: Settings, applied: seq<int> := map[], [];
    ghost var done: seq<Strategy> := [];
    if r.default.enabled {
      settings := Merge(settings, r.default.settings);
      applied := applied + [r.default.id];
      done := [r.default];
      MergeOneMore([], r.default);
      assert [] + [r.default] == [r.default];
    }
    for i := 0 to |LEVELS|
      invariant settings == MergeAll(done) && applied == Ids(done)
      invariant done == AppliedThrough(r, ctx, i)
    {
      settings, applied := ApplyPass(r, LEVELS[i], ctx, done, settings, applied);
      done := done + Pass(r.strategies, r.assignments, LEVELS[i], ctx);
    }
    AppliedThroughAllLevels(r, ctx);
    result := Resolution(settings, applied);
  }

  // ------------------------------------------------------------------------
  // Last writer wins, said without merging anything.

  // The last strategy in the list that sets this key.
  function LastSetter(applied: seq<Strategy>, key: string): Option<Strategy> {
    if applied == [] then None
    else if key in Last(applied).settings then Some(Last(applied))
    else LastSetter(Front(applied), key)
  }

  lemma {:induction false} MergeKeepsTheLast(applied: seq<Strategy>, key: string)
    ensures key in MergeAll(applied) <==> LastSetter(applied, key).Some?
    ensures LastSetter(applied, key).Some? ==>
              key in LastSetter(applied, key).value.settings
              && MergeAll(applied)[key] == LastSetter(applied, key).value.settings[key]
  {
    if applied != [] {
      MergeKeepsTheLast(Front(applied), key);
    }
  }

  lemma {:induction false} LastSetterOfConcat(a: seq<Strategy>, b: seq<Strategy>, key: string)
    ensures LastSetter(a + b, key) == if LastSetter(b, key).Some? then LastSetter(b, key) else LastSetter(a, key)
  {
    if b == [] {
      assert a + b == a;
    } else {
      LastSetterOfConcat(a, Front(b), key);
      assert Front(a + b) == a + Front(b);
    }
  }

  lemma LastSetterOfFour(a: seq<Strategy>, b: seq<Strategy>, c: seq<Strategy>, d: seq<Strategy>, key: string)
    ensures LastSetter(a + b + c + d, key)
            == if LastSetter(d, key).Some? then LastSetter(d, key)
               else if LastSetter(c, key).Some? then LastSetter(c, key)
               else if LastSetter(b, key).Some? then LastSetter(b, key)
               else LastSetter(a, key)
  {
    LastSetterOfConcat(a, b, key);
    LastSetterOfConcat(a + b, c, key);
    LastSetterOfConcat(a + b + c, d, key);
  }

  // Assignment j decides the key at this level: it contributes a strategy that sets it and
  // no later assignment does.
  predicate DecidesAt(r: Resolver, level: string, ctx: Context, key: string, j: nat)
    requires j < |r.assignments|
  {
    var c := Contribution(r.strategies, r.assignments[j], level, ctx);
    c.Some? && key in c.value.settings
  }

  // The last assignment that sets the key at this level, or the number of assignments.
  function LastAt(r: Resolver, level: string, ctx: Context, key: string, n: nat): (j: nat)
    requires n <= |r.assignments|
    ensures j < n || j == |r.assignments|
    ensures j < |r.assignments| ==> DecidesAt(r, level, ctx, key, j)
    ensures forall k :: 0 <= k < n && (j == |r.assignments| || j < k) ==> !DecidesAt(r, level, ctx, key, k)
  {
    if n == 0 then |r.assignments|
    else if DecidesAt(r, level, ctx, key, n - 1) then n - 1
    else LastAt(r, level, ctx, key, n - 1)
  }

  // The strategy that wins a key: the device's last one, else the user's, else a group's,
  // else the default.
  function Winner(r: Resolver, ctx: Context, key: string): Option<Strategy> {
    var n := |r.assignments|;
    var device, user, group :=
      LastAt(r, DEVICE, ctx, key, n), LastAt(r, USER, ctx, key, n), LastAt(r, DEVICE_GROUP, ctx, key, n);
    if device < n then Find(r.strategies, r.assignments[device].strategyId)
    else if user < n then Find(r.strategies, r.assignments[user].strategyId)
    else if group < n then Find(r.strategies, r.assignments[group].strategyId)
    else if r.default.enabled && key in r.default.settings then Some(r.default)
    else None
  }

  // The last strategy that the first n assignments let this level set the key.
  function SetterIn(r: Resolver, level: string, ctx: Context, key: string, n: nat): Option<Strategy>
    requires n <= |r.assignments|
  {
    LastSetter(Pass(r.strategies, r.assignments[..n], level, ctx), key)
  }

  lemma SetterStep(r: Resolver, level: string, ctx: Context, key: string, n: nat)
    requires n < |r.assignments|
    ensures SetterIn(r, level, ctx, key, n + 1)
            == if DecidesAt(r, level, ctx, key, n) then Find(r.strategies, r.assignments[n].strategyId)
               else SetterIn(r, level, ctx, key, n)
  {
    var c := Contribution(r.strategies, r.assignments[n], level, ctx);
    var before, more := Pass(r.strategies, r.assignments[..n], level, ctx), if c.Some? then [c.value] else [];
    assert r.assignments[..n + 1] == r.assignments[..n] + [r.assignments[n]];
    PassAppend(r.strategies, r.assignments[..n], r.assignments[n], level, ctx);
    LastSetterOfConcat(before, more, key);
    if c.Some? {
      assert Front([c.value]) == [];
    }
  }

  lemma {:induction false} PassKeepsTheLast(r: Resolver, level: string, ctx: Context, key: string, n: nat)
    requires n <= |r.assignments|
    ensures var j := LastAt(r, level, ctx, key, n);
            SetterIn(r, level, ctx, key, n)
            == if j < |r.assignments| then Find(r.strategies, r.assignments[j].strategyId) else None
  {
    if n > 0 {
      PassKeepsTheLast(r, level, ctx, key, n - 1);
      SetterStep(r, level, ctx, key, n - 1);
    }
  }

  lemma PassWinner(r: Resolver, level: string, ctx: Context, key: string)
    ensures var j := LastAt(r, level, ctx, key, |r.assignments|);
            LastSetter(Pass(r.strategies, r.assignments, level, ctx), key)
            == if j < |r.assignments| then Find(r.strategies, r.assignments[j].strategyId) else None
    ensures LastAt(r, level, ctx, key, |r.assignments|) < |r.assignments| ==>
              LastSetter(Pass(r.strategies, r.assignments, level, ctx), key).Some?
  {
    assert r.assignments[..|r.assignments|] == r.assignments;
    PassKeepsTheLast(r, level, ctx, key, |r.assignments|);
  }

  lemma WinnerIsTheLastSetter(r: Resolver, ctx: Context, key: string)
    ensures LastSetter(Applied(r, ctx), key) == Winner(r, ctx, key)
  {
    PassWinner(r, DEVICE_GROUP, ctx, key);
    PassWinner(r, USER, ctx, key);
    PassWinner(r, DEVICE, ctx, key);
    DefaultSetter(r, key);
    LastSetterOfFour(if r.default.enabled then [r.default] else [],
                     Pass(r.strategies, r.assignments, DEVICE_GROUP, ctx), Pass(r.strategies, r.assignments, USER, ctx),
                     Pass(r.strategies, r.assignments, DEVICE, ctx), key);
  }

  lemma DefaultSetter(r: Resolver, key: string)
    ensures LastSetter(if r.default.enabled then [r.default] else [], key)
            == if r.default.enabled && key in r.default.settings then Some(r.default) else None
  {
    assert Front([r.default]) == [];
  }

  // Three merging passes come to this: every key has the value its winner gives it, and
  // keys nobody sets are absent.
  lemma LastWriterWins(r: Resolver, ctx: Context, key: string)
    ensures key in Resolved(r, ctx).settings <==> Winner(r, ctx, key).Some?
    ensures Winner(r, ctx, key).Some? ==>
              key in Winner(r, ctx, key).value.settings
              && Resolved(r, ctx).settings[key] == Winner(r, ctx, key).value.settings[key]
  {
    WinnerIsTheLastSetter(r, ctx, key);
    MergeKeepsTheLast(Applied(r, ctx), key);
  }

  // ------------------------------------------------------------------------
  // Only the order within a level matters.

  function AtLevel(assignments: seq<Assignment>, level: string): seq<Assignment> {
    if assignments == [] then []
    else AtLevel(Front(assignments), level) + if Last(assignments).targetType == level then [Last(assignments)] else []
  }

  lemma {:induction false} PassSeesItsLevelOnly(
        strategies: seq<Strategy>, assignments: seq<Assignment>, level: string, ctx: Context)
    ensures Pass(strategies, assignments, level, ctx) == Pass(strategies, AtLevel(assignments, level), level, ctx)
  {
    if assignments != [] {
      PassSeesItsLevelOnly(strategies, Front(assignments), level, ctx);
      var kept := AtLevel(Front(assignments), level);
      if Last(assignments).targetType == level {
        FrontOfAppend(kept, Last(assignments));
      } else {
        assert AtLevel(assignments, level) == kept;
        assert Pass(strategies, assignments, level, ctx) == Pass(strategies, Front(assignments), level, ctx);
      }
    }
  }

  // Rearranging assignments in any way that keeps the order within each of the three
  // levels changes neither the settings nor the list of applied strategies.
  lemma ReorderingAcrossLevels(r: Resolver, assignments: seq<Assignment>, ctx: Context)
    requires forall i :: 0 <= i < |LEVELS| ==> AtLevel(assignments, LEVELS[i]) == AtLevel(r.assignments, LEVELS[i])
    ensures Resolved(r.(assignments := assignments), ctx) == Resolved(r, ctx)
  {
    assert LEVELS[0] == DEVICE_GROUP && LEVELS[1] == USER && LEVELS[2] == DEVICE;
    PassSeesItsLevelOnly(r.strategies, assignments, DEVICE_GROUP, ctx);
    PassSeesItsLevelOnly(r.strategies, r.assignments, DEVICE_GROUP, ctx);
    PassSeesItsLevelOnly(r.strategies, assignments, USER, ctx);
    PassSeesItsLevelOnly(r.strategies, r.assignments, USER, ctx);
    PassSeesItsLevelOnly(r.strategies, assignments, DEVICE, ctx);
    PassSeesItsLevelOnly(r.strategies, r.assignments, DEVICE, ctx);
  }

  // ------------------------------------------------------------------------
  // The result over what assignments name.

  // What an assignment has to name to reach this device, its user, or one of its groups.
  function DeviceTargets(ctx: Context): set<(string, int)> {
    {("device", ctx.deviceId)}
  }

  function UserTargets(ctx: Context): set<(string, int)> {
    if ctx.userId.Some? then {("user", ctx.userId.value)} else {}
  }

  function GroupTargets(ctx: Context): set<(string, int)> {
    set id | id in ctx.deviceGroupIds :: ("device_group", id)
  }

  // Strategy k is the first with this identifier.
  ghost predicate IsStrategy(strategies: seq<Strategy>, id: int, k: int) {
    0 <= k < |strategies| && strategies[k].id == id && forall j :: 0 <= j < k ==> strategies[j].id != id
  }

  // The assignment names one of the targets, and its strategy, number k, is enabled.
  ghost predicate Reaches(strategies: seq<Strategy>, a: Assignment, targets: set<(string, int)>, k: int) {
    (a.targetType, a.targetId) in targets && IsStrategy(strategies, a.strategyId, k) && strategies[k].enabled
  }

  // Assignment j names a target and brings strategy k, which sets the key.
  ghost predicate Brings(r: Resolver, targets: set<(string, int)>, key: string, j: int, k: int)
    requires 0 <= j < |r.assignments|
  {
    Reaches(r.strategies, r.assignments[j], targets, k) && key in r.strategies[k].settings
  }

  // ... and no later one brings any that does.
  ghost predicate LastToSet(r: Resolver, targets: set<(string, int)>, key: string, j: int, k: int) {
    && 0 <= j < |r.assignments| && Brings(r, targets, key, j, k)
    && forall i, l :: j < i < |r.assignments| ==> !Brings(r, targets, key, i, l)
  }

  ghost predicate NoneSets(r: Resolver, targets: set<(string, int)>, key: string) {
    forall i, l :: 0 <= i < |r.assignments| ==> !Brings(r, targets, key, i, l)
  }

  // The setting of the last of the assignments that name a target and set the key, or this
  // other value if there are none.
  ghost predicate Gives(
      r: Resolver, targets: set<(string, int)>, key: string, value: Option<string>, other: Option<string>)
  {
    if NoneSets(r, targets, key) then value == other
    else exists j, k :: LastToSet(r, targets, key, j, k) && value == Some(r.strategies[k].settings[key])
  }

  lemma {:induction false} FindsTheFirst(strategies: seq<Strategy>, id: int)
    ensures Find(strategies, id).Some? ==>
              exists k :: IsStrategy(strategies, id, k) && Find(strategies, id) == Some(strategies[k])
    ensures Find(strategies, id).None? ==> forall k :: !IsStrategy(strategies, id, k)
  {
    if strategies != [] && strategies[0].id != id {
      var rest := strategies[1..];
      FindsTheFirst(rest, id);
      if Find(rest, id).Some? {
        var k :| IsStrategy(rest, id, k) && Find(rest, id) == Some(rest[k]);
        assert IsStrategy(strategies, id, k + 1);
      } else {
        forall k
          ensures !IsStrategy(strategies, id, k)
        {
          if IsStrategy(strategies, id, k) {
            assert rest[k - 1].id == id;
            FirstExists(rest, id, k - 1);
          }
        }
      }
    } else if strategies != [] {
      assert IsStrategy(strategies, id, 0);
    }
  }

  lemma {:induction false} FirstExists(strategies: seq<Strategy>, id: int, n: nat)
    requires n < |strategies| && strategies[n].id == id
    ensures exists k :: IsStrategy(strategies, id, k)
    decreases n
  {
    if j :| 0 <= j < n && strategies[j].id == id {
      FirstExists(strategies, id, j);
    } else {
      assert IsStrategy(strategies, id, n);
    }
  }

  // The targets that a pass goes through, by the type it looks for.
  function TargetsOf(ctx: Context, level: string): set<(string, int)> {
    if level == "device" then DeviceTargets(ctx)
    else if level == "user" then UserTargets(ctx)
    else if level == "device_group" then GroupTargets(ctx)
    else {}
  }

  lemma MatchesItsTargets(a: Assignment, ctx: Context, level: string)
    ensures a.targetType == level && AssignmentMatches(a, ctx) <==> (a.targetType, a.targetId) in TargetsOf(ctx, level)
  {
    assert "device" != "user" && "device" != "device_group" && "user" != "device_group";
  }

  lemma OnlyOneIsFirst(strategies: seq<Strategy>, id: int, k: int, l: int)
    requires IsStrategy(strategies, id, k) && IsStrategy(strategies, id, l)
    ensures k == l
  {
  }

  // So the search gives the strategy of an assignment, whichever number it has.
  lemma FindsStrategy(strategies: seq<Strategy>, id: int)
    ensures Find(strategies, id).Some? <==> exists k :: IsStrategy(strategies, id, k)
    ensures forall k :: IsStrategy(strategies, id, k) ==> Find(strategies, id) == Some(strategies[k])
  {
    FindsTheFirst(strategies, id);
    if Find(strategies, id).Some? {
      var first :| IsStrategy(strategies, id, first) && Find(strategies, id) == Some(strategies[first]);
      forall k | IsStrategy(strategies, id, k)
        ensures k == first
      {
        OnlyOneIsFirst(strategies, id, k, first);
      }
    }
  }

  lemma ContributesIfReached(strategies: seq<Strategy>, a: Assignment, ctx: Context, level: string)
    ensures var c := Contribution(strategies, a, level, ctx);
            && (c.Some? <==> exists k :: Reaches(strategies, a, TargetsOf(ctx, level), k))
            && forall k :: Reaches(strategies, a, TargetsOf(ctx, level), k) ==> c == Some(strategies[k])
  {
    MatchesItsTargets(a, ctx, level);
    FindsStrategy(strategies, a.strategyId);
    if Contribution(strategies, a, level, ctx).Some? {
      var k :| IsStrategy(strategies, a.strategyId, k);
      assert Reaches(strategies, a, TargetsOf(ctx, level), k);
    }
  }

  lemma DecidesIfReached(r: Resolver, level: string, ctx: Context, key: string, i: nat)
    requires i < |r.assignments|
    ensures DecidesAt(r, level, ctx, key, i) <==> exists k :: Brings(r, TargetsOf(ctx, level), key, i, k)
    ensures forall k :: Reaches(r.strategies, r.assignments[i], TargetsOf(ctx, level), k) ==>
              Find(r.strategies, r.assignments[i].strategyId) == Some(r.strategies[k])
  {
    var targets := TargetsOf(ctx, level);
    ContributesIfReached(r.strategies, r.assignments[i], ctx, level);
    FindsStrategy(r.strategies, r.assignments[i].strategyId);
    if DecidesAt(r, level, ctx, key, i) {
      var k :| Reaches(r.strategies, r.assignments[i], targets, k);
      assert Brings(r, targets, key, i, k);
    }
  }

  function ValueOf(strategy: Option<Strategy>, key: string): Option<string> {
    if strategy.Some? && key in strategy.value.settings then Some(strategy.value.settings[key]) else None
  }

  lemma LevelGives(r: Resolver, level: string, ctx: Context, key: string, other: Option<string>)
    ensures var j := LastAt(r, level, ctx, key, |r.assignments|);
            Gives(r, TargetsOf(ctx, level), key,
                  if j < |r.assignments| then ValueOf(Find(r.strategies, r.assignments[j].strategyId), key) else other,
                  other)
  {
    var targets, j := TargetsOf(ctx, level), LastAt(r, level, ctx, key, |r.assignments|);
    forall i | 0 <= i < |r.assignments|
      ensures DecidesAt(r, level, ctx, key, i) <==> exists k :: Brings(r, targets, key, i, k)
    {
      DecidesIfReached(r, level, ctx, key, i);
    }
    forall i, l | 0 <= i < |r.assignments| && (j == |r.assignments| || j < i)
      ensures !Brings(r, targets, key, i, l)
    {
      assert !DecidesAt(r, level, ctx, key, i);
    }
    if j < |r.assignments| {
      DecidesIfReached(r, level, ctx, key, j);
      var k :| Brings(r, targets, key, j, k);
      assert LastToSet(r, targets, key, j, k);
    } else {
      assert NoneSets(r, targets, key);
    }
  }

  // Key by key, the result is the value from the last listed assignment that names the device
  // and whose strategy is enabled and sets the key; else from the last that names the user;
  // else from the last that names one of the groups; else the enabled default's. Without any
  // of these the key is absent.
  lemma ResolvedByTarget(r: Resolver, ctx: Context, key: string)
    ensures var settings := Resolved(r, ctx).settings;
            var value := if key in settings then Some(settings[key]) else None;
            var default := if r.default.enabled then ValueOf(Some(r.default), key) else None;
            exists byGroup, byUser ::
              && Gives(r, GroupTargets(ctx), key, byGroup, default)
              && Gives(r, UserTargets(ctx), key, byUser, byGroup)
              && Gives(r, DeviceTargets(ctx), key, value, byUser)
  {
    var n := |r.assignments|;
    var device, user, group :=
      LastAt(r, DEVICE, ctx, key, n), LastAt(r, USER, ctx, key, n), LastAt(r, DEVICE_GROUP, ctx, key, n);
    var settings := Resolved(r, ctx).settings;
    var value := if key in settings then Some(settings[key]) else None;
    var default := if r.default.enabled then ValueOf(Some(r.default), key) else None;
    var byGroup := if group < n then ValueOf(Find(r.strategies, r.assignments[group].strategyId), key) else default;
    var byUser := if user < n then ValueOf(Find(r.strategies, r.assignments[user].strategyId), key) else byGroup;
    LevelGives(r, DEVICE_GROUP, ctx, key, default);
    LevelGives(r, USER, ctx, key, byGroup);
    LevelGives(r, DEVICE, ctx, key, byUser);
    LastWriterWins(r, ctx, key);
    assert value == ValueOf(Winner(r, ctx, key), key);
  }

  // Which strategies a pass applies: for each assignment in turn, its strategy if the
  // assignment reaches it. A pass over two stretches of assignments is the two passes.
  lemma {:induction false} PassOfTwo(
      strategies: seq<Strategy>, a: seq<Assignment>, b: seq<Assignment>, level: string, ctx: Context)
    ensures Pass(strategies, a + b, level, ctx) == Pass(strategies, a, level, ctx) + Pass(strategies, b, level, ctx)
  {
    if b == [] {
      assert a + b == a;
    } else {
      var c := Contribution(strategies, Last(b), level, ctx);
      PassOfTwo(strategies, a, Front(b), level, ctx);
      assert a + b == (a + Front(b)) + [Last(b)];
      PassAppend(strategies, a + Front(b), Last(b), level, ctx);
      ConcatAssociates(Pass(strategies, a, level, ctx), Pass(strategies, Front(b), level, ctx),
                       if c.Some? then [c.value] else []);
    }
  }

  lemma PassOfOne(strategies: seq<Strategy>, a: Assignment, level: string, ctx: Context)
    ensures forall k :: Reaches(strategies, a, TargetsOf(ctx, level), k) ==>
              Pass(strategies, [a], level, ctx) == [strategies[k]]
    ensures (forall k :: !Reaches(strategies, a, TargetsOf(ctx, level), k)) ==> Pass(strategies, [a], level, ctx) == []
  {
    ContributesIfReached(strategies, a, ctx, level);
    PassAppend(strategies, [], a, level, ctx);
    assert [] + [a] == [a];
  }

  // The applied strategies are listed by their identifiers, in the order they are applied.
  lemma {:induction false} IdsInOrder(applied: seq<Strategy>)
    ensures |Ids(applied)| == |applied| && forall i :: 0 <= i < |applied| ==> Ids(applied)[i] == applied[i].id
  {
    if applied != [] {
      IdsInOrder(Front(applied));
    }
  }

  // An assignment that names none of these, whatever it does name, may as well not be there.
  lemma OthersDoNotMatter(r: Resolver, ctx: Context, i: nat)
    requires i < |r.assignments|
    requires (r.assignments[i].targetType, r.assignments[i].targetId)
             !in DeviceTargets(ctx) + UserTargets(ctx) + GroupTargets(ctx)
    ensures Resolved(r.(assignments := r.assignments[..i] + r.assignments[i + 1..]), ctx) == Resolved(r, ctx)
  {
    PassWithout(r, DEVICE_GROUP, ctx, i);
    PassWithout(r, USER, ctx, i);
    PassWithout(r, DEVICE, ctx, i);
  }

  lemma PassWithout(r: Resolver, level: string, ctx: Context, i: nat)
    requires i < |r.assignments|
    requires (r.assignments[i].targetType, r.assignments[i].targetId) !in TargetsOf(ctx, level)
    ensures Pass(r.strategies, r.assignments[..i] + r.assignments[i + 1..], level, ctx)
            == Pass(r.strategies, r.assignments, level, ctx)
  {
    var before, a, after := r.assignments[..i], r.assignments[i], r.assignments[i + 1..];
    assert r.assignments == before + ([a] + after);
    PassOfOne(r.strategies, a, level, ctx);
    assert Pass(r.strategies, [a], level, ctx) == [];
    PassSkips(r.strategies, before, a, after, level, ctx);
  }

  lemma PassSkips(
      strategies: seq<Strategy>, before: seq<Assignment>, a: Assignment, after: seq<Assignment>,
      level: string, ctx: Context)
    requires Pass(strategies, [a], level, ctx) == []
    ensures Pass(strategies, before + after, level, ctx) == Pass(strategies, before + ([a] + after), level, ctx)
  {
    var rest := Pass(strategies, after, level, ctx);
    PassOfTwo(strategies, [a], after, level, ctx);
    assert [] + rest == rest;
    PassOfTwo(strategies, before, after, level, ctx);
    PassOfTwo(strategies, before, [a] + after, level, ctx);
  }
}
