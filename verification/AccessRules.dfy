// The access decision of api/internal/access/evaluator.go.
module AccessRules {
  import opened Wrappers
  import opened Sorting

  datatype User = User(id: int, status: string, groupIds: seq<int>)

  datatype Device = Device(id: int, status: string, groupIds: seq<int>)

  datatype Rule = Rule(
    id: int, subjectType: string, subjectId: int, targetType: string, targetId: int,
    effect: string, priority: int, enabled: bool)

  datatype Decision = Decision(allowed: bool, reason: string, matchedRule: Option<Rule>)

  // ------------------------------------------------------------------------
  // Matching and ranking.

  predicate RuleMatches(rule: Rule, user: User, target: Device) {
    && (if rule.subjectType == "user" then rule.subjectId == user.id
        else rule.subjectType == "user_group" && rule.subjectId in user.groupIds)
    && (if rule.targetType == "device" then rule.targetId == target.id
        else rule.targetType == "device_group" && rule.targetId in target.groupIds)
  }

  function Rank(rule: Rule): int {
    var shape := rule.subjectType + ":" + rule.targetType;
    if shape == "user:device" then 4
    else if shape == "user_group:device" then 3
    else if shape == "user:device_group" then 2
    else if shape == "user_group:device_group" then 1
    else 0
  }

  // The comparator given to the sort: a is to come before b.
  predicate Before(a: Rule, b: Rule) {
    if a.effect != b.effect then a.effect == "deny"
    else if Rank(a) != Rank(b) then Rank(a) > Rank(b)
    else a.priority > b.priority
  }

  // The only effects the handler lets in.
  predicate Plain(rule: Rule) {
    rule.effect == "allow" || rule.effect == "deny"
  }

  ghost predicate AllPlain(rules: seq<Rule>) {
    forall i :: 0 <= i < |rules| ==> Plain(rules[i])
  }

  predicate Applies(rule: Rule, user: User, target: Device) {
    rule.enabled && RuleMatches(rule, user, target)
  }

  function Matching(rules: seq<Rule>, user: User, target: Device): seq<Rule> {
    if rules == [] then []
    else Matching(Front(rules), user, target) + if Applies(Last(rules), user, target) then [Last(rules)] else []
  }

  lemma {:induction false} MatchingMembers(rules: seq<Rule>, user: User, target: Device)
    ensures forall rule :: rule in Matching(rules, user, target) <==> rule in rules && Applies(rule, user, target)
  {
    if rules != [] {
      MatchingMembers(Front(rules), user, target);
      assert forall rule :: rule in rules <==> rule in Front(rules) || rule == Last(rules);
    }
  }

  // A matching rule always has one of the four ranks, by what it names on either side.
  lemma MatchingRulesAreRanked(rule: Rule, user: User, target: Device)
    requires RuleMatches(rule, user, target)
    ensures Rank(rule) == (if rule.targetType == "device" then 3 else 1) + (if rule.subjectType == "user" then 1 else 0)
    ensures 1 <= Rank(rule) <= 4
  {
    var shape := rule.subjectType + ":" + rule.targetType;
    if rule.subjectType == "user" {
      assert shape[4] == ':';
      if rule.targetType == "device" {
        assert shape == "user:device";
      } else {
        assert shape == "user:device_group";
        assert |shape| != |"user:device"|;
        assert "user_group:device"[4] == '_';
      }
    } else {
      assert shape[4] == '_' && "user:device"[4] == ':' && "user:device_group"[4] == ':';
      if rule.targetType == "device" {
        assert shape == "user_group:device";
      } else {
        assert shape == "user_group:device_group";
        assert |shape| != |"user_group:device"|;
      }
    }
  }

  // ------------------------------------------------------------------------
  // The comparator.

  // On allow and deny rules the comparator is a strict weak order: irreflexive, transitive,
  // and with transitive incomparability.
  lemma BeforeIsStrictWeakOrder(a: Rule, b: Rule, c: Rule)
    requires Plain(a) && Plain(b) && Plain(c)
    ensures !Before(a, a)
    ensures Before(a, b) ==> !Before(b, a)
    ensures Before(a, b) && Before(b, c) ==> Before(a, c)
    ensures !Before(a, b) && !Before(b, a) && !Before(b, c) && !Before(c, b) ==> !Before(a, c) && !Before(c, a)
  {
  }

  // Incomparability carries from a and b, and b and c, to a and c.
  predicate Chains(a: Rule, b: Rule, c: Rule) {
    !Before(a, b) && !Before(b, a) && !Before(b, c) && !Before(c, b) ==> !Before(a, c) && !Before(c, a)
  }

  // It fails exactly for two rules of one effect around a rule of another, none of them a
  // denial, when the two differ in rank or priority. So it never fails for plain rules.
  lemma ChainsExactlyWhen(a: Rule, b: Rule, c: Rule)
    ensures Chains(a, b, c) <==>
              !(a.effect == c.effect != b.effect && a.effect != "deny" && b.effect != "deny"
                && (Rank(a) != Rank(c) || a.priority != c.priority))
    ensures Plain(a) && Plain(b) && Plain(c) ==> Chains(a, b, c)
  {
  }

  // With a third effect it can fail: an audit rule compares alike to two allow rules of
  // which the first comes before the second.
  lemma ThirdEffectsBreakTheOrder()
    ensures var high := Rule(1, "user", 1, "device", 1, "allow", 2, true);
            var other := high.(id := 2, effect := "audit");
            var low := high.(id := 3, priority := 1);
            !Chains(high, other, low) && Before(high, low)
  {
    var high := Rule(1, "user", 1, "device", 1, "allow", 2, true);
    ChainsExactlyWhen(high, high.(id := 2, effect := "audit"), high.(id := 3, priority := 1));
  }

  // ------------------------------------------------------------------------
  // The stable sort by this comparator.

  predicate Alike(a: Rule, b: Rule) {
    !Before(a, b) && !Before(b, a)
  }

  // The rules alike to a given one, in order.
  function ClassOf(rules: seq<Rule>, pivot: Rule): seq<Rule> {
    if rules == [] then []
    else (if Alike(rules[0], pivot) then [rules[0]] else []) + ClassOf(rules[1..], pivot)
  }

  lemma {:induction false} ClassOfConcat(a: seq<Rule>, b: seq<Rule>, pivot: Rule)
    ensures ClassOf(a + b, pivot) == ClassOf(a, pivot) + ClassOf(b, pivot)
  {
    if a == [] {
      assert a + b == b;
    } else {
      var tail, both := a[1..], a + b;
      var head := if Alike(a[0], pivot) then [a[0]] else [];
      ClassOfConcat(tail, b, pivot);
      assert both[0] == a[0] && both[1..] == tail + b;
      assert ClassOf(both, pivot) == head + ClassOf(tail + b, pivot);
      ConcatAssociates(head, ClassOf(tail, pivot), ClassOf(b, pivot));
    }
  }

  lemma RulesAreOrdered()
    ensures OrdersWeakly(Plain, Before)
  {
    forall a, b, c | Plain(a) && Plain(b) && Plain(c)
      ensures Before(a, b) ==> !Before(b, a)
      ensures !Before(b, a) && !Before(c, b) ==> !Before(c, a)
    {
      BeforeIsStrictWeakOrder(a, b, c);
    }
  }

  lemma {:induction false} InsertedStable(sorted: seq<Rule>, rule: Rule, pivot: Rule)
    requires AllPlain(sorted) && Plain(rule) && Plain(pivot)
    ensures ClassOf(Inserted(sorted, rule, Before), pivot) == ClassOf(sorted + [rule], pivot)
  {
    if sorted != [] && Before(rule, Last(sorted)) {
      var front, last := Front(sorted), Last(sorted);
      InsertedStable(front, rule, pivot);
      ClassOfConcat(Inserted(front, rule, Before), [last], pivot);
      ClassOfConcat(front, [rule], pivot);
      ClassOfConcat(front, [last], pivot);
      ClassOfConcat(sorted, [rule], pivot);
      assert sorted == front + [last];
    }
  }

  // The result is ordered, and alike rules keep the order they came in.
  lemma {:induction false} SortedIsStable(rules: seq<Rule>, pivot: Rule)
    requires AllPlain(rules) && Plain(pivot)
    ensures Ordered(Sorted(rules, Before), Before) && AllPlain(Sorted(rules, Before))
    ensures ClassOf(Sorted(rules, Before), pivot) == ClassOf(rules, pivot)
  {
    if rules != [] {
      var front, last := Front(rules), Last(rules);
      SortedIsStable(front, pivot);
      InsertedOrdered(Sorted(front, Before), last, Plain, Before);
      RulesAreOrdered();
      InsertedStable(Sorted(front, Before), last, pivot);
      ClassOfConcat(Sorted(front, Before), [last], pivot);
      ClassOfConcat(front, [last], pivot);
      assert rules == front + [last];
    }
  }

  // Those two properties leave no choice: any stable sort gives this very list.
  lemma {:induction false} StableSortIsUnique(t: seq<Rule>, u: seq<Rule>)
    requires AllPlain(t) && AllPlain(u) && Ordered(t, Before) && Ordered(u, Before)
    requires forall pivot :: Plain(pivot) ==> ClassOf(t, pivot) == ClassOf(u, pivot)
    ensures t == u
  {
    if t == [] || u == [] {
      var some := t + u;
      if some != [] {
        ClassMembers(t, some[0]);
        ClassMembers(u, some[0]);
      }
    } else {
      ClassMembers(t, t[0]);
      ClassMembers(u, t[0]);
      ClassMembers(u, u[0]);
      ClassMembers(t, u[0]);
      assert Alike(t[0], u[0]);
      assert ClassOf(t, t[0])[0] == t[0] && ClassOf(u, t[0])[0] == u[0];
      forall pivot | Plain(pivot)
        ensures ClassOf(t[1..], pivot) == ClassOf(u[1..], pivot)
      {
        var head := if Alike(t[0], pivot) then [t[0]] else [];
        assert ClassOf(t, pivot) == head + ClassOf(t[1..], pivot) && ClassOf(u, pivot) == head + ClassOf(u[1..], pivot);
        assert ClassOf(t[1..], pivot) == ClassOf(t, pivot)[|head|..];
        assert ClassOf(u[1..], pivot) == ClassOf(u, pivot)[|head|..];
      }
      StableSortIsUnique(t[1..], u[1..]);
    }
  }

  lemma {:induction false} ClassMembers(rules: seq<Rule>, pivot: Rule)
    ensures forall x :: x in ClassOf(rules, pivot) <==> x in rules && Alike(x, pivot)
  {
    if rules != [] {
      ClassMembers(rules[1..], pivot);
      assert forall x :: x in rules <==> x == rules[0] || x in rules[1..];
    }
  }

  // ------------------------------------------------------------------------
  // The decision.

  predicate StatusesPermit(user: User, target: Device) {
    user.status != "disabled" && user.status != "locked" && target.status != "disabled"
  }

  function Decided(rules: seq<Rule>, user: User, target: Device): Decision {
    if user.status == "disabled" || user.status == "locked" then Decision(false, "user_not_active", None)
    else if target.status == "disabled" then Decision(false, "target_device_disabled", None)
    else
      var matches := Matching(rules, user, target);
      if |matches| == 0 then Decision(false, "default_deny", None)
      else
        var rule := Sorted(matches, Before)[0];
        if rule.effect == "allow" then Decision(true, "matched_allow_rule", Some(rule))
        else Decision(false, "matched_deny_rule", Some(rule))
  }

  // Sorts a copy of the matches in place and takes the first.
  method FirstOf(matches: seq<Rule>) returns (rule: Rule)
    requires |matches| > 0
    ensures rule == Sorted(matches, Before)[0]
  {
    var sorted := new Rule[|matches|](i requires 0 <= i < |matches| => matches[i]);
    assert sorted[..sorted.Length] == matches;
    StableSort(sorted, sorted.Length, Before);
    assert sorted[..sorted.Length][0] == sorted[0];
    rule := sorted[0];
  }

  method Evaluate(rules: seq<Rule>, user: User, target: Device) returns (decision: Decision)
    ensures decision == Decided(rules, user, target)
  {
    if user.status == "disabled" || user.status == "locked" {
      return Decision(false, "user_not_active", None);
    }
    if target.status == "disabled" {
      return Decision(false, "target_device_disabled", None);
    }
    var matches: seq<Rule> := [];
    for i := 0 to |rules|
      invariant matches == Matching(rules[..i], user, target)
    {
      assert Front(rules[..i + 1]) == rules[..i];
      if rules[i].enabled && RuleMatches(rules[i], user, target) {
        matches := matches + [rules[i]];
      }
    }
    assert rules[..|rules|] == rules;
    if |matches| == 0 {
      return Decision(false, "default_deny", None);
    }
    var rule := FirstOf(matches);
    if rule.effect == "allow" {
      return Decision(true, "matched_allow_rule", Some(rule));
    }
    decision := Decision(false, "matched_deny_rule", Some(rule));
  }

  // Rule k is the earliest listed of the applicable rules that no other comes before.
  ghost predicate EarliestBest(rules: seq<Rule>, user: User, target: Device, k: nat) {
    && k < |rules| && Applies(rules[k], user, target)
    && (forall j :: 0 <= j < |rules| && Applies(rules[j], user, target) ==> !Before(rules[j], rules[k]))
    && (forall j :: 0 <= j < k && Applies(rules[j], user, target) ==> Before(rules[k], rules[j]))
  }

  lemma {:induction false} InsertedHead(sorted: seq<Rule>, rule: Rule)
    requires Ordered(sorted, Before) && AllPlain(sorted) && Plain(rule)
    ensures Inserted(sorted, rule, Before)[0] == if sorted == [] || Before(rule, sorted[0]) then rule else sorted[0]
  {
    if sorted != [] && Before(rule, Last(sorted)) {
      InsertedHead(Front(sorted), rule);
    }
  }

  // One more listed rule takes over only if it comes before the best so far.
  lemma BestOfOneMore(rules: seq<Rule>, user: User, target: Device, k: nat)
    requires |rules| > 0 && AllPlain(rules) && EarliestBest(Front(rules), user, target, k)
    ensures if Applies(Last(rules), user, target) && Before(Last(rules), rules[k])
            then EarliestBest(rules, user, target, |rules| - 1)
            else EarliestBest(rules, user, target, k)
  {
    var front, last := Front(rules), Last(rules);
    if Applies(last, user, target) && Before(last, rules[k]) {
      forall j | 0 <= j < |front| && Applies(rules[j], user, target)
        ensures Before(last, rules[j])
      {
        assert !Before(front[j], front[k]);
      }
    } else {
      forall j | 0 <= j < |rules| && Applies(rules[j], user, target)
        ensures !Before(rules[j], rules[k])
      {
        assert j < |front| ==> front[j] == rules[j];
      }
    }
  }

  lemma HeadOfOneMore(matches: seq<Rule>, last: Rule)
    requires AllPlain(matches) && Plain(last)
    ensures Sorted(matches + [last], Before)[0]
            == if matches == [] || Before(last, Sorted(matches, Before)[0]) then last else Sorted(matches, Before)[0]
  {
    SortedIsStable(matches, last);
    InsertedHead(Sorted(matches, Before), last);
    FrontOfAppend(matches, last);
  }

  // The first rule to apply is the earliest best.
  lemma OnlyTheLastApplies(rules: seq<Rule>, user: User, target: Device)
    requires |rules| > 0 && Applies(Last(rules), user, target)
    requires forall j :: 0 <= j < |rules| - 1 ==> !Applies(rules[j], user, target)
    ensures EarliestBest(rules, user, target, |rules| - 1)
  {
  }

  lemma NothingMatches(rules: seq<Rule>, user: User, target: Device)
    requires Matching(rules, user, target) == []
    ensures forall j :: 0 <= j < |rules| ==> !Applies(rules[j], user, target)
  {
    MatchingMembers(rules, user, target);
    assert forall j :: 0 <= j < |rules| ==> rules[j] in rules;
  }

  lemma MatchesArePlain(rules: seq<Rule>, user: User, target: Device)
    requires AllPlain(rules)
    ensures AllPlain(Matching(rules, user, target))
  {
    var matches := Matching(rules, user, target);
    MatchingMembers(rules, user, target);
    forall i | 0 <= i < |matches|
      ensures Plain(matches[i])
    {
      assert matches[i] in rules;
    }
  }

  lemma {:induction false} SortedHead(rules: seq<Rule>, user: User, target: Device) returns (k: nat)
    requires AllPlain(rules) && Matching(rules, user, target) != []
    ensures EarliestBest(rules, user, target, k) && Sorted(Matching(rules, user, target), Before)[0] == rules[k]
  {
    var front, last := Front(rules), Last(rules);
    var matches := Matching(front, user, target);
    MatchesArePlain(front, user, target);
    HeadOfOneMore(matches, last);
    if matches == [] {
      NothingMatches(front, user, target);
      k := |rules| - 1;
      assert Matching(rules, user, target) == matches + [last];
      OnlyTheLastApplies(rules, user, target);
    } else {
      k := SortedHead(front, user, target);
      BestOfOneMore(rules, user, target, k);
      if !Applies(last, user, target) {
        assert Matching(rules, user, target) == matches;
      } else if Before(last, rules[k]) {
        k := |rules| - 1;
      }
    }
  }

  // The rule reported is the earliest listed among those that win on effect (deny first),
  // then on rank, then on priority.
  lemma ReportsTheEarliestBestRule(rules: seq<Rule>, user: User, target: Device) returns (k: nat)
    requires AllPlain(rules) && StatusesPermit(user, target)
    requires exists rule :: rule in rules && Applies(rule, user, target)
    ensures EarliestBest(rules, user, target, k) && Decided(rules, user, target).matchedRule == Some(rules[k])
  {
    var rule :| rule in rules && Applies(rule, user, target);
    MatchingMembers(rules, user, target);
    k := SortedHead(rules, user, target);
  }

  ghost predicate SomeRule(rules: seq<Rule>, user: User, target: Device, effect: string) {
    exists rule :: rule in rules && rule.effect == effect && Applies(rule, user, target)
  }

  // Access is allowed exactly when the statuses permit it, some enabled allow rule matches
  // and no enabled deny rule does; the reason says which of these failed.
  lemma AllowedExactlyWhen(rules: seq<Rule>, user: User, target: Device)
    requires AllPlain(rules)
    ensures var decision := Decided(rules, user, target);
            var allow, deny := SomeRule(rules, user, target, "allow"), SomeRule(rules, user, target, "deny");
            && (decision.allowed <==> StatusesPermit(user, target) && allow && !deny)
            && decision.reason ==
               (if user.status == "disabled" || user.status == "locked" then "user_not_active"
                else if target.status == "disabled" then "target_device_disabled"
                else if deny then "matched_deny_rule"
                else if allow then "matched_allow_rule"
                else "default_deny")
  {
    var matches := Matching(rules, user, target);
    MatchingMembers(rules, user, target);
    if StatusesPermit(user, target) && matches != [] {
      assert matches[0] in rules && Applies(matches[0], user, target);
      var k := ReportsTheEarliestBestRule(rules, user, target);
      assert rules[k] in rules;
      if SomeRule(rules, user, target, "deny") {
        var rule :| rule in rules && rule.effect == "deny" && Applies(rule, user, target);
        assert rules[k].effect == "deny";
      }
    } else if matches == [] {
      assert forall rule :: rule in rules ==> !Applies(rule, user, target);
    }
  }

  // Listing the same rules in another order changes neither the decision nor its reason.
  lemma OrderDoesNotMatter(rules: seq<Rule>, listed: seq<Rule>, user: User, target: Device)
    requires AllPlain(rules) && multiset(rules) == multiset(listed)
    ensures Decided(listed, user, target).allowed == Decided(rules, user, target).allowed
    ensures Decided(listed, user, target).reason == Decided(rules, user, target).reason
  {
    assert forall rule :: rule in rules <==> rule in multiset(rules);
    assert forall rule :: rule in listed <==> rule in multiset(listed);
    assert forall i :: 0 <= i < |listed| ==> listed[i] in rules;
    AllowedExactlyWhen(rules, user, target);
    AllowedExactlyWhen(listed, user, target);
  }

  // One more deny rule, wherever it is listed, never permits; one more allow rule never denies.
  lemma OneMoreRule(rules: seq<Rule>, n: nat, rule: Rule, user: User, target: Device)
    requires n <= |rules| && AllPlain(rules) && Plain(rule)
    ensures var more := rules[..n] + [rule] + rules[n..];
            if rule.effect == "deny"
            then Decided(more, user, target).allowed ==> Decided(rules, user, target).allowed
            else Decided(rules, user, target).allowed ==> Decided(more, user, target).allowed
  {
    var more := rules[..n] + [rule] + rules[n..];
    assert rules == rules[..n] + rules[n..];
    assert forall x :: x in more <==> x in rules || x == rule;
    assert AllPlain(more) by {
      assert forall i :: 0 <= i < |more| ==> more[i] in more;
    }
    SomeMoreRule(rules, rule, more, user, target, "allow");
    SomeMoreRule(rules, rule, more, user, target, "deny");
    AllowedExactlyWhen(rules, user, target);
    AllowedExactlyWhen(more, user, target);
  }

  lemma SomeMoreRule(rules: seq<Rule>, rule: Rule, more: seq<Rule>, user: User, target: Device, effect: string)
    requires forall x :: x in more <==> x in rules || x == rule
    ensures SomeRule(more, user, target, effect)
            <==> SomeRule(rules, user, target, effect) || (rule.effect == effect && Applies(rule, user, target))
  {
  }

  // ------------------------------------------------------------------------
  // The decision over the rules' own fields.

  // Everything a rule may name to mean this user, and this device.
  function UserIdentities(user: User): set<(string, int)> {
    {("user", user.id)} + set g | g in user.groupIds :: ("user_group", g)
  }

  function DeviceIdentities(target: Device): set<(string, int)> {
    {("device", target.id)} + set g | g in target.groupIds :: ("device_group", g)
  }

  // The rule is enabled and names this user on one side and this device on the other.
  predicate Names(rule: Rule, user: User, target: Device) {
    && rule.enabled
    && (rule.subjectType, rule.subjectId) in UserIdentities(user)
    && (rule.targetType, rule.targetId) in DeviceIdentities(target)
  }

  lemma AppliesToThoseNamed(rule: Rule, user: User, target: Device)
    ensures Applies(rule, user, target) <==> Names(rule, user, target)
  {
    assert "user" != "user_group" && "device" != "device_group";
  }

  // Someone is disabled or locked, or the device is disabled.
  predicate Barred(user: User, target: Device) {
    user.status == "disabled" || user.status == "locked" || target.status == "disabled"
  }

  ghost predicate SomeNames(rules: seq<Rule>, user: User, target: Device, effect: string) {
    exists rule :: rule in rules && rule.effect == effect && Names(rule, user, target)
  }

  // Access is allowed exactly when nobody is barred, an enabled allow rule names the user and
  // the device, and no enabled deny rule does; the reason says which of these it was.
  lemma AllowedByName(rules: seq<Rule>, user: User, target: Device)
    requires AllPlain(rules)
    ensures var decision := Decided(rules, user, target);
            var allow, deny := SomeNames(rules, user, target, "allow"), SomeNames(rules, user, target, "deny");
            && (decision.allowed <==> !Barred(user, target) && allow && !deny)
            && decision.reason ==
               (if user.status == "disabled" || user.status == "locked" then "user_not_active"
                else if target.status == "disabled" then "target_device_disabled"
                else if deny then "matched_deny_rule"
                else if allow then "matched_allow_rule"
                else "default_deny")
  {
    forall rule
      ensures Applies(rule, user, target) <==> Names(rule, user, target)
    {
      AppliesToThoseNamed(rule, user, target);
    }
    AllowedExactlyWhen(rules, user, target);
    SameRules(rules, user, target, "allow");
    SameRules(rules, user, target, "deny");
  }

  lemma SameRules(rules: seq<Rule>, user: User, target: Device, effect: string)
    ensures SomeRule(rules, user, target, effect) <==> SomeNames(rules, user, target, effect)
  {
    forall rule
      ensures Applies(rule, user, target) <==> Names(rule, user, target)
    {
      AppliesToThoseNamed(rule, user, target);
    }
  }

  // How narrowly a rule names: the device counts for more than the user.
  function Narrowness(rule: Rule): int {
    (if rule.targetType == "device" then 2 else 0) + if rule.subjectType == "user" then 1 else 0
  }

  // Rule a wins over rule b: a denial over any other, then the narrower one, then the higher
  // priority.
  predicate WinsOver(a: Rule, b: Rule) {
    || (a.effect == "deny" && b.effect != "deny")
    || (a.effect == b.effect
        && (Narrowness(a) > Narrowness(b) || (Narrowness(a) == Narrowness(b) && a.priority > b.priority)))
  }

  lemma BeforeIsWinning(a: Rule, b: Rule, user: User, target: Device)
    requires Plain(a) && Plain(b) && Applies(a, user, target) && Applies(b, user, target)
    ensures Before(a, b) <==> WinsOver(a, b)
  {
    MatchingRulesAreRanked(a, user, target);
    MatchingRulesAreRanked(b, user, target);
  }

  // Rule k names the user and the device, no other rule that does wins over it, and it wins
  // over those listed ahead of it.
  ghost predicate FirstWinner(rules: seq<Rule>, user: User, target: Device, k: int) {
    && 0 <= k < |rules| && Names(rules[k], user, target)
    && (forall j :: 0 <= j < |rules| && Names(rules[j], user, target) ==> !WinsOver(rules[j], rules[k]))
    && (forall j :: 0 <= j < k && Names(rules[j], user, target) ==> WinsOver(rules[k], rules[j]))
  }

  lemma BestIsFirstWinner(rules: seq<Rule>, user: User, target: Device, k: nat)
    requires AllPlain(rules) && EarliestBest(rules, user, target, k)
    ensures FirstWinner(rules, user, target, k)
  {
    AppliesToThoseNamed(rules[k], user, target);
    forall j | 0 <= j < |rules| && Names(rules[j], user, target)
      ensures !WinsOver(rules[j], rules[k])
      ensures j < k ==> WinsOver(rules[k], rules[j])
    {
      AppliesToThoseNamed(rules[j], user, target);
      BeforeIsWinning(rules[j], rules[k], user, target);
      BeforeIsWinning(rules[k], rules[j], user, target);
    }
  }

  // The rule reported is the first winner; none is if someone is barred or no rule names
  // the user and the device.
  lemma ReportedByName(rules: seq<Rule>, user: User, target: Device)
    requires AllPlain(rules)
    ensures var reported := Decided(rules, user, target).matchedRule;
            if Barred(user, target) || forall rule :: rule in rules ==> !Names(rule, user, target)
            then reported == None
            else exists k :: FirstWinner(rules, user, target, k) && reported == Some(rules[k])
  {
    if !Barred(user, target) {
      if some :| some in rules && Names(some, user, target) {
        AppliesToThoseNamed(some, user, target);
        var k := ReportsTheEarliestBestRule(rules, user, target);
        BestIsFirstWinner(rules, user, target, k);
      } else {
        NobodyNamed(rules, user, target);
      }
    }
  }

  lemma {:induction false} NobodyNamed(rules: seq<Rule>, user: User, target: Device)
    requires forall rule :: rule in rules ==> !Names(rule, user, target)
    ensures Matching(rules, user, target) == []
  {
    if rules != [] {
      NobodyNamed(Front(rules), user, target);
      assert Last(rules) in rules;
      AppliesToThoseNamed(Last(rules), user, target);
    }
  }
}
