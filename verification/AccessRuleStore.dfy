// The access rules of api/internal/repository/memory.go, in one slice.
module AccessRuleStore {
  import opened Wrappers
  import opened Slices
  import opened AccessRules

  // A rule with the times it was created and last written.
  datatype StoredRule = StoredRule(rule: Rule, createdAt: int, updatedAt: int)

  function HasId(id: int): StoredRule -> bool {
    (r: StoredRule) => r.rule.id == id
  }

  ghost predicate Stores(rules: seq<StoredRule>, id: int) {
    exists i :: 0 <= i < |rules| && rules[i].rule.id == id
  }

  // Identifiers ascend and stay below the counter, which other collections advance too.
  ghost predicate Numbered(rules: seq<StoredRule>, nextID: int) {
    && (forall i :: 0 <= i < |rules| ==> rules[i].rule.id <= nextID)
    && (forall i, j :: 0 <= i < j < |rules| ==> rules[i].rule.id < rules[j].rule.id)
  }

  class Memory {
    var nextID: int
    var accessRules: Slice<StoredRule>

    ghost predicate Valid()
      reads this, accessRules.base
    {
      Fits(accessRules) && Numbered(Elements(accessRules), nextID)
    }

    constructor (nextID: int)
      ensures Valid() && this.nextID == nextID && Elements(accessRules) == []
    {
      this.nextID := nextID;
      var none := FromSeq([]);
      accessRules := none;
    }

    method ListAccessRules() returns (copy: Slice<StoredRule>)
      requires Valid()
      ensures fresh(copy.base) && Fits(copy) && Elements(copy) == Elements(accessRules)
    {
      copy := Clone(accessRules);
    }

    method CreateAccessRule(rule: Rule, now: int) returns (created: Option<StoredRule>)
      requires Valid()
      modifies this, accessRules.base
      ensures Valid() && (accessRules.base == old(accessRules.base) || fresh(accessRules.base))
      ensures if rule.subjectType != "" && 0 < rule.subjectId && rule.targetType != "" && 0 < rule.targetId
                 && rule.effect != ""
              then nextID == old(nextID) + 1 && created == Some(StoredRule(rule.(id := nextID), now, now))
                   && Elements(accessRules) == old(Elements(accessRules)) + [created.value]
              else created == None && nextID == old(nextID) && Elements(accessRules) == old(Elements(accessRules))
    {
      if rule.subjectType == "" || rule.subjectId <= 0 || rule.targetType == "" || rule.targetId <= 0
         || rule.effect == ""
      {
        return None;
      }
      nextID := nextID + 1;
      var stored := StoredRule(rule.(id := nextID), now, now);
      accessRules := Append(accessRules, stored);
      created := Some(stored);
    }

    // Overwrites the rule with this identifier, which keeps it and its time of creation.
    method UpdateAccessRule(id: int, rule: Rule, now: int) returns (updated: Option<StoredRule>)
      requires Valid()
      modifies this, accessRules.base
      ensures Valid() && nextID == old(nextID) && accessRules == old(accessRules)
      ensures updated.Some? <==>
                && rule.subjectType != "" && 0 < rule.subjectId && rule.targetType != "" && 0 < rule.targetId
                && rule.effect != "" && Stores(old(Elements(accessRules)), id)
      ensures updated.None? ==> Elements(accessRules) == old(Elements(accessRules))
      ensures updated.Some? ==>
                exists i :: 0 <= i < accessRules.len && old(Elements(accessRules))[i].rule.id == id
                  && updated.value == StoredRule(rule.(id := id), old(Elements(accessRules))[i].createdAt, now)
                  && Elements(accessRules) == old(Elements(accessRules))[i := updated.value]
    {
      if rule.subjectType == "" || rule.subjectId <= 0 || rule.targetType == "" || rule.targetId <= 0
         || rule.effect == ""
      {
        return None;
      }
      ghost var before := Elements(accessRules);
      for i := 0 to accessRules.len
        invariant Valid() && nextID == old(nextID) && accessRules == old(accessRules) && Elements(accessRules) == before
        invariant forall j :: 0 <= j < i ==> before[j].rule.id != id
      {
        if accessRules.base[i].rule.id == id {
          assert before[i].rule.id == id;
          var stored := StoredRule(rule.(id := id), accessRules.base[i].createdAt, now);
          accessRules.base[i] := stored;
          assert Elements(accessRules) == before[i := stored];
          return Some(stored);
        }
      }
      updated := None;
    }

    // Cuts the rule out in place; if there is none, slice and array are as before.
    method DeleteAccessRule(id: int) returns (found: bool)
      requires Valid()
      modifies this, accessRules.base
      ensures Valid() && nextID == old(nextID) && accessRules.base == old(accessRules.base)
      ensures found <==> Stores(old(Elements(accessRules)), id)
      ensures Elements(accessRules) == Without(old(Elements(accessRules)), HasId(id))
      ensures !found ==> accessRules == old(accessRules) && accessRules.base[..] == old(accessRules.base[..])
    {
      ghost var before := Elements(accessRules);
      for i := 0 to accessRules.len
        invariant Valid() && nextID == old(nextID) && accessRules == old(accessRules)
        invariant accessRules.base[..] == old(accessRules.base[..]) && Elements(accessRules) == before
        invariant forall j :: 0 <= j < i ==> before[j].rule.id != id
      {
        if accessRules.base[i].rule.id == id {
          assert before[i].rule.id == id;
          DeletingIsFiltering(before, HasId(id), i);
          accessRules := DeleteAt(accessRules, i);
          CutStaysNumbered(before, nextID, i);
          return true;
        }
      }
      CompactingNothing(before, HasId(id));
      found := false;
    }
  }

  lemma CutStaysNumbered(rules: seq<StoredRule>, nextID: int, i: nat)
    requires Numbered(rules, nextID) && i < |rules|
    ensures Numbered(rules[..i] + rules[i + 1..], nextID)
  {
  }
}
