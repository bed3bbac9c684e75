/**
 * pkg/runner/runner.go, CheckIfTargetExistsInACL: for each address, whether
 * an IP set of the web ACL lists it, and which set does first. Listing is
 * literal string equality with an entry of the set, not subnet containment.
 */
module AclSearch {
  import opened Wrappers
  import opened Errors
  import opened Schema
  import Tools

  /** IP set `d` of rule `r` lists `t`. */
  predicate ListedAt(acl: WebACL, t: string, r: int, d: int)
  {
    0 <= r < |acl.Rules| && 0 <= d < |acl.Rules[r].IPDataSet| && t in acl.Rules[r].IPDataSet[d].IPList
  }

  /** Some IP set of some rule lists `t`. */
  ghost predicate InACL(acl: WebACL, t: string)
  {
    exists r, d :: ListedAt(acl, t, r, d)
  }

  /** (r, d) is the first listing of `t` in rule-then-set order. */
  ghost predicate FirstListed(acl: WebACL, t: string, r: int, d: int)
  {
    ListedAt(acl, t, r, d)
    && forall r1, d1 :: ListedAt(acl, t, r1, d1) ==> r < r1 || (r == r1 && d <= d1)
  }

  /** The set loop of one rule: the id of the first set that lists `t`. */
  function FindInDataSets(t: string, sets: seq<IPDataSet>): Option<string>
  {
    if sets == [] then None
    else if t in sets[0].IPList then Some(sets[0].ID)
    else FindInDataSets(t, sets[1..])
  }

  /** No set id comes out exactly when no set lists `t`. */
  lemma {:induction false} DataSetsNone(t: string, sets: seq<IPDataSet>)
    ensures FindInDataSets(t, sets).None? <==> forall k :: 0 <= k < |sets| ==> t !in sets[k].IPList
  {
    if sets != [] {
      DataSetsNone(t, sets[1..]);
      assert forall k :: 1 <= k < |sets| ==> sets[k] == sets[1..][k - 1];
    }
  }

  /** The first set that lists `t` is the one named. */
  lemma {:induction false} DataSetsFirst(t: string, sets: seq<IPDataSet>, k: int)
    requires 0 <= k < |sets| && t in sets[k].IPList
    requires forall j :: 0 <= j < k ==> t !in sets[j].IPList
    ensures FindInDataSets(t, sets) == Some(sets[k].ID)
  {
    if k > 0 {
      DataSetsFirst(t, sets[1..], k - 1);
    }
  }

  /** A set id that comes out belongs to the first set that lists `t`. */
  lemma {:induction false} DataSetsFound(t: string, sets: seq<IPDataSet>)
    requires FindInDataSets(t, sets).Some?
    ensures exists k :: 0 <= k < |sets| && t in sets[k].IPList && FindInDataSets(t, sets) == Some(sets[k].ID)
                        && forall j :: 0 <= j < k ==> t !in sets[j].IPList
  {
    if t !in sets[0].IPList {
      DataSetsFound(t, sets[1..]);
      var k :| 0 <= k < |sets[1..]| && t in sets[1..][k].IPList && FindInDataSets(t, sets[1..]) == Some(sets[1..][k].ID)
               && forall j :: 0 <= j < k ==> t !in sets[1..][j].IPList;
      assert forall j :: 1 <= j < k + 1 ==> sets[j] == sets[1..][j - 1];
      assert t in sets[k + 1].IPList;
    } else {
      assert t in sets[0].IPList;
    }
  }

  /** The rule loop: the first rule with a set that lists `t` decides. */
  function FindInRules(t: string, rules: seq<ACLRule>): Option<string>
  {
    if rules == [] then None
    else if FindInDataSets(t, rules[0].IPDataSet).Some? then FindInDataSets(t, rules[0].IPDataSet)
    else FindInRules(t, rules[1..])
  }

  /** No set id comes out exactly when no rule's sets give one. */
  lemma {:induction false} RulesNone(t: string, rules: seq<ACLRule>)
    ensures FindInRules(t, rules).None? <==> forall k :: 0 <= k < |rules| ==> FindInDataSets(t, rules[k].IPDataSet).None?
  {
    if rules != [] {
      RulesNone(t, rules[1..]);
      assert forall k :: 1 <= k < |rules| ==> rules[k] == rules[1..][k - 1];
    }
  }

  /** The first rule whose sets give an id decides. */
  lemma {:induction false} RulesFirst(t: string, rules: seq<ACLRule>, k: int)
    requires 0 <= k < |rules| && FindInDataSets(t, rules[k].IPDataSet).Some?
    requires forall j :: 0 <= j < k ==> FindInDataSets(t, rules[j].IPDataSet).None?
    ensures FindInRules(t, rules) == FindInDataSets(t, rules[k].IPDataSet)
  {
    if k > 0 {
      RulesFirst(t, rules[1..], k - 1);
    }
  }

  /** An id that comes out is the one of the first rule whose sets give one. */
  lemma {:induction false} RulesFound(t: string, rules: seq<ACLRule>)
    requires FindInRules(t, rules).Some?
    ensures exists k :: 0 <= k < |rules| && FindInRules(t, rules) == FindInDataSets(t, rules[k].IPDataSet)
                        && forall j :: 0 <= j < k ==> FindInDataSets(t, rules[j].IPDataSet).None?
  {
    if FindInDataSets(t, rules[0].IPDataSet).None? {
      RulesFound(t, rules[1..]);
      var k :| 0 <= k < |rules[1..]| && FindInRules(t, rules[1..]) == FindInDataSets(t, rules[1..][k].IPDataSet)
               && forall j :: 0 <= j < k ==> FindInDataSets(t, rules[1..][j].IPDataSet).None?;
      assert forall j :: 1 <= j < k + 1 ==> rules[j] == rules[1..][j - 1];
      assert FindInRules(t, rules) == FindInDataSets(t, rules[k + 1].IPDataSet);
    } else {
      assert FindInRules(t, rules) == FindInDataSets(t, rules[0].IPDataSet);
    }
  }

  /** The result recorded for one address. */
  function MatchTarget(acl: WebACL, t: string): IPCheckResult
  {
    match FindInRules(t, acl.Rules)
    case None => IPCheckResult(t, "", false)
    case Some(id) => IPCheckResult(t, id, true)
  }

  /**
   * The result for an address names the address; it is found exactly when
   * some set lists it; an address not found has no set id.
   */
  lemma MatchTargetFound(acl: WebACL, t: string)
    ensures MatchTarget(acl, t).IP == t
    ensures MatchTarget(acl, t).Result <==> InACL(acl, t)
    ensures !MatchTarget(acl, t).Result ==> MatchTarget(acl, t).IPSetID == ""
  {
    RulesNone(t, acl.Rules);
    if InACL(acl, t) {
      var r, d :| ListedAt(acl, t, r, d);
      DataSetsNone(t, acl.Rules[r].IPDataSet);
    }
    if MatchTarget(acl, t).Result {
      var r :| 0 <= r < |acl.Rules| && FindInDataSets(t, acl.Rules[r].IPDataSet).Some?;
      DataSetsNone(t, acl.Rules[r].IPDataSet);
      var d :| 0 <= d < |acl.Rules[r].IPDataSet| && t in acl.Rules[r].IPDataSet[d].IPList;
      assert ListedAt(acl, t, r, d);
    }
  }

  /** The set named is the first listing of the address in rule-then-set order. */
  lemma MatchTargetFirst(acl: WebACL, t: string)
    requires MatchTarget(acl, t).Result
    ensures exists r, d :: FirstListed(acl, t, r, d) && MatchTarget(acl, t).IPSetID == acl.Rules[r].IPDataSet[d].ID
  {
    var rules := acl.Rules;
    RulesFound(t, rules);
    var r :| 0 <= r < |rules| && FindInRules(t, rules) == FindInDataSets(t, rules[r].IPDataSet)
             && forall j :: 0 <= j < r ==> FindInDataSets(t, rules[j].IPDataSet).None?;
    var sets := rules[r].IPDataSet;
    DataSetsFound(t, sets);
    var d :| 0 <= d < |sets| && t in sets[d].IPList && FindInDataSets(t, sets) == Some(sets[d].ID)
             && forall j :: 0 <= j < d ==> t !in sets[j].IPList;
    forall r1, d1 | ListedAt(acl, t, r1, d1)
      ensures r < r1 || (r == r1 && d <= d1)
    {
      if r1 < r {
        DataSetsNone(t, rules[r1].IPDataSet);
      }
    }
    assert FirstListed(acl, t, r, d);
  }

  /** An ACL without rules lists nothing. */
  lemma NoRulesNothingFound(acl: WebACL, t: string)
    requires acl.Rules == []
    ensures MatchTarget(acl, t) == IPCheckResult(t, "", false)
  {
  }

  /**
   * CheckIfTargetExistsInACL, given what DescribeWebACL returned: its error,
   * or one result per address, in order. The source dereferences the ACL
   * inside the per-address loop, so an absent ACL is only survivable with no
   * addresses.
   */
  method CheckIfTargetExistsInACL(targetList: seq<string>, described: Result<Option<WebACL>, Error>)
    returns (r: Result<seq<IPCheckResult>, Error>)
    requires described == Ok(None) ==> targetList == []
    ensures described.Err? ==> r == Err(described.error)
    ensures described.Ok? ==> r.Ok? && |r.value| == |targetList|
    ensures described.Ok? && described.value.Some? ==>
      forall i :: 0 <= i < |targetList| ==> r.value[i] == MatchTarget(described.value.value, targetList[i])
  {
    if described.Err? {
      return Err(described.error);
    }
    var ret: seq<IPCheckResult> := [];
    for i := 0 to |targetList|
      invariant |ret| == i
      invariant described.value.Some? ==> forall j :: 0 <= j < i ==> ret[j] == MatchTarget(described.value.value, targetList[j])
    {
      var info := described.value.value;
      var t := targetList[i];
      var tmp := IPCheckResult(t, "", false);
      if |info.Rules| > 0 {
        var ri := 0;
        while ri < |info.Rules|
          invariant 0 <= ri <= |info.Rules|
          invariant tmp == IPCheckResult(t, "", false)
          invariant forall j :: 0 <= j < ri ==> FindInDataSets(t, info.Rules[j].IPDataSet).None?
        {
          var rule := info.Rules[ri];
          var isFinished := false;
          var di := 0;
          while di < |rule.IPDataSet|
            invariant 0 <= di <= |rule.IPDataSet|
            invariant tmp == IPCheckResult(t, "", false) && !isFinished
            invariant forall k :: 0 <= k < di ==> t !in rule.IPDataSet[k].IPList
          {
            var found := Tools.IsStringInArray(t, rule.IPDataSet[di].IPList);
            if found {
              tmp := tmp.(IPSetID := rule.IPDataSet[di].ID, Result := true);
            }
            if tmp.Result {
              isFinished := true;
              break;
            }
            di := di + 1;
          }
          if isFinished {
            DataSetsFirst(t, rule.IPDataSet, di);
            RulesFirst(t, info.Rules, ri);
            break;
          }
          DataSetsNone(t, rule.IPDataSet);
          ri := ri + 1;
        }
        if !tmp.Result {
          RulesNone(t, info.Rules);
        }
      } else {
        RulesNone(t, info.Rules);
      }
      ret := ret + [tmp];
    }
    return Ok(ret);
  }
}
