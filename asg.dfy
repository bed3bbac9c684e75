/** pkg/aws/asg.go: the name filter over auto scaling groups and the load-test capacity requests. */
module Asg {
  import opened Wrappers
  import opened Errors
  import GoStrings

  /** The group names that contain `asgName`, in their original order (a reference definition). */
  function MatchingNames(groups: seq<string>, asgName: string): (r: seq<string>)
    ensures |r| <= |groups|
  {
    if groups == [] then []
    else
      var rest := MatchingNames(groups[..|groups| - 1], asgName);
      if GoStrings.Contains(groups[|groups| - 1], asgName) then rest + [groups[|groups| - 1]] else rest
  }

  /**
   * GetExactASGNames, given what DescribeAutoScalingGroups returned: the error,
   * or the names that contain `asgName`, appended one by one.
   */
  method GetExactASGNames(described: Result<seq<string>, Error>, asgName: string)
    returns (r: Result<seq<string>, Error>)
    ensures described.Err? ==> r == Err(described.error)
    ensures described.Ok? ==> r == Ok(MatchingNames(described.value, asgName))
  {
    if described.Err? {
      return Err(described.error);
    }
    var groups := described.value;
    var response: seq<string> := [];
    for i := 0 to |groups|
      invariant response == MatchingNames(groups[..i], asgName)
    {
      assert groups[..i + 1][..i] == groups[..i];
      if GoStrings.Contains(groups[i], asgName) {
        response := response + [groups[i]];
      }
    }
    assert groups[..|groups|] == groups;
    return Ok(response);
  }

  /** `sub` keeps some of the elements of `s`, in their order. */
  predicate IsSubsequence(sub: seq<string>, s: seq<string>)
  {
    if sub == [] then true
    else if s == [] then false
    else if sub[|sub| - 1] == s[|s| - 1] then IsSubsequence(sub[..|sub| - 1], s[..|s| - 1])
    else IsSubsequence(sub, s[..|s| - 1])
  }

  lemma {:induction false} SubsequenceExtend(sub: seq<string>, s: seq<string>, x: string)
    requires IsSubsequence(sub, s)
    ensures IsSubsequence(sub, s + [x])
    decreases |s|, 1
  {
    var t := s + [x];
    assert t[..|t| - 1] == s;
    if sub != [] && sub[|sub| - 1] == x {
      SubsequenceDropLast(sub, s);
    }
  }

  lemma {:induction false} SubsequenceDropLast(sub: seq<string>, s: seq<string>)
    requires sub != [] && IsSubsequence(sub, s)
    ensures IsSubsequence(sub[..|sub| - 1], s)
    decreases |s|, 0
  {
    if sub[..|sub| - 1] != [] {
      if sub[|sub| - 1] == s[|s| - 1] {
        SubsequenceExtend(sub[..|sub| - 1], s[..|s| - 1], s[|s| - 1]);
        assert s[..|s| - 1] + [s[|s| - 1]] == s;
      } else {
        SubsequenceDropLast(sub, s[..|s| - 1]);
        SubsequenceExtend(sub[..|sub| - 1], s[..|s| - 1], s[|s| - 1]);
        assert s[..|s| - 1] + [s[|s| - 1]] == s;
      }
    }
  }

  /**
   * The filter keeps exactly the names that contain `asgName`, as a
   * subsequence of the group list.
   */
  lemma {:induction false} MatchingNamesMeaning(groups: seq<string>, asgName: string)
    ensures forall x :: x in MatchingNames(groups, asgName) <==> x in groups && GoStrings.Contains(x, asgName)
    ensures IsSubsequence(MatchingNames(groups, asgName), groups)
  {
    if groups != [] {
      var init := groups[..|groups| - 1];
      var last := groups[|groups| - 1];
      MatchingNamesMeaning(init, asgName);
      assert groups == init + [last];
      var rest := MatchingNames(init, asgName);
      if GoStrings.Contains(last, asgName) {
        var r := rest + [last];
        assert r[..|r| - 1] == rest;
      } else {
        SubsequenceExtend(rest, init, last);
      }
    }
  }

  /** An empty name is contained in every name, so it selects every group. */
  lemma {:induction false} EmptyNameMatchesAll(groups: seq<string>)
    ensures MatchingNames(groups, "") == groups
  {
    if groups != [] {
      EmptyNameMatchesAll(groups[..|groups| - 1]);
      GoStrings.ContainsEmpty(groups[|groups| - 1]);
    }
  }

  /** The UpdateAutoScalingGroup input the load-test helpers send. */
  datatype UpdateRequest = UpdateRequest(AutoScalingGroupName: string, MinSize: int, DesiredCapacity: int, MaxSize: int)

  /** updateLoadtestASG: pin the group to exactly `capacity` instances. */
  function UpdateLoadtestASG(asgName: string, capacity: int): (req: UpdateRequest)
    ensures req.AutoScalingGroupName == asgName
    ensures req.MinSize == req.DesiredCapacity == req.MaxSize == capacity
  {
    UpdateRequest(asgName, capacity, capacity, capacity)
  }

  /** StartLoadtestASG: one instance. */
  function StartLoadtestASG(asgName: string): (req: UpdateRequest)
    ensures req == UpdateLoadtestASG(asgName, 1)
    ensures req.MinSize == req.DesiredCapacity == req.MaxSize == 1
  {
    UpdateLoadtestASG(asgName, 1)
  }

  /** StopLoadtestASG: no instances. */
  function StopLoadtestASG(asgName: string): (req: UpdateRequest)
    ensures req == UpdateLoadtestASG(asgName, 0)
    ensures req.MinSize == req.DesiredCapacity == req.MaxSize == 0
  {
    UpdateLoadtestASG(asgName, 0)
  }
}
