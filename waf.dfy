/**
 * pkg/aws/waf.go: assembling a WebACL snapshot from the three WAF lookups
 * (web ACL, rule, IP set), and the `name / id` option strings of the ACL
 * picker. The lookups are passed in as functions from an id to what the
 * service answers.
 */
module Waf {
  import opened Wrappers
  import opened Errors
  import opened Schema
  import opened GoStrings

  /** waf.ActivatedRule: a rule as the web ACL lists it. */
  datatype ActivatedRule = ActivatedRule(Type: string, ActionType: string, Priority: int, RuleId: string)

  /** waf.WebACL as GetWebACL answers. */
  datatype SdkWebACL = SdkWebACL(WebACLId: string, Name: string, Rules: seq<ActivatedRule>)

  /** waf.Predicate: the condition a rule refers to. */
  datatype Predicate = Predicate(DataId: string, Negated: bool, Type: string)

  /** waf.Rule as GetRule answers. */
  datatype SdkRule = SdkRule(Predicates: seq<Predicate>)

  /** waf.IPSetDescriptor: one address or block of an IP set. */
  datatype Descriptor = Descriptor(Type: string, Value: string)

  /** waf.IPSet as GetIPSet answers. */
  datatype SdkIPSet = SdkIPSet(IPSetDescriptors: seq<Descriptor>)

  /** waf.WebACLSummary as ListWebACLs answers. */
  datatype WebACLSummary = WebACLSummary(Name: string, WebACLId: string)

  /** The three lookups DescribeWebACL performs. */
  datatype Lookups = Lookups(
    getWebACL: string -> Result<SdkWebACL, Error>,
    getRule: string -> Result<SdkRule, Error>,
    getIPSet: string -> Result<SdkIPSet, Error>)

  /** The copy of a listed rule, before its IP sets are filled in. */
  function CopyRule(r: ActivatedRule): ACLRule
  {
    ACLRule(r.Type, r.ActionType, r.Priority, r.RuleId, [])
  }

  /** The values of an IP set's descriptors, in order. */
  function Values(ds: seq<Descriptor>): (l: seq<string>)
    ensures |l| == |ds| && forall j :: 0 <= j < |ds| ==> l[j] == ds[j].Value
  {
    seq(|ds|, j requires 0 <= j < |ds| => ds[j].Value)
  }

  /** The IP set a predicate refers to, or the lookup's error. */
  function DataSetOf(p: Predicate, look: Lookups): Result<IPDataSet, Error>
  {
    match look.getIPSet(p.DataId)
    case Err(e) => Err(e)
    case Ok(data) => Ok(IPDataSet(p.DataId, Values(data.IPSetDescriptors)))
  }

  /** The IP sets of a rule's predicates, in order, stopping at the first failed lookup. */
  function DataSetsOf(ps: seq<Predicate>, look: Lookups): Result<seq<IPDataSet>, Error>
  {
    if ps == [] then Ok([])
    else
      match DataSetOf(ps[0], look)
      case Err(e) => Err(e)
      case Ok(d) =>
        match DataSetsOf(ps[1..], look)
        case Err(e) => Err(e)
        case Ok(ds) => Ok([d] + ds)
  }

  /** The IP sets of the rule with the given id, or the first failed lookup. */
  function RuleSetsOf(ruleId: string, look: Lookups): Result<seq<IPDataSet>, Error>
  {
    match look.getRule(ruleId)
    case Err(e) => Err(e)
    case Ok(info) => DataSetsOf(info.Predicates, look)
  }

  /** One rule with its IP sets filled in, or the first failed lookup. */
  function RuleOf(r: ActivatedRule, look: Lookups): Result<ACLRule, Error>
  {
    match RuleSetsOf(r.RuleId, look)
    case Err(e) => Err(e)
    case Ok(ds) => Ok(CopyRule(r).(IPDataSet := ds))
  }

  /** All rules, in order, stopping at the first failed lookup. */
  function RulesOf(rs: seq<ActivatedRule>, look: Lookups): Result<seq<ACLRule>, Error>
  {
    if rs == [] then Ok([])
    else
      match RuleOf(rs[0], look)
      case Err(e) => Err(e)
      case Ok(r) =>
        match RulesOf(rs[1..], look)
        case Err(e) => Err(e)
        case Ok(rules) => Ok([r] + rules)
  }

  /**
   * What DescribeWebACL returns: nothing, and no error, when the web ACL
   * itself cannot be fetched; the first failed rule or IP-set lookup; or the
   * assembled snapshot.
   */
  function Describe(target: string, look: Lookups): Result<Option<WebACL>, Error>
  {
    match look.getWebACL(target)
    case Err(_) => Ok(None)
    case Ok(info) =>
      match RulesOf(info.Rules, look)
      case Err(e) => Err(e)
      case Ok(rules) => Ok(Some(WebACL(info.WebACLId, info.Name, rules)))
  }

  /** The IP sets come out one per predicate, in order, exactly when every lookup succeeds. */
  lemma {:induction false} DataSetsOfOk(ps: seq<Predicate>, look: Lookups)
    ensures DataSetsOf(ps, look).Ok? <==> forall j :: 0 <= j < |ps| ==> DataSetOf(ps[j], look).Ok?
    ensures DataSetsOf(ps, look).Ok? ==>
      |DataSetsOf(ps, look).value| == |ps|
      && forall j :: 0 <= j < |ps| ==> DataSetsOf(ps, look).value[j] == DataSetOf(ps[j], look).value
  {
    if ps != [] {
      DataSetsOfOk(ps[1..], look);
      assert forall j :: 1 <= j < |ps| ==> ps[j] == ps[1..][j - 1];
    }
  }

  /** A failure is the error of the first predicate whose lookup fails. */
  lemma {:induction false} DataSetsOfFirstError(ps: seq<Predicate>, look: Lookups, k: int)
    requires 0 <= k < |ps| && DataSetOf(ps[k], look).Err?
    requires forall j :: 0 <= j < k ==> DataSetOf(ps[j], look).Ok?
    ensures DataSetsOf(ps, look) == Err(DataSetOf(ps[k], look).error)
  {
    if k > 0 {
      DataSetsOfFirstError(ps[1..], look, k - 1);
    }
  }

  /** Every rule comes out, in order, exactly when every lookup for every rule succeeds. */
  lemma {:induction false} RulesOfOk(rs: seq<ActivatedRule>, look: Lookups)
    ensures RulesOf(rs, look).Ok? <==> forall i :: 0 <= i < |rs| ==> RuleOf(rs[i], look).Ok?
    ensures RulesOf(rs, look).Ok? ==>
      |RulesOf(rs, look).value| == |rs|
      && forall i :: 0 <= i < |rs| ==> RulesOf(rs, look).value[i] == RuleOf(rs[i], look).value
  {
    if rs != [] {
      RulesOfOk(rs[1..], look);
      assert forall i :: 1 <= i < |rs| ==> rs[i] == rs[1..][i - 1];
    }
  }

  /** A failure is the error of the first rule any of whose lookups fails. */
  lemma {:induction false} RulesOfFirstError(rs: seq<ActivatedRule>, look: Lookups, k: int)
    requires 0 <= k < |rs| && RuleOf(rs[k], look).Err?
    requires forall i :: 0 <= i < k ==> RuleOf(rs[i], look).Ok?
    ensures RulesOf(rs, look) == Err(RuleOf(rs[k], look).error)
  {
    if k > 0 {
      RulesOfFirstError(rs[1..], look, k - 1);
    }
  }

  /** A failed rule lookup, or else the first failed IP-set lookup, fails the rule. */
  lemma RuleOfMeaning(r: ActivatedRule, look: Lookups)
    ensures look.getRule(r.RuleId).Err? ==> RuleOf(r, look) == Err(look.getRule(r.RuleId).error)
    ensures look.getRule(r.RuleId).Ok? ==>
      var ps := look.getRule(r.RuleId).value.Predicates;
      && (RuleOf(r, look).Ok? <==> forall j :: 0 <= j < |ps| ==> look.getIPSet(ps[j].DataId).Ok?)
      && (RuleOf(r, look).Ok? ==>
            var rule := RuleOf(r, look).value;
            && rule.Type == r.Type && rule.ActionType == r.ActionType
            && rule.Priority == r.Priority && rule.RuleID == r.RuleId
            && |rule.IPDataSet| == |ps|
            && forall j :: 0 <= j < |ps| ==>
                 rule.IPDataSet[j].ID == ps[j].DataId
                 && rule.IPDataSet[j].IPList == Values(look.getIPSet(ps[j].DataId).value.IPSetDescriptors))
  {
    if look.getRule(r.RuleId).Ok? {
      DataSetsOfOk(look.getRule(r.RuleId).value.Predicates, look);
    }
  }

  /**
   * The assembled snapshot copies the ACL's id and name and has one rule per
   * listed rule, in order. A missing ACL is no error; a failed rule or IP-set
   * lookup is.
   */
  lemma DescribeMeaning(target: string, look: Lookups)
    ensures look.getWebACL(target).Err? ==> Describe(target, look) == Ok(None)
    ensures look.getWebACL(target).Ok? ==>
      var info := look.getWebACL(target).value;
      && (Describe(target, look).Ok? <==> forall i :: 0 <= i < |info.Rules| ==> RuleOf(info.Rules[i], look).Ok?)
      && (Describe(target, look).Ok? ==>
            Describe(target, look).value.Some?
            && var acl := Describe(target, look).value.value;
            && acl.ID == info.WebACLId && acl.Name == info.Name
            && |acl.Rules| == |info.Rules|
            && forall i :: 0 <= i < |info.Rules| ==> acl.Rules[i] == RuleOf(info.Rules[i], look).value)
  {
    if look.getWebACL(target).Ok? {
      RulesOfOk(look.getWebACL(target).value.Rules, look);
    }
  }

  /** The failure DescribeWebACL reports is the first in the order of the lookups. */
  lemma DescribeFirstError(target: string, look: Lookups, k: int)
    requires look.getWebACL(target).Ok?
    requires 0 <= k < |look.getWebACL(target).value.Rules|
    requires RuleOf(look.getWebACL(target).value.Rules[k], look).Err?
    requires forall i :: 0 <= i < k ==> RuleOf(look.getWebACL(target).value.Rules[i], look).Ok?
    ensures Describe(target, look) == Err(RuleOf(look.getWebACL(target).value.Rules[k], look).error)
  {
    RulesOfFirstError(look.getWebACL(target).value.Rules, look, k);
  }

  /**
   * The predicate loop of DescribeWebACL: one IP set per predicate, its list
   * copied descriptor by descriptor.
   */
  method CollectIPSets(ps: seq<Predicate>, look: Lookups) returns (r: Result<seq<IPDataSet>, Error>)
    ensures r == DataSetsOf(ps, look)
  {
    var dataSet: seq<IPDataSet> := [];
    DataSetsOfOk(ps, look);
    for j := 0 to |ps|
      invariant |dataSet| == j
      invariant forall m :: 0 <= m < j ==> DataSetOf(ps[m], look).Ok? && dataSet[m] == DataSetOf(ps[m], look).value
    {
      var data := look.getIPSet(ps[j].DataId);
      if data.Err? {
        DataSetsOfFirstError(ps, look, j);
        return Err(data.error);
      }
      var tempIPSet := IPDataSet(ps[j].DataId, []);
      var l: seq<string> := [];
      var descriptors := data.value.IPSetDescriptors;
      if |descriptors| > 0 {
        for d := 0 to |descriptors|
          invariant l == Values(descriptors[..d])
        {
          assert descriptors[..d + 1] == descriptors[..d] + [descriptors[d]];
          l := l + [descriptors[d].Value];
        }
        assert descriptors[..|descriptors|] == descriptors;
      }
      tempIPSet := tempIPSet.(IPList := l);
      dataSet := dataSet + [tempIPSet];
    }
    assert dataSet == DataSetsOf(ps, look).value;
    return Ok(dataSet);
  }

  /**
   * The lookups for one rule of DescribeWebACL: GetRule, then the IP sets
   * of its predicates. A rule without predicates keeps its empty list.
   */
  method FetchRuleSets(ruleId: string, look: Lookups) returns (r: Result<seq<IPDataSet>, Error>)
    ensures r == RuleSetsOf(ruleId, look)
  {
    var ruleInfo := look.getRule(ruleId);
    if ruleInfo.Err? {
      return Err(ruleInfo.error);
    }
    var predicates := ruleInfo.value.Predicates;
    if |predicates| > 0 {
      r := CollectIPSets(predicates, look);
    } else {
      r := Ok([]);
    }
  }

  /**
   * DescribeWebACL: copies the ACL's id, name and rules, then fills in each
   * rule's IP sets in place.
   */
  method DescribeWebACL(target: string, look: Lookups) returns (r: Result<Option<WebACL>, Error>)
    ensures r == Describe(target, look)
  {
    var fetched := look.getWebACL(target);
    if fetched.Err? {
      return Ok(None);
    }
    var info := fetched.value;
    var ret := WebACL(info.WebACLId, info.Name, []);
    if |info.Rules| > 0 {
      var rules: seq<ACLRule> := [];
      for k := 0 to |info.Rules|
        invariant |rules| == k && forall j :: 0 <= j < k ==> rules[j] == CopyRule(info.Rules[j])
      {
        rules := rules + [ACLRule(info.Rules[k].Type, info.Rules[k].ActionType, info.Rules[k].Priority, info.Rules[k].RuleId, [])];
      }
      ret := ret.(Rules := rules);
    }
    for i := 0 to |ret.Rules|
      invariant ret.ID == info.WebACLId && ret.Name == info.Name && |ret.Rules| == |info.Rules|
      invariant forall j :: 0 <= j < i ==> RuleOf(info.Rules[j], look).Ok? && ret.Rules[j] == RuleOf(info.Rules[j], look).value
      invariant forall j :: i <= j < |ret.Rules| ==> ret.Rules[j] == CopyRule(info.Rules[j])
    {
      var rule := ret.Rules[i];
      var dataSet := FetchRuleSets(rule.RuleID, look);
      if dataSet.Err? {
        RulesOfFirstError(info.Rules, look, i);
        return Err(dataSet.error);
      }
      assert RuleOf(info.Rules[i], look) == Ok(rule.(IPDataSet := dataSet.value));
      ret := ret.(Rules := ret.Rules[i := rule.(IPDataSet := dataSet.value)]);
    }
    RulesOfOk(info.Rules, look);
    assert ret == WebACL(info.WebACLId, info.Name, RulesOf(info.Rules, look).value);
    return Ok(Some(ret));
  }

  /** The option SelectACL offers for one web ACL. */
  function ACLOption(acl: WebACLSummary): string
  {
    acl.Name + " / " + acl.WebACLId
  }

  /** Neither the name nor the id holds a `/`, and the id has no surrounding white space. */
  predicate PlainOption(acl: WebACLSummary)
  {
    '/' !in acl.Name && '/' !in acl.WebACLId
    && (acl.WebACLId == [] || (!IsSpace(acl.WebACLId[0]) && !IsSpace(acl.WebACLId[|acl.WebACLId| - 1])))
  }

  /**
   * ParseWebACLID: the text between the first and the second `/`, trimmed.
   * Without a `/` the source indexes past the end of the split.
   */
  function ParseWebACLID(str: string): (id: string)
    requires '/' in str
    ensures '/' !in id
    ensures id == [] || (!IsSpace(id[0]) && !IsSpace(id[|id| - 1]))
  {
    CountZero(str, '/');
    SplitPartsFree(str, '/');
    TrimSpaceKeepsOut(Split(str, '/')[1], '/');
    TrimSpace(Split(str, '/')[1])
  }

  /** The id is the trimmed text after the first `/`, up to the end or to the next `/`. */
  lemma ParseWebACLIDMeaning(before: string, between: string, after: string)
    requires '/' !in before && '/' !in between
    ensures ParseWebACLID(before + "/" + between) == TrimSpace(between)
    ensures ParseWebACLID(before + "/" + between + "/" + after) == TrimSpace(between)
  {
    SplitAtFirst(before, '/', between);
    SplitNoSep(between, '/');
    assert before + "/" + between == before + ['/'] + between;
    SplitAtFirst(between, '/', after);
    SplitAtFirst(before, '/', between + "/" + after);
    assert before + "/" + between + "/" + after == before + ['/'] + (between + ['/'] + after);
  }

  /** A leading blank is trimmed away. */
  lemma TrimBlankPrefix(s: string)
    requires s == [] || (!IsSpace(s[0]) && !IsSpace(s[|s| - 1]))
    ensures TrimSpace(" " + s) == s
  {
    assert (" " + s)[1..] == s;
    TrimSpaceUnpadded(s);
  }

  /**
   * Picking an option gives back that ACL's id, as long as neither the name
   * nor the id contains `/` and the id has no surrounding white space.
   */
  lemma OptionRoundTrip(acl: WebACLSummary)
    requires PlainOption(acl)
    ensures ParseWebACLID(ACLOption(acl)) == acl.WebACLId
  {
    var name, id := acl.Name, acl.WebACLId;
    assert ACLOption(acl) == (name + " ") + "/" + (" " + id);
    ParseWebACLIDMeaning(name + " ", " " + id, "");
    TrimBlankPrefix(id);
  }

  /** pkg/aws/waf_test.go: the option for ACL `1234-1234-1234` named `test-web-acl`. */
  lemma ParseTestOption()
    ensures ParseWebACLID("test-web-acl / 1234-1234-1234") == "1234-1234-1234"
  {
    var name, id := "test-web-acl", "1234-1234-1234";
    assert name + " / " + id == "test-web-acl / 1234-1234-1234";
    assert '/' !in name && '/' !in id;
    assert !IsSpace(id[0]) && !IsSpace(id[|id| - 1]);
    OptionRoundTrip(WebACLSummary(name, id));
  }

  /**
   * SelectACL, with ListWebACLs' answer and the option the user picked as
   * inputs. The prompt answers with one of the options built here, or with
   * the empty string when it is dismissed.
   */
  method SelectACL(listed: Result<seq<WebACLSummary>, Error>, answer: string) returns (r: Result<string, Error>)
    requires listed.Ok? ==> answer == "" || exists k :: 0 <= k < |listed.value| && answer == ACLOption(listed.value[k])
    ensures listed.Err? ==> r == Err(listed.error)
    ensures listed.Ok? && answer == "" ==> r == Err(SelectionCanceled)
    ensures listed.Ok? && answer != "" ==>
              r.Ok? && exists k :: 0 <= k < |listed.value| && answer == ACLOption(listed.value[k])
                                   && (PlainOption(listed.value[k]) ==> r.value == listed.value[k].WebACLId)
  {
    if listed.Err? {
      return Err(listed.error);
    }
    var acls := listed.value;
    var options: seq<string> := [];
    for k := 0 to |acls|
      invariant |options| == k && forall j :: 0 <= j < k ==> options[j] == ACLOption(acls[j])
    {
      options := options + [acls[k].Name + " / " + acls[k].WebACLId];
    }
    if |answer| == 0 {
      return Err(SelectionCanceled);
    }
    var k :| 0 <= k < |options| && answer == options[k];
    assert '/' in answer by {
      assert answer[|acls[k].Name| + 1] == '/';
    }
    if PlainOption(acls[k]) {
      OptionRoundTrip(acls[k]);
    }
    return Ok(ParseWebACLID(answer));
  }
}
