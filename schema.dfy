/** The records of pkg/schema/schema.go that the modelled code builds or reads. */
module Schema {

  /** The `maintenance` section of a configuration. */
  datatype Maintenance = Maintenance(Message: string, Arns: seq<string>)

  /** The `loadtest` section of a configuration. */
  datatype Loadtest = Loadtest(RDS: seq<string>, ASG: seq<string>)

  /** One entry of the YAML configuration file: a profile and the roles it may assume. */
  datatype Config = Config(
    Profile: string,
    Name: string,
    Duration: int,
    Alias: map<string, string>,
    AssumeRoles: map<string, string>,
    Databases: map<string, seq<string>>,
    Maintenance: Maintenance,
    Loadtest: Loadtest)

  /** An IP set referenced by a WAF rule, with its literal address strings. */
  datatype IPDataSet = IPDataSet(ID: string, IPList: seq<string>)

  datatype ACLRule = ACLRule(
    Type: string,
    ActionType: string,
    Priority: int,
    RuleID: string,
    IPDataSet: seq<IPDataSet>)

  /** A snapshot of a WAF web ACL: its rules, in order, each with its IP sets. */
  datatype WebACL = WebACL(ID: string, Name: string, Rules: seq<ACLRule>)

  /** The answer for one address: whether it was found and in which IP set. */
  datatype IPCheckResult = IPCheckResult(IP: string, IPSetID: string, Result: bool)
}
