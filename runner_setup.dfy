/**
 * pkg/runner/runner.go, Setup and CheckTarget: which role ARN `act setup`
 * assumes for a target, under which session name and for how long.
 */
module AssumeSetup {
  import opened Wrappers
  import opened Errors
  import opened Schema

  /** Go's map read: a missing key reads as the empty string. */
  function Lookup(m: map<string, string>, k: string): string
  {
    if k in m then m[k] else ""
  }

  /**
   * The ARN lookup of Setup: through the alias table when there is one, then
   * by the target itself when that gave nothing.
   */
  function ResolveArn(c: Config, target: string): (arn: string)
    ensures |c.Alias| == 0 ==> arn == Lookup(c.AssumeRoles, target)
    ensures arn == "" ==> Lookup(c.AssumeRoles, target) == ""
  {
    var aliased := if |c.Alias| > 0 then Lookup(c.AssumeRoles, Lookup(c.Alias, target)) else "";
    if |aliased| == 0 then Lookup(c.AssumeRoles, target) else aliased
  }

  /** A non-empty ARN is always one of the configured roles. */
  lemma ResolvedArnIsRole(c: Config, target: string)
    ensures ResolveArn(c, target) != "" ==> ResolveArn(c, target) in c.AssumeRoles.Values
  {
    var arn := ResolveArn(c, target);
    if arn != "" {
      if |c.Alias| > 0 && Lookup(c.AssumeRoles, Lookup(c.Alias, target)) != "" {
        assert c.AssumeRoles[Lookup(c.Alias, target)] == arn;
      } else {
        assert c.AssumeRoles[target] == arn;
      }
    }
  }

  /** An alias whose role is registered with a non-empty ARN takes precedence over the target's own entry. */
  lemma AliasTakesPrecedence(c: Config, target: string)
    requires target in c.Alias && c.Alias[target] in c.AssumeRoles && c.AssumeRoles[c.Alias[target]] != ""
    ensures ResolveArn(c, target) == c.AssumeRoles[c.Alias[target]]
  {
    assert target in c.Alias.Keys;
  }

  /**
   * Without a usable alias the target is looked up by itself. An alias that
   * names no role, or a role with an empty ARN, falls back the same way.
   */
  lemma AliasFallsBack(c: Config, target: string)
    requires target in c.Alias ==> Lookup(c.AssumeRoles, c.Alias[target]) == ""
    requires target !in c.Alias ==> Lookup(c.AssumeRoles, "") == ""
    ensures ResolveArn(c, target) == Lookup(c.AssumeRoles, target)
  {
  }

  /**
   * The zero value of Go's map read: once any alias is configured, a target
   * that is not an alias is looked up under the empty role name first, and a
   * role registered under that name wins over the target's own entry.
   */
  lemma UnaliasedReadsEmptyRoleName(c: Config, target: string)
    requires |c.Alias| > 0 && target !in c.Alias && Lookup(c.AssumeRoles, "") != ""
    ensures ResolveArn(c, target) == c.AssumeRoles[""]
  {
  }

  /** CheckTarget: an empty ARN means the target is not registered. */
  function CheckTarget(arn: string, target: string): (err: Option<Error>)
    ensures err.None? <==> |arn| > 0
    ensures err.Some? ==> err.value == NotRegistered(target)
  {
    if |arn| > 0 then None else Some(NotRegistered(target))
  }

  /** What Setup hands to GetAssumeCreds. */
  datatype AssumeRequest = AssumeRequest(Arn: string, Name: string, Duration: int)

  /**
   * Setup up to the GetAssumeCreds call. `asked` is what the interactive
   * AskAssumeTarget prompt answers when no argument is given.
   */
  function ResolveSetup(config: Option<Config>, args: seq<string>, asked: Result<string, Error>, flagDuration: int)
    : (r: Result<AssumeRequest, Error>)
    ensures config.None? ==> r == Err(NoConfiguration)
    ensures config.Some? && args == [] && asked.Err? ==> r == Err(asked.error)
    ensures config.Some? && (args != [] || asked.Ok?) ==>
      var target := if args == [] then asked.value else args[0];
      (r.Ok? <==> ResolveArn(config.value, target) != "")
      && (r.Err? ==> r.error == NotRegistered(target))
      && (r.Ok? ==> r.value.Arn == ResolveArn(config.value, target))
    ensures r.Ok? ==> r.value.Arn != "" && r.value.Arn in config.value.AssumeRoles.Values
    ensures r.Ok? ==> r.value.Name == config.value.Name
    ensures r.Ok? && flagDuration > 0 ==> r.value.Duration == flagDuration
    ensures r.Ok? && flagDuration <= 0 ==> r.value.Duration == config.value.Duration
  {
    if config.None? then Err(NoConfiguration)
    else
      var c := config.value;
      var target := if |args| == 0 then asked else Ok(args[0]);
      match target
      case Err(e) => Err(e)
      case Ok(t) =>
        var arn := ResolveArn(c, t);
        ResolvedArnIsRole(c, t);
        match CheckTarget(arn, t)
        case Some(e) => Err(e)
        case None =>
          var duration := if flagDuration > 0 then flagDuration else c.Duration;
          Ok(AssumeRequest(arn, c.Name, duration))
  }
}
