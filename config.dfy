/** pkg/config/config.go: defaulting, profile selection and the initial configuration. */
module Config {
  import opened Wrappers
  import opened Errors
  import opened Schema

  /** The role duration, in seconds, given to a configuration that leaves it at zero. */
  const DefaultDuration: int := 7200
  /** The role duration written into a new configuration file. */
  const InitDuration: int := 3600
  const DefaultProfile: string := "default"

  /** One configuration after defaulting: a zero duration becomes DefaultDuration. */
  function WithDefaultDuration(c: Config): (d: Config)
    ensures d.Duration != 0
    ensures c.Duration == 0 ==> d.Duration == DefaultDuration
    ensures c.Duration != 0 ==> d == c
    ensures d == c.(Duration := d.Duration)
  {
    if c.Duration == 0 then c.(Duration := DefaultDuration) else c
  }

  /** What setDefault leaves in the slice: every entry defaulted, in place. */
  function SetDefaults(configs: seq<Config>): (r: seq<Config>)
    ensures |r| == |configs|
    ensures forall i :: 0 <= i < |r| ==> r[i] == WithDefaultDuration(configs[i])
  {
    seq(|configs|, i requires 0 <= i < |configs| => WithDefaultDuration(configs[i]))
  }

  /** setDefault: gives every configuration with a zero duration the default duration, in place. */
  method SetDefault(configs: array<Config>)
    modifies configs
    ensures configs[..] == SetDefaults(old(configs[..]))
  {
    for i := 0 to configs.Length
      invariant forall k :: 0 <= k < i ==> configs[k] == WithDefaultDuration(old(configs[k]))
      invariant forall k :: i <= k < configs.Length ==> configs[k] == old(configs[k])
    {
      if configs[i].Duration == 0 {
        configs[i] := configs[i].(Duration := DefaultDuration);
      }
    }
  }

  /** After defaulting, no configuration has a zero duration; nothing else differs. */
  lemma SetDefaultsMeaning(configs: seq<Config>)
    ensures forall i :: 0 <= i < |configs| ==> SetDefaults(configs)[i].Duration != 0
    ensures forall i :: 0 <= i < |configs| && configs[i].Duration != 0 ==> SetDefaults(configs)[i] == configs[i]
    ensures forall i :: 0 <= i < |configs| && configs[i].Duration == 0 ==>
              SetDefaults(configs)[i] == configs[i].(Duration := DefaultDuration)
  {
  }

  /** Defaulting twice is defaulting once. */
  lemma SetDefaultsIdempotent(configs: seq<Config>)
    ensures SetDefaults(SetDefaults(configs)) == SetDefaults(configs)
  {
  }

  /**
   * selectConfigWithProfile, given what getLocalConfig returned: the first
   * configuration whose profile is the target, or "profile does not exist".
   */
  method SelectConfigWithProfile(loaded: Result<seq<Config>, Error>, targetProfile: string)
    returns (r: Result<Config, Error>)
    ensures loaded.Err? ==> r == Err(loaded.error)
    ensures loaded.Ok? && r.Ok? ==>
      exists k :: 0 <= k < |loaded.value| && r.value == loaded.value[k] && r.value.Profile == targetProfile
        && forall j :: 0 <= j < k ==> loaded.value[j].Profile != targetProfile
    ensures loaded.Ok? && r.Err? ==>
      r.error == ProfileDoesNotExist(targetProfile) && forall c :: c in loaded.value ==> c.Profile != targetProfile
  {
    if loaded.Err? {
      return Err(loaded.error);
    }
    var configs := loaded.value;
    for i := 0 to |configs|
      invariant forall j :: 0 <= j < i ==> configs[j].Profile != targetProfile
    {
      if configs[i].Profile == targetProfile {
        return Ok(configs[i]);
      }
    }
    return Err(ProfileDoesNotExist(targetProfile));
  }

  /** GetInitConfig: the single configuration written by `act init`. */
  function GetInitConfig(name: string): (configs: seq<Config>)
    ensures |configs| == 1
    ensures configs[0].Profile == DefaultProfile && configs[0].Name == name && configs[0].Duration == InitDuration
    ensures configs[0].AssumeRoles == map["preprod" := "", "prod" := ""]
    ensures configs[0].Databases == map["preprod" := [""], "prod" := [""]]
    ensures configs[0].Alias == map[]
  {
    [Config(DefaultProfile, name, InitDuration, map[], map["preprod" := "", "prod" := ""],
            map["preprod" := [""], "prod" := [""]], Maintenance("", []), Loadtest([], []))]
  }

  /** A freshly written configuration is already defaulted: loading it changes nothing. */
  lemma InitConfigIsDefaulted(name: string)
    ensures SetDefaults(GetInitConfig(name)) == GetInitConfig(name)
  {
  }
}
