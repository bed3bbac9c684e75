/**
 * pkg/runner/runner.go, RenewCredentials: replacing the access key of the
 * configured IAM user and writing the new one into the shared credentials
 * file. The IAM user's keys and the file on disk are the state; every call
 * into AWS, the MFA check and the file parser can fail, and a failure stops
 * the run where it happens.
 */
module CredentialRotation {
  import opened Wrappers
  import opened Errors
  import opened Schema

  const AccessKeyIdField: string := "aws_access_key_id"
  const SecretAccessKeyField: string := "aws_secret_access_key"
  /** The IAM service holds at most this many access keys per user. */
  const KeyLimit: nat := 2

  /** A key as CreateAccessKey issues it. */
  datatype AccessKey = AccessKey(Id: string, Secret: string)

  /** One `[name]` section of the credentials file with its fields. */
  datatype Section = Section(Name: string, Fields: map<string, string>)

  /** The outside effects of a run, in the order they happen. */
  datatype Event = Deleted(id: string) | Created(id: string) | Saved

  /** Which of the external calls fail, and with what. */
  datatype Faults = Faults(
    mfa: Option<Error>,
    read: Option<Error>,
    list: Option<Error>,
    delete: Option<Error>,
    create: Option<Error>,
    save: Option<Error>)

  /** Field read through go-ini's Key(...).String(): a missing field reads as "". */
  function Field(fields: map<string, string>, key: string): string
  {
    if key in fields then fields[key] else ""
  }

  /** The index of the first section with the given name, as GetSection and the update loop find it. */
  function FindSection(file: seq<Section>, name: string): (k: Option<nat>)
    ensures k.None? <==> forall i :: 0 <= i < |file| ==> file[i].Name != name
    ensures k.Some? ==> k.value < |file| && file[k.value].Name == name
                        && forall i :: 0 <= i < k.value ==> file[i].Name != name
  {
    if file == [] then None
    else if file[0].Name == name then Some(0)
    else
      var k := FindSection(file[1..], name);
      assert forall i :: 1 <= i < |file| ==> file[i] == file[1..][i - 1];
      if k.None? then None else Some(k.value + 1)
  }

  /** The key id the file holds for a profile. */
  function CurrentKey(file: seq<Section>, profile: string): string
  {
    match FindSection(file, profile)
    case None => ""
    case Some(k) => Field(file[k].Fields, AccessKeyIdField)
  }

  /** The file after the new key is written into the profile's section. */
  function SetCredentials(file: seq<Section>, profile: string, key: AccessKey): seq<Section>
  {
    match FindSection(file, profile)
    case None => file
    case Some(k) =>
      file[k := file[k].(Fields := file[k].Fields[AccessKeyIdField := key.Id][SecretAccessKeyField := key.Secret])]
  }

  /**
   * Writing a key changes the two key fields of the profile's section and
   * nothing else: no section is added, removed, renamed or reordered.
   */
  lemma SetCredentialsMeaning(file: seq<Section>, profile: string, key: AccessKey)
    ensures |SetCredentials(file, profile, key)| == |file|
    ensures forall i :: 0 <= i < |file| ==> SetCredentials(file, profile, key)[i].Name == file[i].Name
    ensures forall i :: 0 <= i < |file| && Some(i) != FindSection(file, profile) ==>
              SetCredentials(file, profile, key)[i] == file[i]
    ensures FindSection(file, profile).Some? ==>
              var k := FindSection(file, profile).value;
              var fields := SetCredentials(file, profile, key)[k].Fields;
              && Field(fields, AccessKeyIdField) == key.Id
              && Field(fields, SecretAccessKeyField) == key.Secret
              && fields.Keys == file[k].Fields.Keys + {AccessKeyIdField, SecretAccessKeyField}
              && forall f :: f in fields && f != AccessKeyIdField && f != SecretAccessKeyField ==>
                   fields[f] == file[k].Fields[f]
  {
  }

  /** The user's key ids without `id`. */
  function Remove(keys: seq<string>, id: string): (r: seq<string>)
    ensures forall x :: x in r <==> x in keys && x != id
  {
    if keys == [] then []
    else (if keys[0] == id then [] else [keys[0]]) + Remove(keys[1..], id)
  }

  lemma {:induction false} RemoveAppend(keys: seq<string>, id: string, x: string)
    requires x != id
    ensures Remove(keys + [x], id) == Remove(keys, id) + [x]
  {
    if keys == [] {
      assert Remove([x], id) == [x] + Remove([], id);
    } else {
      assert (keys + [x])[1..] == keys[1..] + [x];
      RemoveAppend(keys[1..], id, x);
    }
  }

  lemma {:induction false} RemoveShrinks(keys: seq<string>, id: string)
    requires id in keys
    ensures |Remove(keys, id)| < |keys|
  {
    if keys[0] != id {
      RemoveShrinks(keys[1..], id);
    }
    RemoveLength(keys[1..], id);
  }

  lemma {:induction false} RemoveLength(keys: seq<string>, id: string)
    ensures |Remove(keys, id)| <= |keys|
  {
    if keys != [] {
      RemoveLength(keys[1..], id);
    }
  }

  /** DeleteAccessKey as the IAM service answers it: a key the user does not hold is an error. */
  function IamDelete(keys: seq<string>, id: string, fault: Option<Error>): (r: Result<seq<string>, Error>)
    ensures r.Ok? <==> fault.None? && id in keys
    ensures r.Ok? ==> id !in r.value && forall x :: x in keys && x != id ==> x in r.value
  {
    if fault.Some? then Err(fault.value)
    else if id !in keys then Err(NoSuchAccessKey(id))
    else Ok(Remove(keys, id))
  }

  /** CreateAccessKey as the IAM service answers it: a user may hold at most two keys. */
  function IamCreate(keys: seq<string>, issued: AccessKey, fault: Option<Error>): (r: Result<seq<string>, Error>)
    ensures r.Ok? <==> fault.None? && |keys| < KeyLimit
    ensures r.Ok? ==> r.value == keys + [issued.Id]
  {
    if fault.Some? then Err(fault.value)
    else if |keys| >= KeyLimit then Err(AccessKeyLimitExceeded)
    else Ok(keys + [issued.Id])
  }

  /** Where a run leaves the user's keys, the file, the effect log and the returned error. */
  datatype Outcome = Outcome(keys: seq<string>, file: seq<Section>, log: seq<Event>, err: Option<Error>)

  /** CreateNewCredentials, the section update and SaveTo. */
  function CreateAndSave(keys: seq<string>, file: seq<Section>, log: seq<Event>, profile: string,
                         issued: AccessKey, f: Faults): Outcome
  {
    match IamCreate(keys, issued, f.create)
    case Err(e) => Outcome(keys, file, log, Some(e))
    case Ok(created) =>
      if f.save.Some? then Outcome(created, file, log + [Created(issued.Id)], f.save)
      else Outcome(created, SetCredentials(file, profile, issued), log + [Created(issued.Id), Saved], None)
  }

  /** Creating and saving appends Created and then Saved to the log, as far as it gets. */
  lemma CreateAndSaveSteps(keys: seq<string>, file: seq<Section>, log: seq<Event>, profile: string,
                           issued: AccessKey, f: Faults)
    ensures var o := CreateAndSave(keys, file, log, profile, issued, f);
            && |log| <= |o.log| && o.log[..|log|] == log
            && o.log[|log|..] <= [Created(issued.Id), Saved]
            && (o.err.None? <==> |o.log| == |log| + 2)
            && o.file == if |o.log| == |log| + 2 then SetCredentials(file, profile, issued) else file
  {
    var o := CreateAndSave(keys, file, log, profile, issued, f);
    if IamCreate(keys, issued, f.create).Ok? {
      if f.save.Some? {
        assert o.log[|log|..] == [Created(issued.Id)];
      } else {
        assert o.log[|log|..] == [Created(issued.Id), Saved];
      }
    } else {
      assert o.log[|log|..] == [];
    }
  }

  /** The whole of RenewCredentials, step by step and stopping at the first failure. */
  function Renew(keys: seq<string>, file: seq<Section>, log: seq<Event>, config: Option<Config>,
                 issued: AccessKey, f: Faults): Outcome
  {
    if config.None? then Outcome(keys, file, log, Some(NoConfiguration))
    else if f.mfa.Some? then Outcome(keys, file, log, f.mfa)
    else if f.read.Some? then Outcome(keys, file, log, f.read)
    else
      var profile := config.value.Profile;
      if FindSection(file, profile).None? then Outcome(keys, file, log, Some(SectionNotFound(profile)))
      else
        var current := CurrentKey(file, profile);
        if f.list.Some? then Outcome(keys, file, log, f.list)
        else Rotate(keys, file, log, profile, current, issued, f)
  }

  /** The steps after the key list: the ordering rule proper. */
  function Rotate(keys: seq<string>, file: seq<Section>, log: seq<Event>, profile: string, current: string,
                  issued: AccessKey, f: Faults): Outcome
  {
    if |keys| == 2 then
      match IamDelete(keys, current, f.delete)
      case Err(e) => Outcome(keys, file, log, Some(e))
      case Ok(remaining) => CreateAndSave(remaining, file, log + [Deleted(current)], profile, issued, f)
    else
      var o := CreateAndSave(keys, file, log, profile, issued, f);
      if o.err.Some? then o
      else
        match IamDelete(o.keys, current, f.delete)
        case Err(e) => o.(err := Some(e))
        case Ok(remaining) => o.(keys := remaining, log := o.log + [Deleted(current)])
  }

  /** Nothing happens before the configuration, the MFA check, the file and the profile's section are in hand. */
  lemma EarlyFailuresChangeNothing(keys: seq<string>, file: seq<Section>, log: seq<Event>, config: Option<Config>,
                                   issued: AccessKey, f: Faults)
    requires config.None? || f.mfa.Some? || f.read.Some? || f.list.Some?
             || FindSection(file, config.value.Profile).None?
    ensures var o := Renew(keys, file, log, config, issued, f);
            o.keys == keys && o.file == file && o.log == log && o.err.Some?
  {
  }

  /**
   * The ordering rule. With two keys on the server the current key is
   * deleted first, then the new one is created and saved; otherwise the new
   * key is created and saved and only then is the current key deleted. A
   * failure stops the run: what happened is a prefix of the plan, and the
   * run succeeds exactly when all of it happened. So the current key is
   * deleted at most once.
   */
  lemma RenewOrdering(keys: seq<string>, file: seq<Section>, log: seq<Event>, config: Option<Config>,
                       issued: AccessKey, f: Faults)
    requires config.Some?
    ensures var o := Renew(keys, file, log, config, issued, f);
            var current := CurrentKey(file, config.value.Profile);
            && |log| <= |o.log| && o.log[..|log|] == log
            && (|keys| == 2 ==> o.log[|log|..] <= [Deleted(current), Created(issued.Id), Saved])
            && (|keys| != 2 ==> o.log[|log|..] <= [Created(issued.Id), Saved, Deleted(current)])
            && (o.err.None? <==> |o.log| == |log| + 3)
  {
    var profile := config.value.Profile;
    var current := CurrentKey(file, profile);
    if f.mfa.None? && f.read.None? && FindSection(file, profile).Some? && f.list.None? {
      if |keys| == 2 {
        assert Renew(keys, file, log, config, issued, f) == Rotate(keys, file, log, profile, current, issued, f);
        TwoKeysPath(keys, file, log, profile, current, issued, f);
      } else {
        assert Renew(keys, file, log, config, issued, f) == Rotate(keys, file, log, profile, current, issued, f);
        OtherPath(keys, file, log, profile, current, issued, f);
      }
    }
  }

  /** The steps after the key list when the user holds two keys. */
  lemma TwoKeysPath(keys: seq<string>, file: seq<Section>, log: seq<Event>, profile: string, current: string,
                    issued: AccessKey, f: Faults)
    requires |keys| == 2
    ensures var o := Rotate(keys, file, log, profile, current, issued, f);
            && |log| <= |o.log| && o.log[..|log|] == log
            && o.log[|log|..] <= [Deleted(current), Created(issued.Id), Saved]
            && (o.err.None? <==> |o.log| == |log| + 3)
            && o.file == if |o.log| == |log| + 3 then SetCredentials(file, profile, issued) else file
  {
    var o := Rotate(keys, file, log, profile, current, issued, f);
    if IamDelete(keys, current, f.delete).Ok? {
      var remaining := IamDelete(keys, current, f.delete).value;
      var log1 := log + [Deleted(current)];
      RemoveShrinks(keys, current);
      assert o == CreateAndSave(remaining, file, log1, profile, issued, f);
      CreateAndSaveSteps(remaining, file, log1, profile, issued, f);
      assert o.log[..|log|] == o.log[..|log1|][..|log|];
      assert o.log[|log|..] == [Deleted(current)] + o.log[|log1|..];
    } else {
      assert o.log[|log|..] == [];
    }
  }

  /** The steps after the key list when the user holds fewer or more than two keys. */
  lemma OtherPath(keys: seq<string>, file: seq<Section>, log: seq<Event>, profile: string, current: string,
                  issued: AccessKey, f: Faults)
    requires |keys| != 2
    ensures var o := Rotate(keys, file, log, profile, current, issued, f);
            && |log| <= |o.log| && o.log[..|log|] == log
            && o.log[|log|..] <= [Created(issued.Id), Saved, Deleted(current)]
            && (o.err.None? <==> |o.log| == |log| + 3)
            && o.file == if |o.log| >= |log| + 2 then SetCredentials(file, profile, issued) else file
  {
    var o := Rotate(keys, file, log, profile, current, issued, f);
    var c := CreateAndSave(keys, file, log, profile, issued, f);
    CreateAndSaveSteps(keys, file, log, profile, issued, f);
    if c.err.None? && IamDelete(c.keys, current, f.delete).Ok? {
      assert o.log == c.log + [Deleted(current)];
      assert o.log[..|log|] == c.log[..|log|];
      assert o.log[|log|..] == c.log[|log|..] + [Deleted(current)];
    }
  }

  /** Only a saved run touches the file, and then only through the profile's two key fields. */
  lemma RenewFile(keys: seq<string>, file: seq<Section>, log: seq<Event>, config: Option<Config>,
                  issued: AccessKey, f: Faults)
    requires config.Some?
    ensures var o := Renew(keys, file, log, config, issued, f);
            o.file == if Saved in o.log[|log|..] then SetCredentials(file, config.value.Profile, issued) else file
  {
    var profile := config.value.Profile;
    var current := CurrentKey(file, profile);
    var o := Renew(keys, file, log, config, issued, f);
    if f.mfa.None? && f.read.None? && FindSection(file, profile).Some? && f.list.None? {
      var e := o.log[|log|..];
      if |keys| == 2 {
        assert Renew(keys, file, log, config, issued, f) == Rotate(keys, file, log, profile, current, issued, f);
        TwoKeysPath(keys, file, log, profile, current, issued, f);
        SavedLast(e, Deleted(current), Created(issued.Id));
      } else {
        assert Renew(keys, file, log, config, issued, f) == Rotate(keys, file, log, profile, current, issued, f);
        OtherPath(keys, file, log, profile, current, issued, f);
        SavedSecond(e, Created(issued.Id), Deleted(current));
      }
    } else {
      assert o.log[|log|..] == [];
    }
  }

  lemma SavedLast(e: seq<Event>, a: Event, b: Event)
    requires e <= [a, b, Saved] && a != Saved && b != Saved
    ensures Saved in e <==> |e| == 3
  {
    assert e == [a, b, Saved][..|e|];
    if |e| == 3 {
      assert e[2] == Saved;
    } else {
      forall k | 0 <= k < |e|
        ensures e[k] != Saved
      {
        assert e[k] == [a, b][k];
      }
    }
  }

  lemma SavedSecond(e: seq<Event>, a: Event, c: Event)
    requires e <= [a, Saved, c] && a != Saved
    ensures Saved in e <==> |e| >= 2
  {
    assert e == [a, Saved, c][..|e|];
    if |e| >= 2 {
      assert e[1] == Saved;
    }
  }

  /** A successful run leaves the user with the other keys and the new one, and the file naming the new one. */
  lemma RenewSucceeded(keys: seq<string>, file: seq<Section>, log: seq<Event>, config: Option<Config>,
                       issued: AccessKey, f: Faults)
    requires config.Some? && issued.Id != CurrentKey(file, config.value.Profile)
    requires Renew(keys, file, log, config, issued, f).err.None?
    ensures var o := Renew(keys, file, log, config, issued, f);
            var current := CurrentKey(file, config.value.Profile);
            && current in keys
            && o.keys == Remove(keys, current) + [issued.Id]
            && CurrentKey(o.file, config.value.Profile) == issued.Id
  {
    var profile := config.value.Profile;
    var current := CurrentKey(file, profile);
    var o := Renew(keys, file, log, config, issued, f);
    SavedFileNamesKey(file, profile, issued);
    if |keys| == 2 {
      assert Renew(keys, file, log, config, issued, f) == Rotate(keys, file, log, profile, current, issued, f);
        TwoKeysPath(keys, file, log, profile, current, issued, f);
      var remaining := Remove(keys, current);
      RemoveShrinks(keys, current);
      assert o == CreateAndSave(remaining, file, log + [Deleted(current)], profile, issued, f);
    } else {
      assert Renew(keys, file, log, config, issued, f) == Rotate(keys, file, log, profile, current, issued, f);
        OtherPath(keys, file, log, profile, current, issued, f);
      var c := CreateAndSave(keys, file, log, profile, issued, f);
      assert c.keys == keys + [issued.Id];
      assert o.keys == Remove(c.keys, current);
      RemoveAppend(keys, current, issued.Id);
    }
  }

  /** After the write the profile's section names the new key. */
  lemma SavedFileNamesKey(file: seq<Section>, profile: string, key: AccessKey)
    requires FindSection(file, profile).Some?
    ensures CurrentKey(SetCredentials(file, profile, key), profile) == key.Id
  {
    SetCredentialsMeaning(file, profile, key);
    assert FindSection(SetCredentials(file, profile, key), profile) == FindSection(file, profile);
  }

  /**
   * The price of deleting first: with two keys, a failed save leaves a file
   * that still names the deleted key, while the new one exists only on the
   * server.
   */
  lemma TwoKeysFailedSave(keys: seq<string>, file: seq<Section>, log: seq<Event>, config: Option<Config>,
                          issued: AccessKey, f: Faults)
    requires config.Some? && FindSection(file, config.value.Profile).Some?
    requires |keys| == 2 && CurrentKey(file, config.value.Profile) in keys
    requires issued.Id != CurrentKey(file, config.value.Profile)
    requires f.mfa.None? && f.read.None? && f.list.None? && f.delete.None? && f.create.None? && f.save.Some?
    ensures var o := Renew(keys, file, log, config, issued, f);
            && o.err == f.save
            && o.file == file
            && CurrentKey(o.file, config.value.Profile) !in o.keys
            && issued.Id in o.keys
  {
    var current := CurrentKey(file, config.value.Profile);
    RemoveShrinks(keys, current);
  }

  /**
   * The section loop of RenewCredentials: the first section named after the
   * profile gets the new key id and secret.
   */
  method WriteKey(file: seq<Section>, profile: string, key: AccessKey) returns (cfg: seq<Section>)
    ensures cfg == SetCredentials(file, profile, key)
  {
    cfg := file;
    for i := 0 to |cfg|
      invariant cfg == file
      invariant forall j :: 0 <= j < i ==> cfg[j].Name != profile
    {
      if cfg[i].Name == profile {
        var fields := cfg[i].Fields[AccessKeyIdField := key.Id];
        fields := fields[SecretAccessKeyField := key.Secret];
        cfg := cfg[i := cfg[i].(Fields := fields)];
        break;
      }
    }
  }

  /** The IAM user's keys, the credentials file on disk and the effects so far. */
  class Account {
    var keys: seq<string>
    var file: seq<Section>
    var log: seq<Event>

    constructor(keys: seq<string>, file: seq<Section>)
      ensures this.keys == keys && this.file == file && this.log == []
    {
      this.keys := keys;
      this.file := file;
      this.log := [];
    }

    /** AWSClient.DeleteAccessKey. */
    method DeleteAccessKey(id: string, fault: Option<Error>) returns (err: Option<Error>)
      modifies this
      ensures IamDelete(old(keys), id, fault).Err? ==> err == Some(IamDelete(old(keys), id, fault).error) && unchanged(this)
      ensures IamDelete(old(keys), id, fault).Ok? ==>
        err.None? && keys == IamDelete(old(keys), id, fault).value && log == old(log) + [Deleted(id)] && file == old(file)
    {
      var r := IamDelete(keys, id, fault);
      if r.Err? {
        return Some(r.error);
      }
      keys := r.value;
      log := log + [Deleted(id)];
      return None;
    }

    /** AWSClient.CreateNewCredentials. */
    method CreateNewCredentials(issued: AccessKey, fault: Option<Error>) returns (r: Result<AccessKey, Error>)
      modifies this
      ensures IamCreate(old(keys), issued, fault).Err? ==> r == Err(IamCreate(old(keys), issued, fault).error) && unchanged(this)
      ensures IamCreate(old(keys), issued, fault).Ok? ==>
        r == Ok(issued) && keys == old(keys) + [issued.Id] && log == old(log) + [Created(issued.Id)] && file == old(file)
    {
      var created := IamCreate(keys, issued, fault);
      if created.Err? {
        return Err(created.error);
      }
      keys := created.value;
      log := log + [Created(issued.Id)];
      return Ok(issued);
    }

    /** ini.File.SaveTo: the whole file replaces what is on disk. */
    method SaveTo(cfg: seq<Section>, fault: Option<Error>) returns (err: Option<Error>)
      modifies this
      ensures fault.Some? ==> err == fault && unchanged(this)
      ensures fault.None? ==> err.None? && file == cfg && keys == old(keys) && log == old(log) + [Saved]
    {
      if fault.Some? {
        return fault;
      }
      file := cfg;
      log := log + [Saved];
      return None;
    }

    /**
     * RenewCredentials with the new key the service issues and the failures
     * of the external calls as inputs.
     */
    method RenewCredentials(config: Option<Config>, issued: AccessKey, f: Faults) returns (err: Option<Error>)
      modifies this
      ensures Outcome(keys, file, log, err) == Renew(old(keys), old(file), old(log), config, issued, f)
    {
      if config.None? {
        return Some(NoConfiguration);
      }
      var c := config.value;
      if f.mfa.Some? {
        return f.mfa;
      }
      if f.read.Some? {
        return f.read;
      }
      var cfg := file;
      var section := FindSection(cfg, c.Profile);
      if section.None? {
        return Some(SectionNotFound(c.Profile));
      }
      var currentAccessKey := Field(cfg[section.value].Fields, AccessKeyIdField);
      if f.list.Some? {
        return f.list;
      }
      err := RotateKey(c.Profile, currentAccessKey, issued, f);
    }

    /** RenewCredentials from the key list on, with `isDeleted` recording which order was taken. */
    method RotateKey(profile: string, currentAccessKey: string, issued: AccessKey, f: Faults) returns (err: Option<Error>)
      modifies this
      ensures Outcome(keys, file, log, err) == Rotate(old(keys), old(file), old(log), profile, currentAccessKey, issued, f)
    {
      var cfg := file;
      var isDeleted := false;
      if |keys| == 2 {
        err := DeleteAccessKey(currentAccessKey, f.delete);
        if err.Some? {
          return err;
        }
        isDeleted := true;
      }
      var newCredentials := CreateNewCredentials(issued, f.create);
      if newCredentials.Err? {
        return Some(newCredentials.error);
      }
      cfg := WriteKey(cfg, profile, newCredentials.value);
      err := SaveTo(cfg, f.save);
      if err.Some? {
        return err;
      }
      if !isDeleted {
        err := DeleteAccessKey(currentAccessKey, f.delete);
        if err.Some? {
          return err;
        }
      }
      return None;
    }
  }
}
