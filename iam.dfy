/** pkg/aws/iam.go: the expiry check of the access key in use. */
module Iam {
  import opened Wrappers
  import opened Errors
  import Tools

  /** One entry of ListAccessKeys; the creation time is in nanoseconds. */
  datatype AccessKeyMetadata = AccessKeyMetadata(AccessKeyId: string, CreateDate: int)

  const Hour: int := 3_600_000_000_000
  /** `24*180*time.Hour`: an access key lives 180 days. */
  const KeyLifetime: int := 24 * 180 * Hour

  /** The search loop: the first key with the given id decides; no such key is a configuration error. */
  function CheckKeys(keys: seq<AccessKeyMetadata>, accessKeyID: string, now: int): (err: Option<Error>)
    ensures (forall i :: 0 <= i < |keys| ==> keys[i].AccessKeyId != accessKeyID) ==>
              err == Some(AccessKeyConfigurationWrong)
    ensures forall i :: 0 <= i < |keys| && keys[i].AccessKeyId == accessKeyID
                        && (forall j :: 0 <= j < i ==> keys[j].AccessKeyId != accessKeyID) ==>
              err == (if now > keys[i].CreateDate + KeyLifetime then Some(AccessKeyExpired) else None)
  {
    if keys == [] then Some(AccessKeyConfigurationWrong)
    else if keys[0].AccessKeyId == accessKeyID then
      if Tools.IsExpired(keys[0].CreateDate, KeyLifetime, now) then Some(AccessKeyExpired) else None
    else
      var err := CheckKeys(keys[1..], accessKeyID, now);
      assert forall i :: 1 <= i < |keys| ==> keys[i] == keys[1..][i - 1];
      err
  }

  /**
   * CheckAccessKeyExpired, given what GetAccessKeyList returned and the
   * current time: the listing error, or the verdict on the key in use.
   */
  function CheckAccessKeyExpired(listed: Result<seq<AccessKeyMetadata>, Error>, accessKeyID: string, now: int)
    : (err: Option<Error>)
    ensures listed.Err? ==> err == Some(listed.error)
    ensures listed.Ok? ==> err == CheckKeys(listed.value, accessKeyID, now)
  {
    match listed
    case Err(e) => Some(e)
    case Ok(keys) => CheckKeys(keys, accessKeyID, now)
  }

  /** Keys after the first one with the id are never looked at. */
  lemma {:induction false} OnlyFirstMatchCounts(keys: seq<AccessKeyMetadata>, later: seq<AccessKeyMetadata>,
                                                 accessKeyID: string, now: int)
    requires exists i :: 0 <= i < |keys| && keys[i].AccessKeyId == accessKeyID
    ensures CheckKeys(keys + later, accessKeyID, now) == CheckKeys(keys, accessKeyID, now)
  {
    if keys[0].AccessKeyId != accessKeyID {
      assert (keys + later)[1..] == keys[1..] + later;
      var i :| 0 <= i < |keys| && keys[i].AccessKeyId == accessKeyID;
      assert keys[1..][i - 1].AccessKeyId == accessKeyID;
      OnlyFirstMatchCounts(keys[1..], later, accessKeyID, now);
    }
  }

  /** A key is reported as expired exactly when it was created more than 180 days before now. */
  lemma ExpiryBoundary(key: AccessKeyMetadata, now: int)
    ensures CheckKeys([key], key.AccessKeyId, now) == Some(AccessKeyExpired) <==> now - key.CreateDate > 180 * 24 * Hour
    ensures CheckKeys([key], key.AccessKeyId, now) == None <==> now - key.CreateDate <= 180 * 24 * Hour
  {
  }
}
