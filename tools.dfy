/** The helpers of pkg/tools/tools.go that carry logic. */
module Tools {
  import opened Wrappers
  import opened Errors
  import GoStrings

  /** IsStringInArray: a left-to-right search that stops at the first equal element. */
  method IsStringInArray(s: string, arr: seq<string>) returns (found: bool)
    ensures found <==> s in arr
  {
    for i := 0 to |arr|
      invariant s !in arr[..i]
    {
      if arr[i] == s {
        return true;
      }
    }
    return false;
  }

  /** GetKeys: the keys of the map, each once, in an order the model leaves open as Go does. */
  method GetKeys(m: map<string, string>) returns (keys: seq<string>)
    ensures |keys| == |m|
    ensures forall k :: k in keys <==> k in m
    ensures forall i, j :: 0 <= i < j < |keys| ==> keys[i] != keys[j]
  {
    keys := [];
    var rest := m.Keys;
    while rest != {}
      invariant rest <= m.Keys
      invariant forall k :: k in keys <==> k in m.Keys - rest
      invariant forall i, j :: 0 <= i < j < |keys| ==> keys[i] != keys[j]
      invariant |keys| + |rest| == |m.Keys|
      decreases rest
    {
      var k :| k in rest;
      assert k !in keys;
      keys := keys + [k];
      rest := rest - {k};
    }
  }

  /**
   * FormatKeyForDisplay: sixteen asterisks, then the last four characters of
   * the key. Keys shorter than four characters make Go's slice panic.
   */
  function FormatKeyForDisplay(k: string): (r: string)
    requires |k| >= 4
    ensures |r| == 20
    ensures forall i :: 0 <= i < 16 ==> r[i] == '*'
    ensures r[16..] == k[|k| - 4..]
  {
    "****************" + k[|k| - 4..]
  }

  /** The display shows nothing of a key but its last four characters. */
  lemma FormatKeyHidesPrefix(k1: string, k2: string)
    requires |k1| >= 4 && |k2| >= 4
    ensures FormatKeyForDisplay(k1) == FormatKeyForDisplay(k2) <==> k1[|k1| - 4..] == k2[|k2| - 4..]
  {
    var r1, r2 := FormatKeyForDisplay(k1), FormatKeyForDisplay(k2);
    if r1 == r2 {
      assert r1[16..] == r2[16..];
    }
  }

  /**
   * AskContinue's decision on the answer typed at the prompt: go on when the
   * lower-cased answer is "yes" or "y", otherwise stop.
   */
  function AskContinue(answer: string): (err: Option<Error>)
    ensures err.None? || err == Some(StopProcess)
  {
    if GoStrings.ToLower(answer) in ["yes", "y"] then None else Some(StopProcess)
  }

  predicate IsOneOf(c: char, lower: char, upper: char)
  {
    c == lower || c == upper
  }

  /** The answers that let the process go on: "y" and "yes" in any mix of cases, and nothing else. */
  lemma {:induction false} AskContinueAccepts(answer: string)
    ensures AskContinue(answer).None? <==>
      (|answer| == 1 && IsOneOf(answer[0], 'y', 'Y'))
      || (|answer| == 3 && IsOneOf(answer[0], 'y', 'Y') && IsOneOf(answer[1], 'e', 'E') && IsOneOf(answer[2], 's', 'S'))
  {
    var lower := GoStrings.ToLower(answer);
    if |answer| == 1 {
      assert lower == "y" <==> lower[0] == 'y';
    } else if |answer| == 3 {
      assert lower == "yes" <==> lower[0] == 'y' && lower[1] == 'e' && lower[2] == 's';
    }
  }

  /** IsExpired: the clock `now` has passed `targetDate + timeAdded` (all in nanoseconds). */
  predicate IsExpired(targetDate: int, timeAdded: int, now: int): (expired: bool)
    ensures expired <==> targetDate + timeAdded < now
  {
    now - (targetDate + timeAdded) > 0
  }

  /** Once the deadline has passed it stays passed as the clock moves on. */
  lemma ExpiredStaysExpired(targetDate: int, timeAdded: int, now: int, later: int)
    requires now <= later && IsExpired(targetDate, timeAdded, now)
    ensures IsExpired(targetDate, timeAdded, later)
  {
  }
}
