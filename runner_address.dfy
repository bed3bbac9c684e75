/**
 * pkg/runner/runner.go, the addresses of `act has-ip`: IsValidAddress checks
 * one IPv4 address or CIDR block, ParseTargetList checks a whole list and
 * gives bare addresses a `/32` suffix.
 */
module Addresses {
  import opened Wrappers
  import opened Errors
  import opened GoStrings
  import opened Strconv

  /** `s` is a number strconv.Atoi reads, and its value lies in lo..hi. */
  predicate NumberIn(s: string, lo: int, hi: int)
  {
    WellFormed(s) && lo <= SignedValue(s) <= hi
  }

  /** The check of the CIDR suffix: Atoi's error on the trimmed suffix, or the range error. */
  function SuffixError(suffix: string, ip: string): (err: Option<Error>)
    ensures err.None? <==> NumberIn(TrimSpace(suffix), 0, 32)
    ensures err.Some? ==> err.value in {AtoiSyntax(TrimSpace(suffix)), AtoiRange(TrimSpace(suffix)), CidrBaseRange(ip)}
  {
    AtoiMeaning(TrimSpace(suffix));
    match Atoi(TrimSpace(suffix))
    case Err(e) => Some(e)
    case Ok(base) => if base < 0 || base > 32 then Some(CidrBaseRange(ip)) else None
  }

  /** The check of one dot-separated class: Atoi's error, or the range error. */
  function ClassError(c: string, ip: string): (err: Option<Error>)
    ensures err.None? <==> NumberIn(c, 0, 255)
    ensures err.Some? ==> err.value in {AtoiSyntax(c), AtoiRange(c), ClassNumberRange(ip)}
  {
    AtoiMeaning(c);
    match Atoi(c)
    case Err(e) => Some(e)
    case Ok(n) => if n < 0 || n > 255 then Some(ClassNumberRange(ip)) else None
  }

  /** The class loop: the error of the first class that fails, none when all pass. */
  function FirstClassError(classes: seq<string>, ip: string): (err: Option<Error>)
    ensures err.None? <==> forall i :: 0 <= i < |classes| ==> NumberIn(classes[i], 0, 255)
    ensures err.Some? ==> exists k :: 0 <= k < |classes| && err == ClassError(classes[k], ip)
                                      && forall j :: 0 <= j < k ==> NumberIn(classes[j], 0, 255)
  {
    if classes == [] then None
    else if ClassError(classes[0], ip).Some? then ClassError(classes[0], ip)
    else
      var err := FirstClassError(classes[1..], ip);
      assert forall i :: 1 <= i < |classes| ==> classes[i] == classes[1..][i - 1];
      err
  }

  /**
   * What IsValidAddress returns, check by check in the order of the source:
   * the dot count, the slash count, the CIDR suffix, then every class of the
   * part before the slash.
   */
  function AddressCheck(ip: string): (err: Option<Error>)
  {
    if Count(ip, '.') != 3 then Some(WrongIPAddress(ip))
    else
      var split := Split(ip, '/');
      if |split| > 2 then Some(SlashMoreThanOnce(ip))
      else if |split| == 2 && SuffixError(split[1], ip).Some? then SuffixError(split[1], ip)
      else FirstClassError(Split(split[0], '.'), ip)
  }

  /** IsValidAddress: the early returns of the source, the class loop as a loop. */
  method IsValidAddress(ip: string) returns (err: Option<Error>)
    ensures err == AddressCheck(ip)
  {
    if Count(ip, '.') != 3 {
      return Some(WrongIPAddress(ip));
    }
    var split := Split(ip, '/');
    if |split| > 2 {
      return Some(SlashMoreThanOnce(ip));
    }
    if |split| == 2 {
      var base := Atoi(TrimSpace(split[1]));
      if base.Err? {
        return Some(base.error);
      }
      if base.value < 0 || base.value > 32 {
        return Some(CidrBaseRange(ip));
      }
    }
    var classes := Split(split[0], '.');
    for i := 0 to |classes|
      invariant FirstClassError(classes[i..], ip) == FirstClassError(classes, ip)
    {
      assert classes[i..][1..] == classes[i + 1..];
      var n := Atoi(classes[i]);
      if n.Err? {
        return Some(n.error);
      }
      if n.value < 0 || n.value > 255 {
        return Some(ClassNumberRange(ip));
      }
    }
    return None;
  }

  /** The dot count comes first: a string without exactly three dots fails with the address error. */
  lemma DotCountFirst(ip: string)
    ensures AddressCheck(ip) == Some(WrongIPAddress(ip)) <==> Count(ip, '.') != 3
  {
  }

  /** With three dots, a second slash is the next error, whatever the rest looks like. */
  lemma SlashCountSecond(ip: string)
    requires Count(ip, '.') == 3
    ensures AddressCheck(ip) == Some(SlashMoreThanOnce(ip)) <==> Count(ip, '/') > 1
  {
    var split := Split(ip, '/');
    if |split| <= 2 {
      if |split| == 2 && SuffixError(split[1], ip).Some? {
        assert SuffixError(split[1], ip).value != SlashMoreThanOnce(ip);
      } else {
        ClassErrorsAreClassErrors(Split(split[0], '.'), ip);
      }
    }
  }

  /** The class loop reports only Atoi's errors and the class range error. */
  lemma ClassErrorsAreClassErrors(classes: seq<string>, ip: string)
    ensures FirstClassError(classes, ip) != Some(SlashMoreThanOnce(ip))
  {
    if FirstClassError(classes, ip).Some? {
      var k :| 0 <= k < |classes| && FirstClassError(classes, ip) == ClassError(classes[k], ip);
    }
  }

  /** The suffix is checked before any class: a bad suffix is reported even when the classes are bad too. */
  lemma SuffixBeforeClasses(ip: string)
    requires Count(ip, '.') == 3 && Count(ip, '/') == 1
    requires !NumberIn(TrimSpace(Split(ip, '/')[1]), 0, 32)
    ensures AddressCheck(ip) == SuffixError(Split(ip, '/')[1], ip) && AddressCheck(ip).Some?
  {
  }

  /**
   * The accepted strings, stated without the order of the checks: three dots,
   * at most one slash, a suffix that trims to a number in 0..32, and classes
   * that are numbers in 0..255.
   */
  lemma AddressCheckMeaning(ip: string)
    ensures AddressCheck(ip).None? <==>
      Count(ip, '.') == 3 && Count(ip, '/') <= 1
      && (Count(ip, '/') == 1 ==> NumberIn(TrimSpace(Split(ip, '/')[1]), 0, 32))
      && forall c :: c in Split(Split(ip, '/')[0], '.') ==> NumberIn(c, 0, 255)
  {
    var classes := Split(Split(ip, '/')[0], '.');
    assert (forall c :: c in classes ==> NumberIn(c, 0, 255))
       <==> (forall i :: 0 <= i < |classes| ==> NumberIn(classes[i], 0, 255));
  }

  /** A number in a range holds neither a dot nor a slash nor white space: only a sign and digits. */
  lemma NumberHasNo(s: string, lo: int, hi: int, c: char)
    requires NumberIn(s, lo, hi) && !IsDigit(c) && c != '+' && c != '-'
    ensures c !in s
  {
    forall k | 0 <= k < |s|
      ensures s[k] != c
    {
      if s[0] == '-' || s[0] == '+' {
        if k > 0 {
          assert s[k] == Unsigned(s)[k - 1];
        }
      } else {
        assert s[k] == Unsigned(s)[k];
      }
    }
  }

  /** Trimming removes only white space, so a character that is not white space survives it. */
  lemma TrimKeeps(s: string, c: char)
    requires c in s && !IsSpace(c)
    ensures c in TrimSpace(s)
  {
    var r := TrimSpace(s);
    TrimSpaceTrimmed(s);
    var i :| TrimmedAt(s, r, i);
    var k :| 0 <= k < |s| && s[k] == c;
    assert r[k - i] == c;
  }

  /** A string with one slash is the part before it, the slash and the part after it. */
  lemma SplitTwo(ip: string)
    requires |Split(ip, '/')| == 2
    ensures ip == Split(ip, '/')[0] + "/" + Split(ip, '/')[1]
  {
    var split := Split(ip, '/');
    JoinSplit(ip, '/');
    assert split[1..] == [split[1]];
  }

  /** An accepted address has exactly four classes: the three dots all lie before any slash. */
  lemma AcceptedHasFourClasses(ip: string)
    requires AddressCheck(ip).None?
    ensures |Split(Split(ip, '/')[0], '.')| == 4
  {
    AddressCheckMeaning(ip);
    var split := Split(ip, '/');
    if |split| == 2 && '.' in split[1] {
      TrimKeeps(split[1], '.');
      NumberHasNo(TrimSpace(split[1]), 0, 32, '.');
    }
    DotsBeforeSlash(ip);
  }

  /** Three dots and none after the slash: the part before the slash has four pieces. */
  lemma DotsBeforeSlash(ip: string)
    requires Count(ip, '.') == 3 && |Split(ip, '/')| <= 2
    requires |Split(ip, '/')| == 2 ==> '.' !in Split(ip, '/')[1]
    ensures |Split(Split(ip, '/')[0], '.')| == 4
  {
    var split := Split(ip, '/');
    if |split| == 1 {
      CountZero(ip, '/');
      SplitNoSep(ip, '/');
    } else {
      SplitTwo(ip);
      CountAppend(split[0] + "/", split[1], '.');
      CountAppend(split[0], "/", '.');
      CountZero(split[1], '.');
    }
  }

  /** A string whose four numbers are joined by dots. */
  function DottedQuad(a: string, b: string, c: string, d: string): string
  {
    a + "." + b + "." + c + "." + d
  }

  /** A separator between two strings adds one to the count. */
  lemma SeparatedCount(a: string, b: string, sep: char)
    requires sep !in a
    ensures Count(a + [sep] + b, sep) == Count(b, sep) + 1
  {
    CountAppend(a + [sep], b, sep);
    CountAppend(a, [sep], sep);
    CountZero(a, sep);
  }

  lemma DottedQuadDots(a: string, b: string, c: string, d: string)
    requires '.' !in a && '.' !in b && '.' !in c && '.' !in d
    ensures Count(DottedQuad(a, b, c, d), '.') == 3
  {
    assert DottedQuad(a, b, c, d) == a + "." + (b + "." + (c + "." + d));
    CountZero(d, '.');
    SeparatedCount(c, d, '.');
    SeparatedCount(b, c + "." + d, '.');
    SeparatedCount(a, b + "." + (c + "." + d), '.');
  }

  lemma DottedQuadSplit(a: string, b: string, c: string, d: string)
    requires '.' !in a && '.' !in b && '.' !in c && '.' !in d
    ensures Split(DottedQuad(a, b, c, d), '.') == [a, b, c, d]
  {
    assert DottedQuad(a, b, c, d) == a + "." + (b + "." + (c + "." + d));
    SplitNoSep(d, '.');
    SplitAtFirst(c, '.', d);
    SplitAtFirst(b, '.', c + "." + d);
    SplitAtFirst(a, '.', b + "." + (c + "." + d));
  }

  /** Four numbers: no dot or slash inside any of them. */
  lemma NumbersHaveNoSeparators(a: string, b: string, c: string, d: string)
    requires NumberIn(a, 0, 255) && NumberIn(b, 0, 255) && NumberIn(c, 0, 255) && NumberIn(d, 0, 255)
    ensures '.' !in a && '.' !in b && '.' !in c && '.' !in d
    ensures '/' !in DottedQuad(a, b, c, d)
  {
    NumberHasNo(a, 0, 255, '.'); NumberHasNo(b, 0, 255, '.'); NumberHasNo(c, 0, 255, '.'); NumberHasNo(d, 0, 255, '.');
    NumberHasNo(a, 0, 255, '/'); NumberHasNo(b, 0, 255, '/'); NumberHasNo(c, 0, 255, '/'); NumberHasNo(d, 0, 255, '/');
    QuadNoSlash(a, b, c, d);
  }

  lemma QuadNoSlash(a: string, b: string, c: string, d: string)
    requires '/' !in a && '/' !in b && '/' !in c && '/' !in d
    ensures '/' !in DottedQuad(a, b, c, d)
  {
  }

  /** Every dotted quad of numbers in 0..255 is accepted, signs and leading zeros included. */
  lemma DottedQuadAccepted(a: string, b: string, c: string, d: string)
    requires NumberIn(a, 0, 255) && NumberIn(b, 0, 255) && NumberIn(c, 0, 255) && NumberIn(d, 0, 255)
    ensures AddressCheck(DottedQuad(a, b, c, d)).None?
  {
    var q := DottedQuad(a, b, c, d);
    NumbersHaveNoSeparators(a, b, c, d);
    DottedQuadDots(a, b, c, d);
    DottedQuadSplit(a, b, c, d);
    CountZero(q, '/');
    SplitNoSep(q, '/');
    assert Split(Split(q, '/')[0], '.') == [a, b, c, d];
    QuadClasses(a, b, c, d);
    AddressCheckMeaning(q);
  }

  /** An address, a slash and a suffix without separators: the pieces ParseTargetList and IsValidAddress see. */
  lemma BlockParts(q: string, suffix: string)
    requires '/' !in q && '/' !in suffix && '.' !in suffix
    ensures Count(q + "/" + suffix, '.') == Count(q, '.')
    ensures Count(q + "/" + suffix, '/') == 1
    ensures Split(q + "/" + suffix, '/') == [q, suffix]
  {
    CountZero(suffix, '.');
    CountZero(suffix, '/');
    CountZero(q, '/');
    CountAppend(q + "/", suffix, '.');
    CountAppend(q, "/", '.');
    CountAppend(q + "/", suffix, '/');
    CountAppend(q, "/", '/');
    SplitAtFirst(q, '/', suffix);
    SplitNoSep(suffix, '/');
  }

  /** A dotted quad with a suffix that trims to a number in 0..32 is accepted. */
  lemma DottedQuadBlockAccepted(a: string, b: string, c: string, d: string, suffix: string)
    requires NumberIn(a, 0, 255) && NumberIn(b, 0, 255) && NumberIn(c, 0, 255) && NumberIn(d, 0, 255)
    requires NumberIn(TrimSpace(suffix), 0, 32) && '/' !in suffix
    ensures AddressCheck(DottedQuad(a, b, c, d) + "/" + suffix).None?
  {
    var q := DottedQuad(a, b, c, d);
    NumbersHaveNoSeparators(a, b, c, d);
    DottedQuadDots(a, b, c, d);
    DottedQuadSplit(a, b, c, d);
    if '.' in suffix {
      TrimKeeps(suffix, '.');
      NumberHasNo(TrimSpace(suffix), 0, 32, '.');
    }
    BlockParts(q, suffix);
    var ip := q + "/" + suffix;
    assert Split(Split(ip, '/')[0], '.') == [a, b, c, d];
    QuadClasses(a, b, c, d);
    AddressCheckMeaning(ip);
  }

  lemma QuadClasses(a: string, b: string, c: string, d: string)
    requires NumberIn(a, 0, 255) && NumberIn(b, 0, 255) && NumberIn(c, 0, 255) && NumberIn(d, 0, 255)
    ensures forall x :: x in [a, b, c, d] ==> NumberIn(x, 0, 255)
  {
  }

  /** ParseTargetList's suffix rule: an address without a slash is a /32 block. */
  function Normalize(ip: string): (r: string)
    ensures |ip| <= |r| <= |ip| + 3 && r[..|ip|] == ip
  {
    if |Split(ip, '/')| == 1 then ip + "/32" else ip
  }

  /** Normalizing appends "/32" exactly when there is no slash, so its result always has one. */
  lemma NormalizeMeaning(ip: string)
    ensures Normalize(ip) == if '/' in ip then ip else ip + "/32"
    ensures '/' in Normalize(ip)
  {
    CountZero(ip, '/');
    if '/' !in ip {
      assert (ip + "/32")[|ip|] == '/';
    }
  }

  /** Normalizing twice is normalizing once. */
  lemma NormalizeIdempotent(ip: string)
    ensures Normalize(Normalize(ip)) == Normalize(ip)
  {
    NormalizeMeaning(ip);
    NormalizeMeaning(Normalize(ip));
  }

  /** The suffix "32" that normalization appends is a CIDR suffix in range. */
  lemma ThirtyTwo()
    ensures '/' !in "32" && '.' !in "32"
    ensures NumberIn(TrimSpace("32"), 0, 32)
  {
    TrimSpaceUnpadded("32");
    assert Unsigned("32") == "32";
    assert DigitsValue("32") == DigitsValue("3") * 10 + 2 by {
      assert "32"[..1] == "3";
    }
  }

  lemma SlashThirtyTwo(ip: string)
    ensures ip + "/32" == ip + "/" + "32"
  {
  }

  /** Appending "/32" keeps an accepted address accepted: the new suffix is in range. */
  lemma NormalizeKeepsAccepted(ip: string)
    requires AddressCheck(ip).None?
    ensures AddressCheck(Normalize(ip)).None?
  {
    NormalizeMeaning(ip);
    if '/' !in ip {
      AddressCheckMeaning(ip);
      ThirtyTwo();
      BlockParts(ip, "32");
      SlashThirtyTwo(ip);
      CountZero(ip, '/');
      SplitNoSep(ip, '/');
      assert Split(ip + "/32", '/')[0] == Split(ip, '/')[0];
      AddressCheckMeaning(ip + "/32");
    }
  }

  /**
   * ParseTargetList: the first address that fails stops the loop with its
   * error; otherwise every address, normalized, in the order given.
   */
  method ParseTargetList(args: seq<string>) returns (r: Result<seq<string>, Error>)
    ensures r.Ok? <==> forall i :: 0 <= i < |args| ==> AddressCheck(args[i]).None?
    ensures r.Ok? ==> |r.value| == |args| && forall i :: 0 <= i < |args| ==> r.value[i] == Normalize(args[i])
    ensures r.Err? ==> exists k :: 0 <= k < |args| && AddressCheck(args[k]) == Some(r.error)
                                   && forall j :: 0 <= j < k ==> AddressCheck(args[j]).None?
  {
    var ret: seq<string> := [];
    for i := 0 to |args|
      invariant |ret| == i
      invariant forall j :: 0 <= j < i ==> AddressCheck(args[j]).None? && ret[j] == Normalize(args[j])
    {
      var ip := args[i];
      var err := IsValidAddress(ip);
      if err.Some? {
        return Err(err.value);
      }
      if |Split(ip, '/')| == 1 {
        ip := ip + "/32";
      }
      ret := ret + [ip];
    }
    return Ok(ret);
  }

  /** Every address ParseTargetList returns is itself accepted and carries a slash. */
  lemma ParsedTargetsAccepted(args: seq<string>, i: int)
    requires forall j :: 0 <= j < |args| ==> AddressCheck(args[j]).None?
    requires 0 <= i < |args|
    ensures AddressCheck(Normalize(args[i])).None? && '/' in Normalize(args[i])
  {
    NormalizeKeepsAccepted(args[i]);
    NormalizeMeaning(args[i]);
  }

  /**
   * The cases of runner_test.go, each proved on the address built from its
   * pieces (TestCaseTexts). "10.10.10.10/30" is accepted.
   */
  lemma AcceptsBlock()
    ensures AddressCheck("10.10.10.10/30").None?
  {
    TestCaseTexts();
    Ten();
    Thirty();
    DottedQuadBlockAccepted("10", "10", "10", "10", "30");
  }

  lemma Thirty()
    ensures NumberIn(TrimSpace("30"), 0, 32) && '/' !in "30"
  {
    TrimSpaceUnpadded("30");
    assert Unsigned("30") == "30";
    assert DigitsValue("30") == DigitsValue("3") * 10 by { assert "30"[..1] == "3"; }
  }

  lemma Ten()
    ensures NumberIn("10", 0, 255)
  {
    assert Unsigned("10") == "10";
    assert DigitsValue("10") == DigitsValue("1") * 10 by { assert "10"[..1] == "1"; }
  }

  /**
   * On four dot-free pieces and a suffix, all slash-free, IsValidAddress
   * checks the suffix and then the four classes in order.
   */
  lemma BlockChecks(a: string, b: string, c: string, d: string, suffix: string)
    requires '.' !in a && '.' !in b && '.' !in c && '.' !in d && '.' !in suffix
    requires '/' !in a && '/' !in b && '/' !in c && '/' !in d && '/' !in suffix
    ensures var ip := DottedQuad(a, b, c, d) + "/" + suffix;
      AddressCheck(ip) == if SuffixError(suffix, ip).Some? then SuffixError(suffix, ip) else FirstClassError([a, b, c, d], ip)
  {
    var q := DottedQuad(a, b, c, d);
    var ip := q + "/" + suffix;
    QuadNoSlash(a, b, c, d);
    DottedQuadDots(a, b, c, d);
    DottedQuadSplit(a, b, c, d);
    BlockParts(q, suffix);
    assert Count(ip, '.') == 3;
    assert Split(ip, '/') == [q, suffix];
    assert Split(Split(ip, '/')[0], '.') == [a, b, c, d];
  }

  /** Only the suffix is trimmed: a class with white space in front is a syntax error. */
  lemma PaddedClassRejected(c: string, ip: string)
    requires c != [] && IsSpace(c[0])
    ensures ClassError(c, ip) == Some(AtoiSyntax(c))
  {
    assert Unsigned(c) == c;
  }

  /** White space around the suffix makes no difference to its check. */
  lemma SuffixPaddingIgnored(suffix: string, ip: string)
    ensures SuffixError(suffix, ip) == SuffixError(TrimSpace(suffix), ip)
  {
    TrimSpaceIdempotent(suffix);
    SameTrimSameCheck(suffix, TrimSpace(suffix), ip);
  }

  /** The suffix check sees only the trimmed suffix. */
  lemma SameTrimSameCheck(a: string, b: string, ip: string)
    requires TrimSpace(a) == TrimSpace(b)
    ensures SuffixError(a, ip) == SuffixError(b, ip)
  {
  }

  /** "10.10.10.10/33": the dots and the slash are right, the suffix is out of range. */
  lemma RejectsWideSuffix()
    ensures AddressCheck("10.10.10.10/33") == Some(CidrBaseRange("10.10.10.10/33"))
  {
    TestCaseTexts();
    var ten, suffix := "10", "33";
    assert '.' !in ten && '/' !in ten && '.' !in suffix && '/' !in suffix;
    BlockChecks(ten, ten, ten, ten, suffix);
    TrimSpaceUnpadded(suffix);
    TwoDigits(suffix);
  }

  /** "123.251.129/30": two dots only, so the first check fails. */
  lemma RejectsTwoDots()
    ensures AddressCheck("123.251.129/30") == Some(WrongIPAddress("123.251.129/30"))
  {
    TestCaseTexts();
    TwoDotsRejected("123", "251", "129", "30");
  }

  /** Three dot-free pieces and a dot-free suffix hold two dots, which is wrong. */
  lemma TwoDotsRejected(a: string, b: string, c: string, suffix: string)
    requires '.' !in a && '.' !in b && '.' !in c && '.' !in suffix
    ensures var ip := a + "." + b + "." + c + "/" + suffix; AddressCheck(ip) == Some(WrongIPAddress(ip))
  {
    var ip := a + "." + b + "." + c + "/" + suffix;
    assert ip == a + "." + (b + "." + (c + "/" + suffix));
    CountZero(c + "/" + suffix, '.');
    SeparatedCount(b, c + "/" + suffix, '.');
    SeparatedCount(a, b + "." + (c + "/" + suffix), '.');
  }

  /** "123.421.0.0/32": the suffix is fine, the second class is out of range. */
  lemma RejectsWideClass()
    ensures AddressCheck("123.421.0.0/32") == Some(ClassNumberRange("123.421.0.0/32"))
  {
    TestCaseTexts();
    var a, b, zero, suffix := "123", "421", "0", "32";
    var ip := DottedQuad(a, b, zero, zero) + "/" + suffix;
    assert '.' !in a && '.' !in b && '.' !in zero;
    assert '/' !in a && '/' !in b && '/' !in zero;
    ThirtyTwo();
    BlockChecks(a, b, zero, zero, suffix);
    WideClassNumbers();
    assert ClassError(a, ip).None?;
    assert ClassError(b, ip) == Some(ClassNumberRange(ip));
    var classes := [a, b, zero, zero];
    assert classes[1..][0] == b;
    assert FirstClassError(classes, ip) == Some(ClassNumberRange(ip));
  }

  lemma WideClassNumbers()
    ensures Atoi("123") == Ok(123) && Atoi("421") == Ok(421)
  {
    ThreeDigits("123");
    ThreeDigits("421");
  }

  /** The test addresses, spelled out from the pieces the proofs above work on. */
  lemma TestCaseTexts()
    ensures DottedQuad("10", "10", "10", "10") + "/" + "30" == "10.10.10.10/30"
    ensures DottedQuad("10", "10", "10", "10") + "/" + "33" == "10.10.10.10/33"
    ensures "123" + "." + "251" + "." + "129" + "/" + "30" == "123.251.129/30"
    ensures DottedQuad("123", "421", "0", "0") + "/" + "32" == "123.421.0.0/32"
  {
  }

  /** Atoi reads two digits as their value. */
  lemma TwoDigits(s: string)
    requires |s| == 2 && IsDigit(s[0]) && IsDigit(s[1])
    ensures Atoi(s) == Ok(DigitValue(s[0]) * 10 + DigitValue(s[1]))
  {
    assert Unsigned(s) == s;
    var one := s[..1];
    assert one[..0] == [] && one[0] == s[0];
    assert DigitsValue(one) == DigitValue(s[0]);
    assert DigitsValue(s) == DigitsValue(one) * 10 + DigitValue(s[1]);
  }

  /** Atoi reads three digits as their value. */
  lemma ThreeDigits(s: string)
    requires |s| == 3 && IsDigit(s[0]) && IsDigit(s[1]) && IsDigit(s[2])
    ensures Atoi(s) == Ok(DigitValue(s[0]) * 100 + DigitValue(s[1]) * 10 + DigitValue(s[2]))
  {
    assert Unsigned(s) == s;
    var two := s[..2];
    var one := s[..1];
    assert two[..1] == one && two[1] == s[1];
    assert one[..0] == [] && one[0] == s[0];
    assert DigitsValue(one) == DigitValue(s[0]);
    assert DigitsValue(two) == DigitsValue(one) * 10 + DigitValue(s[1]);
    assert DigitsValue(s) == DigitsValue(two) * 10 + DigitValue(s[2]);
  }
}
