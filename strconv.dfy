/**
 * strconv.Atoi on a 64-bit platform. A string of fewer than 19 characters
 * takes the fast path: an optional `+` or `-`, then decimal digits. A longer
 * one goes through ParseInt(s, 10, 0), which scans the digits left to right
 * and reports a range error as soon as the value passes 2^64 - 1, before it
 * would see a later non-digit, and then checks the int64 range.
 */
module Strconv {
  import opened Wrappers
  import opened Errors

  const MaxInt64: int := 0x7FFF_FFFF_FFFF_FFFF
  const MinInt64: int := -0x8000_0000_0000_0000
  const MaxUint64: int := 0xFFFF_FFFF_FFFF_FFFF
  /** ParseUint's `maxUint64/10 + 1`: from here on, multiplying by ten overflows. */
  const UintCutoff: int := MaxUint64 / 10 + 1

  predicate IsDigit(c: char)
  {
    '0' <= c <= '9'
  }

  predicate AllDigits(s: string)
  {
    forall i :: 0 <= i < |s| ==> IsDigit(s[i])
  }

  function DigitValue(c: char): (d: nat)
    requires IsDigit(c)
    ensures d <= 9
  {
    c as int - '0' as int
  }

  function Pow10(n: nat): (p: nat)
    ensures p >= 1
  {
    if n == 0 then 1 else 10 * Pow10(n - 1)
  }

  /** The value of a string of decimal digits, most significant first. */
  function DigitsValue(s: string): nat
    requires AllDigits(s)
  {
    if s == [] then 0 else DigitsValue(s[..|s| - 1]) * 10 + DigitValue(s[|s| - 1])
  }

  /** The digits after an optional leading sign. */
  function Unsigned(s: string): string
    requires s != []
  {
    if s[0] == '-' || s[0] == '+' then s[1..] else s
  }

  /** An optional sign followed by at least one decimal digit. */
  predicate WellFormed(s: string)
  {
    s != [] && Unsigned(s) != [] && AllDigits(Unsigned(s))
  }

  /** The mathematical value of a well-formed decimal string. */
  function SignedValue(s: string): int
    requires WellFormed(s)
  {
    var v: int := DigitsValue(Unsigned(s));
    if s[0] == '-' then -v else v
  }

  datatype NumError = Syntax | Range

  /** ParseUint(s, 10, 64)'s digit loop, with `n` the value of the digits already read. */
  function ScanUint(s: string, n: nat): Result<nat, NumError>
    requires n <= MaxUint64
  {
    if s == [] then Ok(n)
    else if !IsDigit(s[0]) then Err(Syntax)
    else if n >= UintCutoff then Err(Range)
    else
      var n1 := n * 10 + DigitValue(s[0]);
      if n1 > MaxUint64 then Err(Range) else ScanUint(s[1..], n1)
  }

  /** ParseUint(s, 10, 64), which refuses the empty string. */
  function ParseUint(s: string): Result<nat, NumError>
  {
    if s == [] then Err(Syntax) else ScanUint(s, 0)
  }

  /** strconv.Atoi(s). Every error carries the whole input, as Go's NumError does. */
  function Atoi(s: string): (r: Result<int, Error>)
    ensures r.Ok? ==> MinInt64 <= r.value <= MaxInt64
    ensures r.Err? ==> r.error == AtoiSyntax(s) || r.error == AtoiRange(s)
  {
    if s == [] then Err(AtoiSyntax(s))
    else if |s| < 19 then
      var digits := Unsigned(s);
      if digits == [] || !AllDigits(digits) then Err(AtoiSyntax(s))
      else
        var v: int := DigitsValue(digits);
        DigitsValueBound(digits);
        Pow10Monotone(|digits|, 18);
        Pow10Eighteen();
        Ok(if s[0] == '-' then -v else v)
    else
      var neg := s[0] == '-';
      match ParseUint(Unsigned(s))
      case Err(Syntax) => Err(AtoiSyntax(s))
      case Err(Range) => Err(AtoiRange(s))
      case Ok(un) =>
        var v: int := un;
        if (!neg && v > MaxInt64) || (neg && v > -MinInt64) then Err(AtoiRange(s))
        else Ok(if neg then -v else v)
  }

  lemma {:induction false} DigitsValueBound(s: string)
    requires AllDigits(s)
    ensures DigitsValue(s) < Pow10(|s|)
  {
    if s != [] {
      DigitsValueBound(s[..|s| - 1]);
    }
  }

  lemma {:induction false} Pow10Monotone(m: nat, n: nat)
    requires m <= n
    ensures Pow10(m) <= Pow10(n)
  {
    if m < n {
      Pow10Monotone(m, n - 1);
    }
  }

  /** Reading the first digit, then the rest: the left-to-right view of DigitsValue. */
  lemma {:induction false} DigitsValueCons(c: char, r: string)
    requires IsDigit(c) && AllDigits(r)
    ensures AllDigits([c] + r)
    ensures DigitsValue([c] + r) == DigitValue(c) * Pow10(|r|) + DigitsValue(r)
  {
    var s := [c] + r;
    assert AllDigits(s) by {
      forall i | 0 <= i < |s| ensures IsDigit(s[i]) {
        if i > 0 { assert s[i] == r[i - 1]; }
      }
    }
    if r != [] {
      var init := r[..|r| - 1];
      assert s[..|s| - 1] == [c] + init;
      DigitsValueCons(c, init);
      var d, last := DigitValue(c), DigitValue(r[|r| - 1]);
      assert DigitsValue(s) == DigitsValue([c] + init) * 10 + last;
      assert Pow10(|r|) == Pow10(|init|) * 10;
      assert DigitsValue(r) == DigitsValue(init) * 10 + last;
      ShiftDigit(d, Pow10(|init|), DigitsValue(init), last);
    } else {
      assert s[..|s| - 1] == [];
    }
  }

  lemma ShiftDigit(d: nat, p: nat, v: nat, last: nat)
    ensures (d * p + v) * 10 + last == d * (p * 10) + (v * 10 + last)
  {
  }

  /** A successful scan read nothing but digits. */
  lemma {:induction false} ScanUintOkDigits(s: string, n: nat)
    requires n <= MaxUint64
    requires ScanUint(s, n).Ok?
    ensures AllDigits(s)
  {
    if s != [] {
      ScanUintOkDigits(s[1..], n * 10 + DigitValue(s[0]));
      assert s == [s[0]] + s[1..];
      DigitsValueCons(s[0], s[1..]);
    }
  }

  lemma AtLeastFactor(a: nat, p: nat)
    requires p >= 1
    ensures a * p >= a
  {
  }

  lemma Regroup(n: nat, d: nat, p: nat)
    ensures n * (10 * p) + d * p == (n * 10 + d) * p
  {
  }

  /** On digits, the scan yields their value, or a range error once it passes 2^64 - 1. */
  lemma {:induction false} ScanUintDigits(s: string, n: nat)
    requires n <= MaxUint64 && AllDigits(s)
    ensures ScanUint(s, n) ==
      if n * Pow10(|s|) + DigitsValue(s) <= MaxUint64 then Ok(n * Pow10(|s|) + DigitsValue(s)) else Err(Range)
  {
    if s != [] {
      var r := s[1..];
      var d := DigitValue(s[0]);
      var p := Pow10(|r|);
      assert s == [s[0]] + r;
      DigitsValueCons(s[0], r);
      assert Pow10(|s|) == 10 * p;
      Regroup(n, d, p);
      var n1 := n * 10 + d;
      assert n * Pow10(|s|) + DigitsValue(s) == n1 * p + DigitsValue(r);
      AtLeastFactor(n1, p);
      if n < UintCutoff && n1 <= MaxUint64 {
        ScanUintDigits(r, n1);
      }
    }
  }

  lemma Pow10Eighteen()
    ensures Pow10(18) == 1_000_000_000_000_000_000
  {
    assert Pow10(6) == 1_000_000;
    assert Pow10(12) == 1_000_000_000_000;
  }

  /** Atoi's fast path: short strings never overflow an int64. */
  lemma AtoiShort(s: string)
    requires 0 < |s| < 19
    ensures Atoi(s).Ok? <==> WellFormed(s)
    ensures Atoi(s).Ok? ==> Atoi(s).value == SignedValue(s) && MinInt64 <= SignedValue(s) <= MaxInt64
    ensures Atoi(s).Err? ==> Atoi(s).error == AtoiSyntax(s)
  {
    if WellFormed(s) {
      var digits := Unsigned(s);
      DigitsValueBound(digits);
      Pow10Monotone(|digits|, 18);
      Pow10Eighteen();
    }
  }

  /** Atoi's slow path, through ParseInt. */
  lemma AtoiLong(s: string)
    requires |s| >= 19
    ensures Atoi(s).Ok? <==> WellFormed(s) && MinInt64 <= SignedValue(s) <= MaxInt64
    ensures Atoi(s).Ok? ==> Atoi(s).value == SignedValue(s)
    ensures Atoi(s).Err? ==> Atoi(s).error == AtoiSyntax(s) || Atoi(s).error == AtoiRange(s)
  {
    var digits := Unsigned(s);
    if digits != [] {
      if AllDigits(digits) {
        ScanUintDigits(digits, 0);
        assert 0 * Pow10(|digits|) == 0;
      } else if ScanUint(digits, 0).Ok? {
        ScanUintOkDigits(digits, 0);
      }
    }
  }

  /**
   * What Atoi accepts, whichever path it takes: exactly the well-formed
   * decimal strings whose value fits in an int64, and it returns that value.
   */
  lemma AtoiMeaning(s: string)
    ensures Atoi(s).Ok? <==> WellFormed(s) && MinInt64 <= SignedValue(s) <= MaxInt64
    ensures Atoi(s).Ok? ==> Atoi(s).value == SignedValue(s)
    ensures Atoi(s).Err? ==> Atoi(s).error == AtoiSyntax(s) || Atoi(s).error == AtoiRange(s)
    ensures Atoi(s).Err? && |s| < 19 ==> Atoi(s).error == AtoiSyntax(s)
  {
    if |s| >= 19 {
      AtoiLong(s);
    } else if s != [] {
      AtoiShort(s);
    }
  }

  function DigitChar(d: nat): (c: char)
    requires d <= 9
    ensures IsDigit(c) && DigitValue(c) == d
  {
    ('0' as int + d) as char
  }

  /** strconv.Itoa for a natural number: its decimal digits, without leading zeros. */
  function Decimal(n: nat): (s: string)
    ensures s != [] && AllDigits(s)
    decreases n
  {
    if n < 10 then [DigitChar(n)] else Decimal(n / 10) + [DigitChar(n % 10)]
  }

  lemma {:induction false} DecimalValue(n: nat)
    ensures DigitsValue(Decimal(n)) == n
    decreases n
  {
    if n >= 10 {
      DecimalValue(n / 10);
      var s := Decimal(n);
      assert s[..|s| - 1] == Decimal(n / 10);
    }
  }

  /** Round trip: Atoi reads back the decimal rendering of every non-negative int64. */
  lemma AtoiDecimal(n: nat)
    requires n <= MaxInt64
    ensures Atoi(Decimal(n)) == Ok(n)
  {
    var s := Decimal(n);
    DecimalValue(n);
    assert Unsigned(s) == s;
    AtoiMeaning(s);
  }
}
