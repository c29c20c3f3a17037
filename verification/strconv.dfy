/** Base-10 conversions of Go's strconv package as the packer uses them:
    ParseUint(s, 10, 64), ParseInt(s, 10, 64) and ParseBool, with the values
    they return on failure, and decimal formatting (the %d verb of fmt and
    strconv.FormatInt / FormatBool) as their inverses. */
module Strconv {

  const MaxUint64: nat := 0xFFFF_FFFF_FFFF_FFFF
  const MaxInt64: int := 0x7FFF_FFFF_FFFF_FFFF
  const MinInt64: int := -0x8000_0000_0000_0000

  /** The smallest n for which n * 10 no longer fits in 64 unsigned bits. */
  const Cutoff10: nat := MaxUint64 / 10 + 1

  /** The error a conversion reports: none, strconv.ErrSyntax or strconv.ErrRange. */
  datatype Status = Ok | ErrSyntax | ErrRange

  /** A conversion's two results: the value and the error. */
  datatype Parsed<T> = Parsed(value: T, status: Status)

  predicate IsDigit(c: char) { '0' <= c <= '9' }

  predicate AllDigits(s: string) { forall k :: 0 <= k < |s| ==> IsDigit(s[k]) }

  function DigitValue(c: char): (d: nat)
    requires IsDigit(c)
    ensures d < 10
  {
    c as int - '0' as int
  }

  function DigitChar(d: nat): (c: char)
    requires d < 10
    ensures IsDigit(c) && DigitValue(c) == d
  {
    ('0' as int + d) as char
  }

  /** The number a string of decimal digits denotes, read most significant digit first. */
  function DecimalValue(s: string): nat
    requires AllDigits(s)
  {
    if s == [] then 0 else DecimalValue(s[..|s| - 1]) * 10 + DigitValue(s[|s| - 1])
  }

  /** Length of the longest prefix of s made of decimal digits. */
  function DigitPrefixLen(s: string): (p: nat)
    ensures p <= |s| && AllDigits(s[..p])
    ensures p < |s| ==> !IsDigit(s[p])
  {
    if s == [] || !IsDigit(s[0]) then 0
    else
      var p := 1 + DigitPrefixLen(s[1..]);
      assert s[..p] == [s[0]] + s[1..][..p - 1];
      p
  }

  /** The result of Go's strconv.ParseUint(s, 10, 64), stated without its loop:
      empty input and a non-digit are syntax errors (value 0), unless the digits
      before the first non-digit already exceed 64 bits, which is a range error
      with the value clamped to the largest uint64. */
  function ParseUintSpec(s: string): (r: Parsed<nat>)
    ensures r.value <= MaxUint64
    ensures r.status == Ok <==> s != [] && AllDigits(s) && DecimalValue(s) <= MaxUint64
    ensures r.status == Ok ==> r.value == DecimalValue(s)
    ensures r.status == ErrSyntax ==> r.value == 0
    ensures r.status == ErrRange ==> r.value == MaxUint64
    ensures r.status == ErrRange <==> s != [] && DecimalValue(s[..DigitPrefixLen(s)]) > MaxUint64
  {
    if s == [] then Parsed(0, ErrSyntax)
    else
      var p := DigitPrefixLen(s);
      assert AllDigits(s) ==> p == |s| && s[..p] == s;
      if DecimalValue(s[..p]) > MaxUint64 then Parsed(MaxUint64, ErrRange)
      else if p < |s| then Parsed(0, ErrSyntax)
      else assert s[..p] == s; Parsed(DecimalValue(s), Ok)
  }

  lemma {:induction false} DecimalValueMonotone(s: string, i: nat, j: nat)
    requires i <= j <= |s| && AllDigits(s[..j])
    ensures DecimalValue(s[..i]) <= DecimalValue(s[..j])
  {
    if i < j {
      assert s[..j][..j - 1] == s[..j - 1];
      DecimalValueMonotone(s, i, j - 1);
    }
  }

  lemma DecimalValueStep(s: string, i: nat)
    requires i < |s| && AllDigits(s[..i + 1])
    ensures DecimalValue(s[..i + 1]) == DecimalValue(s[..i]) * 10 + DigitValue(s[i])
  {
    assert s[..i + 1][..i] == s[..i];
  }

  /** Go's digit loop: one pass, leaving as soon as it meets a non-digit or an
      overflow. */
  method ParseUint(s: string) returns (r: Parsed<nat>)
    ensures r == ParseUintSpec(s)
  {
    if |s| == 0 {
      return Parsed(0, ErrSyntax);
    }
    var n: nat := 0;
    for i := 0 to |s|
      invariant AllDigits(s[..i])
      invariant n == DecimalValue(s[..i]) <= MaxUint64
    {
      var c := s[i];
      if !IsDigit(c) {
        // letters are digits >= 10 to Go, hence also a syntax error in base 10
        return Parsed(0, ErrSyntax);
      }
      var d := c as int - '0' as int;
      assert AllDigits(s[..i + 1]);
      DecimalValueStep(s, i);
      if n >= Cutoff10 {
        DecimalValueMonotone(s, i + 1, DigitPrefixLen(s));
        return Parsed(MaxUint64, ErrRange);
      }
      var n1 := n * 10 + d;
      if n1 > MaxUint64 {
        DecimalValueMonotone(s, i + 1, DigitPrefixLen(s));
        return Parsed(MaxUint64, ErrRange);
      }
      n := n1;
    }
    assert s[..|s|] == s;
    return Parsed(n, Ok);
  }

  /** The sign-stripped text ParseInt hands to ParseUint. */
  function Unsigned(s: string): string
    requires s != []
  {
    if s[0] == '+' || s[0] == '-' then s[1..] else s
  }

  /** The number a sign followed by decimal digits denotes. */
  function SignedValue(s: string): int
    requires s != [] && AllDigits(Unsigned(s))
  {
    if s[0] == '-' then 0 - DecimalValue(Unsigned(s)) else DecimalValue(Unsigned(s))
  }

  /** The result of Go's strconv.ParseInt(s, 10, 64): an optional sign, then
      ParseUint's digits; a syntax error gives 0, a magnitude too large for
      int64 gives the bound of the sign with a range error. */
  function ParseIntSpec(s: string): (r: Parsed<int>)
    ensures MinInt64 <= r.value <= MaxInt64
    ensures r.status == ErrSyntax ==> r.value == 0
    ensures r.status == ErrRange ==> r.value == MinInt64 || r.value == MaxInt64
    ensures r.status == Ok ==> s != [] && ParseUintSpec(Unsigned(s)).status == Ok
    ensures r.status == Ok ==> AllDigits(Unsigned(s)) && r.value == SignedValue(s)
    ensures s != [] && Unsigned(s) != [] && AllDigits(Unsigned(s)) ==>
      (r.status == Ok <==> MinInt64 <= SignedValue(s) <= MaxInt64)
    ensures r.status == ErrRange ==> s != [] && (r.value == MinInt64 <==> s[0] == '-')
    ensures r.status == ErrSyntax <==> s == [] || ParseUintSpec(Unsigned(s)).status == ErrSyntax
  {
    if s == [] then Parsed(0, ErrSyntax)
    else
      var neg := s[0] == '-';
      var u := ParseUintSpec(Unsigned(s));
      if u.status == ErrSyntax then Parsed(0, ErrSyntax)
      else if !neg && u.value >= -MinInt64 then Parsed(MaxInt64, ErrRange)
      else if neg && u.value > -MinInt64 then Parsed(MinInt64, ErrRange)
      else
        var v: int := if neg then 0 - (u.value as int) else u.value as int;
        Parsed(v, Ok)
  }

  method ParseInt(s: string) returns (r: Parsed<int>)
    ensures r == ParseIntSpec(s)
  {
    if |s| == 0 {
      return Parsed(0, ErrSyntax);
    }
    var neg := s[0] == '-';
    var u := ParseUint(Unsigned(s));
    if u.status != Ok && u.status != ErrRange {
      return Parsed(0, ErrSyntax);
    }
    var cutoff := -MinInt64;
    if !neg && u.value >= cutoff {
      return Parsed(cutoff - 1, ErrRange);
    }
    if neg && u.value > cutoff {
      return Parsed(-cutoff, ErrRange);
    }
    var v: int := if neg then 0 - (u.value as int) else u.value as int;
    r := Parsed(v, Ok);
  }

  const TrueLiterals: set<string> := {"1", "t", "T", "true", "TRUE", "True"}
  const FalseLiterals: set<string> := {"0", "f", "F", "false", "FALSE", "False"}

  /** Go's strconv.ParseBool: six spellings of each truth value, anything else
      a syntax error reported with the value false. */
  function ParseBool(s: string): (r: Parsed<bool>)
    ensures r.status != ErrRange
    ensures r.status == Ok <==> s in TrueLiterals + FalseLiterals
    ensures r.value ==> r.status == Ok
    ensures r.value <==> s in TrueLiterals
  {
    if s in TrueLiterals then Parsed(true, Ok)
    else if s in FalseLiterals then Parsed(false, Ok)
    else Parsed(false, ErrSyntax)
  }

  function FormatBool(b: bool): string
  {
    if b then "true" else "false"
  }

  /** Decimal digits of n, without leading zeros. */
  function FormatNat(n: nat): (s: string)
    ensures s != [] && AllDigits(s)
    ensures |s| > 1 ==> s[0] != '0'
  {
    if n < 10 then [DigitChar(n)] else FormatNat(n / 10) + [DigitChar(n % 10)]
  }

  /** Decimal text of an integer with a leading '-' when negative. */
  function FormatInt(i: int): (s: string)
    ensures s != []
    ensures forall k :: 0 <= k < |s| ==> IsDigit(s[k]) || s[k] == '-'
  {
    if i < 0 then "-" + FormatNat(-i) else FormatNat(i)
  }

  lemma {:induction false} DecimalValueOfFormatNat(n: nat)
    ensures DecimalValue(FormatNat(n)) == n
  {
    if n >= 10 {
      var s := FormatNat(n);
      assert s[..|s| - 1] == FormatNat(n / 10);
      DecimalValueOfFormatNat(n / 10);
    }
  }

  /** ParseUint reads back what FormatNat writes. */
  lemma ParseUintOfFormatNat(n: nat)
    requires n <= MaxUint64
    ensures ParseUintSpec(FormatNat(n)) == Parsed(n, Ok)
  {
    DecimalValueOfFormatNat(n);
  }

  /** ParseInt reads back what FormatInt writes, for every int64. */
  lemma ParseIntOfFormatInt(i: int)
    requires MinInt64 <= i <= MaxInt64
    ensures ParseIntSpec(FormatInt(i)) == Parsed(i, Ok)
  {
    var s := FormatInt(i);
    if i < 0 {
      assert Unsigned(s) == FormatNat(-i);
      ParseUintOfFormatNat(-i);
    } else {
      assert Unsigned(s) == s;
      ParseUintOfFormatNat(i);
    }
  }

  /** ParseBool reads back what FormatBool writes. */
  lemma ParseBoolOfFormatBool(b: bool)
    ensures ParseBool(FormatBool(b)) == Parsed(b, Ok)
  {
  }
}
