/** The pieces of Go's strconv package the bot relies on, over decimal
    strings: FormatUint and Itoa (printing) and ParseUint with base 10 and
    bit size 64 (parsing). ParseUint follows Go's left-to-right digit loop,
    so an overflow inside the leading run of digits is reported before a
    later non-digit character. */
module Strconv {

  const MaxUint64: int := 0xFFFF_FFFF_FFFF_FFFF

  type uint64 = x: int | 0 <= x <= MaxUint64

  datatype Option<T> = None | Some(value: T)

  /** The error kinds of strconv.NumError that ParseUint can report. */
  datatype NumError = ErrSyntax | ErrRange

  /** What ParseUint returns: a number and an error, as Go's two results. */
  datatype Parsed = Parsed(n: uint64, err: Option<NumError>)

  predicate IsDigit(c: char) {
    '0' <= c <= '9'
  }

  function DigitValue(c: char): (d: nat)
    requires IsDigit(c)
    ensures d < 10
  {
    (c as int) - ('0' as int)
  }

  function DigitChar(d: nat): (c: char)
    requires d < 10
    ensures IsDigit(c) && DigitValue(c) == d
  {
    ((('0' as int) + d) as char)
  }

  predicate AllDigits(s: string) {
    forall i :: 0 <= i < |s| ==> IsDigit(s[i])
  }

  /** The number a string of digits denotes, read most significant digit first. */
  function Value(s: string): nat
    requires AllDigits(s)
    decreases |s|
  {
    if s == [] then 0 else 10 * Value(s[..|s| - 1]) + DigitValue(s[|s| - 1])
  }

  /** Canonical base-10 rendering: digits only, no sign, no leading zero except "0" itself. */
  predicate IsCanonical(s: string) {
    |s| > 0 && AllDigits(s) && (s[0] == '0' ==> |s| == 1)
  }

  /** A string ParseUint accepts without error. */
  predicate IsDecimalUint64(s: string) {
    s != [] && AllDigits(s) && Value(s) <= MaxUint64
  }

  /** Length of the run of digits at the start of s. */
  function LeadingDigits(s: string): (k: nat)
    ensures k <= |s| && AllDigits(s[..k])
    ensures k < |s| ==> !IsDigit(s[k])
  {
    if s == [] || !IsDigit(s[0]) then 0
    else
      var k := 1 + LeadingDigits(s[1..]);
      assert s[..k] == [s[0]] + s[1..][..k - 1];
      k
  }

  /** The leading digits of s already denote a number above 2^64-1: ParseUint
      reaches its range check before any character that is not a digit. */
  predicate Overflows(s: string) {
    Value(s[..LeadingDigits(s)]) > MaxUint64
  }

  /** strconv.FormatUint(n, 10) (and FormatInt for n >= 0). */
  function Decimal(n: nat): (s: string)
    ensures IsCanonical(s) && Value(s) == n
    decreases n
  {
    if n < 10 then [DigitChar(n)]
    else
      var p := Decimal(n / 10);
      var s := p + [DigitChar(n % 10)];
      assert s[..|s| - 1] == p;
      s
  }

  /** strconv.Itoa: a minus sign before the digits of a negative number. */
  function Itoa(i: int): (s: string)
    ensures |s| > 0
    ensures i >= 0 ==> IsCanonical(s) && Value(s) == i
    ensures i < 0 ==> s[0] == '-' && IsCanonical(s[1..]) && Value(s[1..]) == -i
  {
    if i < 0 then
      var s := "-" + Decimal(-i);
      assert s[1..] == Decimal(-i);
      s
    else Decimal(i)
  }

  /** Reads back what Itoa prints: an optional minus sign, then at least one digit. */
  function ReadInt(s: string): (r: Option<int>)
    ensures r.Some? <==> (AllDigits(s) && s != []) || (|s| > 1 && s[0] == '-' && AllDigits(s[1..]))
  {
    if |s| > 1 && s[0] == '-' && AllDigits(s[1..]) then Some(-(Value(s[1..]) as int))
    else if s != [] && AllDigits(s) then Some(Value(s))
    else None
  }

  /** The digit loop of ParseUint, from index i with the value n read so far. */
  function Accumulate(s: string, i: nat, n: uint64): Parsed
    requires i <= |s|
    decreases |s| - i
  {
    if i == |s| then Parsed(n, None)
    else if !IsDigit(s[i]) then Parsed(0, Some(ErrSyntax))
    else if 10 * n + DigitValue(s[i]) > MaxUint64 then Parsed(MaxUint64, Some(ErrRange))
    else Accumulate(s, i + 1, 10 * n + DigitValue(s[i]))
  }

  /** strconv.ParseUint(s, 10, 64): the value on success, 0 with a syntax
      error, 2^64-1 with a range error. */
  function ParseUint(s: string): (r: Parsed)
    ensures IsDecimalUint64(s) ==> r == Parsed(Value(s), None)
    ensures Overflows(s) ==> r == Parsed(MaxUint64, Some(ErrRange))
    ensures !IsDecimalUint64(s) && !Overflows(s) ==> r == Parsed(0, Some(ErrSyntax))
  {
    if s == [] then Parsed(0, Some(ErrSyntax))
    else
      AccumulateMeaning(s, 0, 0);
      assert s[..|s|] == s;
      Accumulate(s, 0, 0)
  }

  lemma {:induction false} ValuePrefixMonotone(s: string, i: nat, j: nat)
    requires i <= j <= |s| && AllDigits(s[..j])
    ensures AllDigits(s[..i]) && Value(s[..i]) <= Value(s[..j])
    decreases j - i
  {
    if i < j {
      var t := s[..j];
      assert t[..|t| - 1] == s[..j - 1];
      ValuePrefixMonotone(s, i, j - 1);
    }
  }

  /** Accumulate started on a prefix of the leading digits ends in the outcome
      the leading digits and the rest of the string determine. */
  lemma {:induction false} AccumulateMeaning(s: string, i: nat, n: uint64)
    requires s != [] && i <= LeadingDigits(s)
    requires AllDigits(s[..i]) && n == Value(s[..i])
    ensures var k := LeadingDigits(s);
      Accumulate(s, i, n) ==
        if Value(s[..k]) > MaxUint64 then Parsed(MaxUint64, Some(ErrRange))
        else if k < |s| then Parsed(0, Some(ErrSyntax))
        else Parsed(Value(s[..k]), None)
    decreases |s| - i
  {
    var k := LeadingDigits(s);
    if i < k {
      var t := s[..i + 1];
      assert t[..|t| - 1] == s[..i];
      var n1 := 10 * n + DigitValue(s[i]);
      assert n1 == Value(s[..i + 1]);
      ValuePrefixMonotone(s, i + 1, k);
      if n1 <= MaxUint64 {
        AccumulateMeaning(s, i + 1, n1);
      }
    }
  }

  /** A canonical string is the rendering of its own value. */
  lemma {:induction false} DecimalOfValue(s: string)
    requires IsCanonical(s)
    ensures Decimal(Value(s)) == s
    decreases |s|
  {
    if |s| > 1 {
      var p := s[..|s| - 1];
      assert p[0] == s[0];
      CanonicalPositive(p);
      assert Value(s) / 10 == Value(p);
      assert Value(s) % 10 == DigitValue(s[|s| - 1]);
      DecimalOfValue(p);
      assert s == p + [s[|s| - 1]];
    }
  }

  lemma {:induction false} CanonicalPositive(s: string)
    requires IsCanonical(s) && s[0] != '0'
    ensures Value(s) >= 1
    decreases |s|
  {
    if |s| > 1 {
      var p := s[..|s| - 1];
      assert p[0] == s[0];
      CanonicalPositive(p);
    }
  }

  /** What ReadInt reads from Itoa's output is the original number. */
  lemma ReadItoa(i: int)
    ensures ReadInt(Itoa(i)) == Some(i)
  {
    var s := Itoa(i);
    if i >= 0 {
      assert s[0] != '-';
    }
  }

  /** Itoa never produces a separator used by the stats layout. */
  lemma ItoaNoSeparators(i: int)
    ensures '\n' !in Itoa(i) && '\t' !in Itoa(i) && ' ' !in Itoa(i)
  {
    var s := Itoa(i);
    if i < 0 {
      assert s == [s[0]] + s[1..];
    }
  }
}
