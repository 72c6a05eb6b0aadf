/** utils.go: conversion between a Discord snowflake ID in text form and the
    unsigned 64-bit number the database stores. */
module Utils {
  import opened Strconv

  /** stringToInt: strconv.ParseUint(id, 10, 64) with its error only logged,
      so the caller always receives a number: the value of a well-formed ID,
      2^64-1 when the leading digits overflow, 0 on any other syntax error
      (the empty string, a sign, a non-digit character). */
  function StringToInt(id: string): (r: uint64)
    ensures IsDecimalUint64(id) ==> r == Value(id)
    ensures Overflows(id) ==> r == MaxUint64
    ensures !IsDecimalUint64(id) && !Overflows(id) ==> r == 0
  {
    ParseUint(id).n
  }

  /** intToString: strconv.FormatUint(id, 10). */
  function IntToString(id: uint64): (s: string)
    ensures IsCanonical(s) && Value(s) == id
  {
    Decimal(id)
  }

  /** Printing then parsing gives back every uint64. */
  lemma StringToIntOfIntToString(n: uint64)
    ensures ParseUint(IntToString(n)) == Parsed(n, None)
    ensures StringToInt(IntToString(n)) == n
  {
    var s := IntToString(n);
    assert IsDecimalUint64(s);
  }

  /** Parsing then printing gives back every canonical decimal string in range. */
  lemma {:induction false} IntToStringOfStringToInt(s: string)
    requires IsCanonical(s) && Value(s) <= MaxUint64
    ensures IntToString(StringToInt(s)) == s
  {
    DecimalOfValue(s);
  }

  /** Two IDs that render the same are the same ID. */
  lemma {:induction false} IntToStringInjective(m: uint64, n: uint64)
    requires IntToString(m) == IntToString(n)
    ensures m == n
  {
    StringToIntOfIntToString(m);
    StringToIntOfIntToString(n);
  }

  /** A malformed ID is not reported to the caller: every string parses to some number,
      and only a well-formed ID parses without error. */
  lemma StringToIntErrorSwallowed(id: string)
    ensures ParseUint(id).err == None <==> IsDecimalUint64(id)
    ensures ParseUint(id).err != None ==> StringToInt(id) == 0 || StringToInt(id) == MaxUint64
  {
  }
}
