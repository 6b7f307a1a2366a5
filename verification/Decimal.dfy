/// Decimal amounts: `strconv.FormatUint` and `strconv.ParseUint`, base 10, 64 bits.

module Decimal {
  import opened GoInts

  function Format(v: nat): (s: seq<byte>)
    ensures s != []
    decreases v
  {
    if v < 10 then ['0' as int + v] else Format(v / 10) + ['0' as int + v % 10]
  }

  predicate IsDigit(c: byte) {
    '0' as int <= c <= '9' as int
  }

  /**
   * The value `ParseUint` returns beside its error when `n` has been read: 0 at the first
   * character that is no digit, the largest `uint64` as soon as the number outgrows it.
   */
  function ParseFrom(n: uint64, s: seq<byte>): uint64
    decreases |s|
  {
    if s == [] then n
    else if !IsDigit(s[0]) then 0
    else
      var m := 10 * n + (s[0] - '0' as int);
      if m > MAX_UINT64 then MAX_UINT64 else ParseFrom(m, s[1..])
  }

  function Parse(s: seq<byte>): uint64 {
    ParseFrom(0, s)
  }

  lemma {:induction false} ParsePrefix(v: uint64, rest: seq<byte>)
    ensures ParseFrom(0, Format(v) + rest) == ParseFrom(v, rest)
    decreases v
  {
    var d := ['0' as int + v % 10];
    assert (d + rest)[1..] == rest;
    if v < 10 {
      assert Format(v) == d;
    } else {
      ParsePrefix(v / 10, d + rest);
      assert Format(v) + rest == Format(v / 10) + (d + rest);
    }
  }

  /** Every amount survives being written and read. */
  lemma {:induction false} ParseOfFormat(v: uint64)
    ensures Parse(Format(v)) == v
  {
    ParsePrefix(v, []);
    assert Format(v) + [] == Format(v);
  }

  lemma {:induction false} ParseSaturates(v: nat, rest: seq<byte>)
    requires v > MAX_UINT64
    ensures ParseFrom(0, Format(v) + rest) == MAX_UINT64
    decreases v
  {
    var d := ['0' as int + v % 10];
    assert Format(v) + rest == Format(v / 10) + (d + rest);
    if v / 10 > MAX_UINT64 {
      ParseSaturates(v / 10, d + rest);
    } else {
      ParsePrefix(v / 10, d + rest);
    }
  }

  /** A number too large for 64 bits is read as the largest one that is not. */
  lemma {:induction false} ParseOfLarge(v: nat)
    ensures Parse(Format(v)) == if v > MAX_UINT64 then MAX_UINT64 else v
  {
    if v > MAX_UINT64 {
      ParseSaturates(v, []);
      assert Format(v) + [] == Format(v);
    } else {
      ParseOfFormat(v);
    }
  }
}
