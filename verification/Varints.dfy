/// Base 128 varints: the writer of `internal/chain` and Go's `binary.Uvarint`.

module Varints {
  import opened GoInts

  /** The bytes `uvarint` appends: seven bits at a time, low ones first, all but the last marked. */
  function Varint(v: uint64): (s: seq<byte>)
    ensures s != []
    decreases v
  {
    if v < 0x80 then [v] else [v % 0x80 + 0x80] + Varint(v / 0x80)
  }

  datatype Reading = Reading(value: nat, n: int)

  /**
   * `binary.Uvarint` on the bytes of `buf`, `k` of which have been read: the value of the rest
   * and the total number of bytes. The count is 0 when the buffer ends too early and negative
   * when the value needs more than 64 bits.
   */
  function UvarintFrom(buf: seq<byte>, k: nat): (r: Reading)
    requires k <= |buf|
    ensures r.n > 0 ==> k < r.n <= |buf|
    decreases |buf| - k
  {
    if k == |buf| then Reading(0, 0)
    else if k == 10 then Reading(0, -11)
    else if buf[k] < 0x80 then
      if k == 9 && buf[k] > 1 then Reading(0, -10) else Reading(buf[k], k + 1)
    else
      var r := UvarintFrom(buf, k + 1);
      if r.n <= 0 then r else Reading(buf[k] - 0x80 + 0x80 * r.value, r.n)
  }

  function Uvarint(buf: seq<byte>): Reading {
    UvarintFrom(buf, 0)
  }

  lemma {:induction false} ReadingBound(buf: seq<byte>, k: nat)
    requires k <= |buf| && k <= 9 && UvarintFrom(buf, k).n > 0
    ensures UvarintFrom(buf, k).value < Pow2(64 - 7 * k)
    decreases 9 - k
  {
    assert Pow2(7) == 0x80 && Pow2(1) == 2;
    if buf[k] >= 0x80 {
      ReadingBound(buf, k + 1);
      Pow2Add(7, 64 - 7 * (k + 1));
    } else if k < 9 {
      Pow2Add(7, 57 - 7 * k);
    }
  }

  /** What `Uvarint` accepts is a `uint64`. */
  lemma {:induction false} UvarintBound(buf: seq<byte>)
    requires Uvarint(buf).n > 0
    ensures Uvarint(buf).value <= MAX_UINT64
  {
    ReadingBound(buf, 0);
    TwoTo64();
  }

  lemma {:induction false} ReadsFrom(buf: seq<byte>, k: nat, v: uint64, rest: seq<byte>)
    requires k <= |buf| && buf[k..] == Varint(v) + rest
    requires k <= 9 && v < Pow2(64 - 7 * k)
    ensures UvarintFrom(buf, k) == Reading(v, k + |Varint(v)|)
    decreases 9 - k
  {
    assert Pow2(7) == 0x80 && Pow2(1) == 2;
    assert buf[k] == buf[k..][0] == Varint(v)[0];
    if v >= 0x80 {
      assert k < 9;
      Pow2Add(7, 57 - 7 * k);
      assert buf[k + 1..] == Varint(v / 0x80) + rest;
      ReadsFrom(buf, k + 1, v / 0x80, rest);
    }
  }

  /** Reading inverts writing for every `uint64`, whatever follows. */
  lemma {:induction false} UvarintOfVarint(v: uint64, rest: seq<byte>)
    ensures Uvarint(Varint(v) + rest) == Reading(v, |Varint(v)|)
  {
    TwoTo64();
    ReadsFrom(Varint(v) + rest, 0, v, rest);
  }

  /** No varint is the beginning of another one. */
  lemma {:induction false} PrefixFree(v: uint64, x: seq<byte>, w: uint64, y: seq<byte>)
    requires Varint(v) + x == Varint(w) + y
    ensures v == w && x == y
  {
    UvarintOfVarint(v, x);
    UvarintOfVarint(w, y);
    assert x == (Varint(v) + x)[|Varint(v)|..] == (Varint(w) + y)[|Varint(w)|..] == y;
  }
}
