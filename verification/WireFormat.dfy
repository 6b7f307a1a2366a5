/// The wire format byte by byte, without the writer and the reader in the statements: base 128
/// groups, tags, wire types and lengths as the protocol buffers encoding describes them.

module WireFormat {
  import opened GoInts
  import opened Varints
  import opened Protobuf
  import Decimal

  /// Varints.

  lemma Groups(v: nat, p: nat)
    requires p > 0
    ensures v / 0x80 / p == v / (p * 0x80) && (v / 0x80 < p <==> v < p * 0x80)
  {
    DivDiv(v, 0x80, p);
    var q, r := v / 0x80, v % 0x80;
    assert v == q * 0x80 + r;
    if q < p {
      Monotone(q, p - 1, 0x80);
    } else {
      Monotone(p, q, 0x80);
    }
  }

  /** Byte `k` of a varint holds the seven bits `k` of the number and a mark that more bytes follow. */
  lemma {:induction false} VarintBytes(v: uint64, k: nat)
    requires k < |Varint(v)|
    ensures Varint(v)[k] == v / Pow2(7 * k) % 0x80 + if k < |Varint(v)| - 1 then 0x80 else 0
    decreases v
  {
    assert Pow2(0) == 1;
    if k > 0 {
      VarintBytes(v / 0x80, k - 1);
      SevenMore(k - 1);
      Groups(v, Pow2(7 * (k - 1)));
      assert Varint(v)[k] == Varint(v / 0x80)[k - 1];
    } else {
      assert v / Pow2(0) == v;
    }
  }

  lemma {:induction false} SevenMore(k: nat)
    ensures Pow2(7 * (k + 1)) == Pow2(7 * k) * 0x80
  {
    assert Pow2(7) == 0x80;
    Pow2Add(7 * k, 7);
    assert 7 * (k + 1) == 7 * k + 7;
  }

  /** A varint has as many bytes as the number has groups of seven bits, and at least one. */
  lemma {:induction false} VarintLength(v: uint64)
    ensures v < Pow2(7 * |Varint(v)|)
    ensures |Varint(v)| > 1 ==> v >= Pow2(7 * (|Varint(v)| - 1))
    decreases v
  {
    assert Pow2(0) == 1 && Pow2(7) == 0x80;
    if v >= 0x80 {
      var n := |Varint(v / 0x80)|;
      VarintLength(v / 0x80);
      SevenMore(n);
      Groups(v, Pow2(7 * n));
      if n > 1 {
        SevenMore(n - 1);
        Groups(v, Pow2(7 * (n - 1)));
      }
    }
  }

  /** Where the first byte without a mark is, from `k` on. */
  function Unmarked(buf: seq<byte>, k: nat): (t: nat)
    requires k <= |buf|
    ensures k <= t <= |buf| && (t < |buf| ==> buf[t] < 0x80)
    ensures forall j :: k <= j < t ==> buf[j] >= 0x80
    decreases |buf| - k
  {
    if k == |buf| || buf[k] < 0x80 then k else Unmarked(buf, k + 1)
  }

  /** The number that groups of seven bits write, the low ones first. */
  function Grouped(s: seq<byte>): nat {
    if s == [] then 0 else s[0] % 0x80 + 0x80 * Grouped(s[1..])
  }

  lemma {:induction false} GroupedNext(buf: seq<byte>, k: nat, t: nat)
    requires k < t < |buf|
    ensures Grouped(buf[k..t + 1]) == buf[k] % 0x80 + 0x80 * Grouped(buf[k + 1..t + 1])
  {
    assert buf[k..t + 1][1..] == buf[k + 1..t + 1];
  }

  lemma {:induction false} GroupedOne(buf: seq<byte>, k: nat)
    requires k < |buf| && buf[k] < 0x80
    ensures Grouped(buf[k..k + 1]) == buf[k]
  {
    assert buf[k..k + 1] == [buf[k]] && [buf[k]][1..] == [];
  }

  lemma {:induction false} UvarintFromIs(buf: seq<byte>, k: nat)
    requires k <= |buf| && k <= 10
    ensures var t, r := Unmarked(buf, k), UvarintFrom(buf, k);
            && (r.n > 0 <==> t < |buf| && t <= 9 && (t == 9 ==> buf[t] <= 1))
            && (r.n > 0 ==> r.n == t + 1 && r.value == Grouped(buf[k..t + 1]))
    decreases |buf| - k
  {
    var t := Unmarked(buf, k);
    if k < |buf| && buf[k] < 0x80 {
      GroupedOne(buf, k);
    } else if k < |buf| && k < 10 {
      UvarintFromIs(buf, k + 1);
      if t < |buf| {
        GroupedNext(buf, k, t);
      }
    }
  }

  /** What is read from any bytes: ten bytes at most, and no bit beyond the 64th. */
  lemma {:induction false} UvarintIs(buf: seq<byte>)
    ensures var t, r := Unmarked(buf, 0), Uvarint(buf);
            && (r.n > 0 <==> t < |buf| && t <= 9 && (t == 9 ==> buf[t] <= 1))
            && (r.n > 0 ==> r.n == t + 1 && r.value == Grouped(buf[..t + 1]))
  {
    UvarintFromIs(buf, 0);
    if Unmarked(buf, 0) < |buf| {
      assert buf[0..Unmarked(buf, 0) + 1] == buf[..Unmarked(buf, 0) + 1];
    }
  }

  /// Fields.

  /** A field is its tag, with the number above three bits of wire type, and its value. */
  lemma {:induction false} FieldOnWire(f: Field)
    requires Encodable(f)
    ensures EncodeField(f) ==
            match f
            case Number(num, v) => Varint(8 * num) + Varint(v)
            case Bytes(num, val) => Varint(8 * num + 2) + Varint(|val|) + val
  {}

  /** What lies at position `i` of a buffer. */
  predicate LiesAt(buf: buffer, i: nat, s: seq<byte>, rest: seq<byte>) {
    i <= |buf| && buf[i..] == s + rest
  }

  lemma {:induction false} TagRead(buf: buffer, i: nat, num: nat, wire: nat, rest: seq<byte>)
    requires num < 0x2000_0000_0000_0000 && wire < 8 && LiesAt(buf, i, Varint(8 * num + wire), rest)
    ensures i < |buf| && |rest| < |buf| && buf[|buf| - |rest|..] == rest
    ensures ItemAt(buf, i) == ItemBody(buf, |buf| - |rest|, num, wire)
  {
    var t := Varint(8 * num + wire);
    UvarintOfVarint(8 * num + wire, rest);
    TagParts(num, wire);
    assert |buf| - i == |t| + |rest|;
    assert buf[i + |t|..] == buf[i..][|t|..] == rest;
  }

  lemma TagParts(num: nat, wire: nat)
    requires wire < 8
    ensures (8 * num + wire) / 8 == num && (8 * num + wire) % 8 == wire
  {}

  /** A number is handed on with its value. */
  lemma {:induction false} NumberItem(buf: buffer, i: nat, num: nat, v: uint64, rest: seq<byte>)
    requires num < 0x2000_0000_0000_0000 && LiesAt(buf, i, Varint(8 * num), Varint(v) + rest)
    ensures |rest| <= |buf| && ItemAt(buf, i) == Call(NumberAt(num, v), |buf| - |rest|)
  {
    TagRead(buf, i, num, 0, Varint(v) + rest);
    UvarintOfVarint(v, rest);
  }

  /**
   * Bytes are handed on if the buffer holds as many as the length says. A longer length ends the
   * scan, by the run-time check if the sum with the position does not fit the word.
   */
  lemma {:induction false} BytesItem(buf: buffer, i: nat, num: nat, l: uint64, rest: seq<byte>)
    requires num < 0x2000_0000_0000_0000 && LiesAt(buf, i, Varint(8 * num + 2), Varint(l) + rest)
    ensures |rest| <= |buf|
    ensures var lo := |buf| - |rest|;
            ItemAt(buf, i) ==
            if l <= |rest| then Call(BytesAt(num, lo, lo + l), lo + l)
            else if lo + l < 0x8000_0000_0000_0000 then GiveUp(Malformed)
            else GiveUp(Trapped)
  {
    TagRead(buf, i, num, 2, Varint(l) + rest);
    UvarintOfVarint(l, rest);
    SumOfLength(|buf| - |rest|, l);
  }

  lemma SumOfLength(lo: nat, l: uint64)
    requires lo <= MAX_SLICE
    ensures SliceEnd(lo, l) == if lo + l < 0x8000_0000_0000_0000 then lo + l else SliceEnd(lo, l)
    ensures lo + l >= 0x8000_0000_0000_0000 ==> SliceEnd(lo, l) < lo
  {}

  /** Eight bytes of wire type 1 and four of wire type 5 are skipped; the other wire types end the scan. */
  lemma {:induction false} OtherItem(buf: buffer, i: nat, num: nat, wire: nat, rest: seq<byte>)
    requires num < 0x2000_0000_0000_0000 && wire < 8 && wire != 0 && wire != 2
    requires LiesAt(buf, i, Varint(8 * num + wire), rest)
    ensures |rest| <= |buf|
    ensures ItemAt(buf, i) ==
            if wire == 1 && |rest| >= 8 then Skip(|buf| - |rest| + 8)
            else if wire == 5 && |rest| >= 4 then Skip(|buf| - |rest| + 4)
            else GiveUp(Malformed)
  {
    TagRead(buf, i, num, wire, rest);
  }

  /// Decimal numbers.

  function Pow10(n: nat): (p: nat)
    ensures p > 0
  {
    if n == 0 then 1 else 10 * Pow10(n - 1)
  }

  lemma Tens(v: nat, p: nat)
    requires p > 0
    ensures v / 10 / p == v / (p * 10) && (v / 10 < p <==> v < p * 10)
  {
    DivDiv(v, 10, p);
    var q, r := v / 10, v % 10;
    assert v == q * 10 + r;
    if q < p {
      Monotone(q, p - 1, 10);
    } else {
      Monotone(p, q, 10);
    }
  }

  /** The digit at each place of a written amount, the last one being the units. */
  lemma {:induction false} FormatDigits(v: nat, k: nat)
    requires k < |Decimal.Format(v)|
    ensures Decimal.Format(v)[|Decimal.Format(v)| - 1 - k] == '0' as int + v / Pow10(k) % 10
    decreases v
  {
    if k > 0 {
      var head := Decimal.Format(v / 10);
      FormatDigits(v / 10, k - 1);
      Tens(v, Pow10(k - 1));
      assert Decimal.Format(v) == head + ['0' as int + v % 10];
      assert Decimal.Format(v)[|head| - k] == head[|head| - 1 - (k - 1)];
    } else {
      assert v / 1 == v;
    }
  }

  /** As many digits as the amount needs. */
  lemma {:induction false} FormatLength(v: nat)
    ensures v < Pow10(|Decimal.Format(v)|)
    ensures |Decimal.Format(v)| > 1 ==> v >= Pow10(|Decimal.Format(v)| - 1)
    decreases v
  {
    if v >= 10 {
      var n := |Decimal.Format(v / 10)|;
      FormatLength(v / 10);
      Tens(v, Pow10(n));
      if n > 1 {
        Tens(v, Pow10(n - 1));
      }
    }
  }

  predicate AllDigits(s: seq<byte>) {
    forall k :: 0 <= k < |s| ==> Decimal.IsDigit(s[k])
  }

  /** The number that digits write. */
  function Written(s: seq<byte>): (v: nat)
    requires AllDigits(s)
  {
    if s == [] then 0
    else
      assert AllDigits(s[1..]) by { TailDigits(s); }
      DigitValue(s[0]) * Pow10(|s| - 1) + Written(s[1..])
  }

  lemma TailDigits(s: seq<byte>)
    requires AllDigits(s) && s != []
    ensures AllDigits(s[1..])
  {}

  function DigitValue(c: byte): (d: nat)
    requires Decimal.IsDigit(c)
  {
    c - '0' as int
  }

  /** How many digits `s` begins with. */
  function Lead(s: seq<byte>): (k: nat)
    ensures k <= |s| && AllDigits(s[..k]) && (k < |s| ==> !Decimal.IsDigit(s[k]))
  {
    if s == [] || !Decimal.IsDigit(s[0]) then 0
    else
      assert s[..Lead(s[1..]) + 1] == [s[0]] + s[1..][..Lead(s[1..])];
      Lead(s[1..]) + 1
  }

  lemma {:induction false} WrittenNext(n: nat, s: seq<byte>, k: nat)
    requires 0 < k <= |s| && AllDigits(s[..k])
    ensures Decimal.IsDigit(s[0]) && AllDigits(s[1..][..k - 1])
    ensures n * Pow10(k) + Written(s[..k]) == (10 * n + DigitValue(s[0])) * Pow10(k - 1) + Written(s[1..][..k - 1])
  {
    assert s[..k][0] == s[0] && s[..k][1..] == s[1..][..k - 1];
    TailDigits(s[..k]);
    Distribute(10 * n, DigitValue(s[0]), Pow10(k - 1));
    Associate(10, n, Pow10(k - 1));
    Associate(n, 10, Pow10(k - 1));
  }

  lemma {:induction false} ParseFromIs(n: uint64, s: seq<byte>)
    ensures var v := n * Pow10(Lead(s)) + Written(s[..Lead(s)]);
            Decimal.ParseFrom(n, s) == if v > MAX_UINT64 then MAX_UINT64 else if Lead(s) == |s| then v else 0
    decreases |s|
  {
    var k := Lead(s);
    assert s[..0] == [];
    if k > 0 {
      var m := 10 * n + DigitValue(s[0]);
      WrittenNext(n, s, k);
      if m > MAX_UINT64 {
        AtLeast(Pow10(k - 1), m);
        Commute(m, Pow10(k - 1));
      } else {
        ParseFromIs(m, s[1..]);
      }
    }
  }

  lemma Commute(a: int, b: int)
    ensures a * b == b * a
  {}

  /**
   * What is read from any bytes: the number their digits write, the largest `uint64` if it is larger
   * than that, and 0 if there is anything but digits.
   */
  lemma {:induction false} ParseIs(s: seq<byte>)
    ensures Decimal.Parse(s) ==
            if Written(s[..Lead(s)]) > MAX_UINT64 then MAX_UINT64 else if AllDigits(s) then Written(s) else 0
  {
    ParseFromIs(0, s);
    if Lead(s) == |s| {
      assert s[..Lead(s)] == s;
    }
  }
}
