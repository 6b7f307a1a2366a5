/// The protobuf writer and reader of `internal/chain`.

module Protobuf {
  import opened GoInts
  import opened Sequences
  import opened Varints

  /** Longer than any Go slice: the address space has 48 bits. */
  const MAX_SLICE := 0x1_0000_0000_0000

  type buffer = b: seq<byte> | |b| <= MAX_SLICE

  /// Messages and their encoding.

  datatype Field =
    | Number(num: nat, v: uint64)
    | Bytes(num: nat, val: seq<byte>)

  /** A field number that survives the three-bit shift of a tag, and a length a slice can have. */
  predicate Encodable(f: Field) {
    SmallNum(f) && (f.Bytes? ==> |f.val| <= MAX_SLICE)
  }

  predicate SmallNum(f: Field) {
    f.num < 0x2000_0000_0000_0000
  }

  predicate AllEncodable(fs: seq<Field>) {
    forall k :: 0 <= k < |fs| ==> Encodable(fs[k])
  }

  /** A tag: the field number above three bits of wire type. */
  function TagOf(num: nat, wire: nat): uint64
    requires wire < 8
  {
    TagRoom(num, wire);
    WrapU64(num * 8) + wire
  }

  /** The three low bits are free: or-ing in the wire type is an addition. */
  lemma TagRoom(num: nat, wire: nat)
    requires wire < 8
    ensures WrapU64(num * 8) % 8 == 0 && WrapU64(num * 8) + wire <= MAX_UINT64
  {}

  function EncodeField(f: Field): seq<byte> {
    match f
    case Number(num, v) => Varint(TagOf(num, 0)) + Varint(v)
    case Bytes(num, val) => Varint(TagOf(num, 2)) + Varint(WrapU64(|val|)) + val
  }

  function Encode(fs: seq<Field>): seq<byte> {
    if fs == [] then [] else EncodeField(fs[0]) + Encode(fs[1..])
  }

  lemma {:induction false} EncodeAppend(fs: seq<Field>, f: Field)
    ensures Encode(fs + [f]) == Encode(fs) + EncodeField(f)
    decreases |fs|
  {
    if fs == [] {
      assert [f][1..] == [];
    } else {
      EncodeAppend(fs[1..], f);
      assert (fs + [f])[1..] == fs[1..] + [f];
      ConcatAssociates(EncodeField(fs[0]), Encode(fs[1..]), EncodeField(f));
    }
  }

  /** The writer: a growing byte slice. `fields` lists what has been written to it. */
  class Pb {
    var b: seq<byte>
    ghost var fields: seq<Field>

    ghost predicate Valid()
      reads this
    {
      b == Encode(fields)
    }

    constructor ()
      ensures Valid() && fields == []
    {
      b, fields := [], [];
    }

    method Uvarint(v0: uint64)
      modifies this`b
      ensures b == old(b) + Varint(v0)
    {
      var v := v0;
      while v >= 0x80
        invariant b + Varint(v) == old(b) + Varint(v0)
        decreases v
      {
        assert Varint(v) == [v % 0x80 + 0x80] + Varint(v / 0x80);
        b := b + [v % 0x80 + 0x80];
        v := v / 0x80;
      }
      b := b + [v];
    }

    method Tag(num: nat, wire: nat)
      requires wire < 8
      modifies this`b
      ensures b == old(b) + Varint(TagOf(num, wire))
    {
      TagRoom(num, wire);
      Uvarint(WrapU64(num * 8) + wire);
    }

    method BytesField(num: nat, val: seq<byte>)
      requires Valid()
      modifies this
      ensures Valid() && fields == old(fields) + [Bytes(num, val)]
      ensures b == old(b) + EncodeField(Bytes(num, val))
    {
      Tag(num, 2);
      Uvarint(WrapU64(|val|));
      b := b + val;
      ConcatFour(old(b), Varint(TagOf(num, 2)), Varint(WrapU64(|val|)), val);
      EncodeAppend(fields, Bytes(num, val));
      fields := fields + [Bytes(num, val)];
    }

    method Uint64Field(num: nat, v: uint64)
      requires Valid()
      modifies this
      ensures Valid() && fields == old(fields) + [Number(num, v)]
      ensures b == old(b) + EncodeField(Number(num, v))
    {
      Tag(num, 0);
      Uvarint(v);
      ConcatAssociates(old(b), Varint(TagOf(num, 0)), Varint(v));
      EncodeAppend(fields, Number(num, v));
      fields := fields + [Number(num, v)];
    }
  }

  /// Scanning.

  /** What the scanner hands to its callback. */
  datatype Visit =
    | NumberAt(num: nat, v: uint64)
    | BytesAt(num: nat, lo: nat, hi: nat)

  /** How a scan ends; `Trapped` is the run-time check of a slice expression. */
  datatype End = Finished | Malformed | Stopped | Trapped

  datatype Scan = Scan(visits: seq<Visit>, end: End)

  function Cons(v: Visit, s: Scan): Scan {
    Scan([v] + s.visits, s.end)
  }

  /** `i + int(l)` in 64-bit integers. */
  function SliceEnd(i: nat, l: nat): int64 {
    WrapI64(i + WrapI64(l))
  }

  /** One turn of the scanner's loop: give up, skip an item, or hand one to the callback. */
  datatype Item =
    | GiveUp(end: End)
    | Skip(next: nat)
    | Call(visit: Visit, next: nat)

  function ItemAt(buf: buffer, i: nat): (r: Item)
    requires i < |buf|
    ensures !r.GiveUp? ==> i < r.next <= |buf|
  {
    var tag := Uvarint(buf[i..]);
    if tag.n <= 0 then GiveUp(Malformed) else ItemBody(buf, i + tag.n, tag.value / 8, tag.value % 8)
  }

  /** The source's switch on the wire type. */
  function ItemBody(buf: buffer, i: nat, num: nat, wire: nat): (r: Item)
    requires i <= |buf|
    ensures !r.GiveUp? ==> i <= r.next <= |buf|
  {
    match wire
    case 0 => NumberBody(buf, i, num)
    case 1 => if i + 8 > |buf| then GiveUp(Malformed) else Skip(i + 8)
    case 5 => if i + 4 > |buf| then GiveUp(Malformed) else Skip(i + 4)
    case 2 => BytesBody(buf, i, num)
    case _ => GiveUp(Malformed)
  }

  function NumberBody(buf: buffer, i: nat, num: nat): (r: Item)
    requires i <= |buf|
    ensures !r.GiveUp? ==> i <= r.next <= |buf|
  {
    var v := Uvarint(buf[i..]);
    if v.n <= 0 then GiveUp(Malformed)
    else
      UvarintBound(buf[i..]);
      Call(NumberAt(num, v.value), i + v.n)
  }

  function BytesBody(buf: buffer, i: nat, num: nat): (r: Item)
    requires i <= |buf|
    ensures !r.GiveUp? ==> i <= r.next <= |buf|
  {
    var l := Uvarint(buf[i..]);
    if l.n <= 0 then GiveUp(Malformed)
    else
      var lo := i + l.n;
      var hi := SliceEnd(lo, l.value);
      if hi > |buf| then GiveUp(Malformed)
      else if hi < lo then GiveUp(Trapped)
      else Call(BytesAt(num, lo, hi), hi)
  }

  /** All visits of a scan of `buf` from position `i`. */
  function ScanFrom(buf: buffer, i: nat): Scan
    requires i <= |buf|
    decreases |buf| - i
  {
    if i == |buf| then Scan([], Finished)
    else
      match ItemAt(buf, i)
      case GiveUp(end) => Scan([], end)
      case Skip(next) => ScanFrom(buf, next)
      case Call(visit, next) => Cons(visit, ScanFrom(buf, next))
  }

  /** The part of a scan up to the first visit its callback answers with false. */
  function Until(s: Scan, more: Visit -> bool): Scan
    decreases |s.visits|
  {
    if s.visits == [] then s
    else if !more(s.visits[0]) then Scan([s.visits[0]], Stopped)
    else Cons(s.visits[0], Until(Scan(s.visits[1..], s.end), more))
  }

  function After(done: seq<Visit>, s: Scan): Scan {
    Scan(done + s.visits, s.end)
  }

  lemma {:induction false} UntilCons(done: seq<Visit>, v: Visit, s: Scan, more: Visit -> bool)
    ensures After(done, Until(Cons(v, s), more)) ==
            if more(v) then After(done + [v], Until(s, more)) else Scan(done + [v], Stopped)
  {
    assert Cons(v, s).visits[1..] == s.visits;
    assert done + ([v] + Until(s, more).visits) == (done + [v]) + Until(s, more).visits;
  }

  /** The source's scanner; its callback is `more` and `s.visits` lists the calls. */
  method PbScan(buf: buffer, more: Visit -> bool) returns (s: Scan)
    ensures s == Until(ScanFrom(buf, 0), more)
  {
    var i: nat, visits: seq<Visit> := 0, [];
    while i < |buf|
      invariant i <= |buf|
      invariant After(visits, Until(ScanFrom(buf, i), more)) == Until(ScanFrom(buf, 0), more)
      decreases |buf| - i
    {
      match ItemAt(buf, i)
      case GiveUp(end) =>
        return Scan(visits, end);
      case Skip(next) =>
        i := next;
      case Call(visit, next) =>
        UntilCons(visits, visit, ScanFrom(buf, next), more);
        visits := visits + [visit];
        if !more(visit) {
          return Scan(visits, Stopped);
        }
        i := next;
    }
    return Scan(visits, Finished);
  }

  /// The field getters.

  /** A getter's answer: a window of the buffer, nothing, or the run-time check's panic. */
  datatype Found = Window(lo: nat, hi: nat) | Missing | Panic

  /** The first length-delimited field `num` among the visits of a scan. */
  function FirstBytes(s: Scan, num: nat): Found
    decreases |s.visits|
  {
    if s.visits == [] then if s.end.Trapped? then Panic else Missing
    else if s.visits[0].BytesAt? && s.visits[0].num == num then Window(s.visits[0].lo, s.visits[0].hi)
    else FirstBytes(Scan(s.visits[1..], s.end), num)
  }

  datatype Figure = Figure(v: uint64) | FigurePanic

  /** The first varint field `num` among the visits, 0 if there is none. */
  function FirstNumber(s: Scan, num: nat): Figure
    decreases |s.visits|
  {
    if s.visits == [] then if s.end.Trapped? then FigurePanic else Figure(0)
    else if s.visits[0].NumberAt? && s.visits[0].num == num then Figure(s.visits[0].v)
    else FirstNumber(Scan(s.visits[1..], s.end), num)
  }

  predicate IsBytes(v: Visit, num: nat) {
    v.BytesAt? && v.num == num
  }

  predicate IsNumber(v: Visit, num: nat) {
    v.NumberAt? && v.num == num
  }

  /** What the captured variable of `pbBytesField` holds after the calls of a scan. */
  function Captured(s: Scan, num: nat): Found {
    if s.end.Trapped? then Panic
    else if s.visits != [] && IsBytes(s.visits[|s.visits| - 1], num) then
      Window(s.visits[|s.visits| - 1].lo, s.visits[|s.visits| - 1].hi)
    else Missing
  }

  /** What the captured variable of `pbVarintField` holds after the calls of a scan. */
  function CapturedNumber(s: Scan, num: nat): Figure {
    if s.end.Trapped? then FigurePanic
    else if s.visits != [] && IsNumber(s.visits[|s.visits| - 1], num) then Figure(s.visits[|s.visits| - 1].v)
    else Figure(0)
  }

  lemma {:induction false} LastOfCons(v: Visit, s: Scan)
    ensures s.visits != [] ==> Cons(v, s).visits[|s.visits|] == s.visits[|s.visits| - 1]
  {}

  lemma {:induction false} StoppedAtBytes(s: Scan, num: nat, more: Visit -> bool)
    requires forall v :: more(v) == !IsBytes(v, num)
    ensures FirstBytes(s, num) == Captured(Until(s, more), num)
    decreases |s.visits|
  {
    if s.visits != [] && more(s.visits[0]) {
      var t := Scan(s.visits[1..], s.end);
      StoppedAtBytes(t, num, more);
      LastOfCons(s.visits[0], Until(t, more));
    }
  }

  lemma {:induction false} StoppedAtNumber(s: Scan, num: nat, more: Visit -> bool)
    requires forall v :: more(v) == !IsNumber(v, num)
    ensures FirstNumber(s, num) == CapturedNumber(Until(s, more), num)
    decreases |s.visits|
  {
    if s.visits != [] && more(s.visits[0]) {
      var t := Scan(s.visits[1..], s.end);
      StoppedAtNumber(t, num, more);
      LastOfCons(s.visits[0], Until(t, more));
    }
  }

  method PbBytesField(buf: buffer, num: nat) returns (out: Found)
    ensures out == FirstBytes(ScanFrom(buf, 0), num)
  {
    var more := (v: Visit) => !IsBytes(v, num);
    StoppedAtBytes(ScanFrom(buf, 0), num, more);
    var s := PbScan(buf, more);
    out := Captured(s, num);
  }

  method PbVarintField(buf: buffer, num: nat) returns (out: Figure)
    ensures out == FirstNumber(ScanFrom(buf, 0), num)
  {
    var more := (v: Visit) => !IsNumber(v, num);
    StoppedAtNumber(ScanFrom(buf, 0), num, more);
    var s := PbScan(buf, more);
    out := CapturedNumber(s, num);
  }
}
