/// What writer and reader promise each other.

module MessageLaws {
  import opened GoInts
  import opened Varints
  import opened Protobuf
  import opened Sequences
  import opened Wrappers

  /** The visit reports the field's number and value; for bytes, the window holds the value. */
  predicate Shows(buf: seq<byte>, v: Visit, f: Field) {
    match f
    case Number(num, x) => v == NumberAt(num, x)
    case Bytes(num, val) => v.BytesAt? && v.num == num && v.lo <= v.hi <= |buf| && buf[v.lo..v.hi] == val
  }

  lemma TagOfField(num: nat, wire: nat)
    requires num < 0x2000_0000_0000_0000 && wire < 8
    ensures TagOf(num, wire) / 8 == num && TagOf(num, wire) % 8 == wire
  {}

  lemma SmallSliceEnd(i: nat, l: nat)
    requires i + l <= MAX_SLICE
    ensures SliceEnd(i, l) == i + l
  {}

  lemma {:induction false} Step(buf: seq<byte>, i: nat, head: seq<byte>, rest: seq<byte>)
    requires i <= |buf| && buf[i..] == head + rest
    ensures i + |head| <= |buf| && buf[i + |head|..] == rest && buf[i..i + |head|] == head
  {}

  /** Reading the varint at the head of what is left moves on to the rest. */
  lemma {:induction false} StepVarint(buf: seq<byte>, i: nat, v: uint64, rest: seq<byte>)
    requires i <= |buf| && buf[i..] == Varint(v) + rest
    ensures Uvarint(buf[i..]) == Reading(v, |Varint(v)|)
    ensures i + |Varint(v)| <= |buf| && buf[i + |Varint(v)|..] == rest
  {
    UvarintOfVarint(v, rest);
    Step(buf, i, Varint(v), rest);
  }

  lemma {:induction false} ItemTag(buf: buffer, i: nat, num: nat, wire: nat, rest: seq<byte>)
    requires i < |buf| && num < 0x2000_0000_0000_0000 && wire < 8
    requires buf[i..] == Varint(TagOf(num, wire)) + rest
    ensures i + |Varint(TagOf(num, wire))| <= |buf|
    ensures buf[i + |Varint(TagOf(num, wire))|..] == rest
    ensures ItemAt(buf, i) == ItemBody(buf, i + |Varint(TagOf(num, wire))|, num, wire)
  {
    StepVarint(buf, i, TagOf(num, wire), rest);
    TagOfField(num, wire);
  }

  lemma {:induction false} TagThenNumber(buf: buffer, i: nat, num: nat, v: uint64, rest: seq<byte>) returns (next: nat)
    requires i < |buf| && num < 0x2000_0000_0000_0000
    requires buf[i..] == Varint(TagOf(num, 0)) + (Varint(v) + rest)
    ensures next <= |buf| && buf[next..] == rest && ItemAt(buf, i) == Call(NumberAt(num, v), next)
  {
    var j := i + |Varint(TagOf(num, 0))|;
    ItemTag(buf, i, num, 0, Varint(v) + rest);
    StepVarint(buf, j, v, rest);
    NumberItem(buf, j, num);
    next := j + |Varint(v)|;
  }

  lemma {:induction false} NumberItem(buf: buffer, i: nat, num: nat)
    requires i <= |buf|
    ensures ItemBody(buf, i, num, 0) == NumberBody(buf, i, num)
  {}

  lemma {:induction false} TagThenBytes(buf: buffer, i: nat, num: nat, val: seq<byte>, rest: seq<byte>) returns (next: nat)
    requires i < |buf| && num < 0x2000_0000_0000_0000 && |val| <= MAX_SLICE
    requires buf[i..] == Varint(TagOf(num, 2)) + (Varint(|val|) + (val + rest))
    ensures |val| <= next <= |buf| && buf[next..] == rest && buf[next - |val|..next] == val
    ensures ItemAt(buf, i) == Call(BytesAt(num, next - |val|, next), next)
  {
    var j := i + |Varint(TagOf(num, 2))|;
    ItemTag(buf, i, num, 2, Varint(|val|) + (val + rest));
    next := BodyBytes(buf, j, num, val, rest);
    BytesItem(buf, j, num);
  }

  lemma {:induction false} BytesItem(buf: buffer, i: nat, num: nat)
    requires i <= |buf|
    ensures ItemBody(buf, i, num, 2) == BytesBody(buf, i, num)
  {}

  lemma {:induction false} BodyBytes(buf: buffer, i: nat, num: nat, val: seq<byte>, rest: seq<byte>) returns (next: nat)
    requires i <= |buf| && |val| <= MAX_SLICE && buf[i..] == Varint(|val|) + (val + rest)
    ensures |val| <= next <= |buf| && buf[next..] == rest && buf[next - |val|..next] == val
    ensures BytesBody(buf, i, num) == Call(BytesAt(num, next - |val|, next), next)
  {
    var j := i + |Varint(|val|)|;
    StepVarint(buf, i, |val|, val + rest);
    Step(buf, j, val, rest);
    SmallSliceEnd(j, |val|);
    next := j + |val|;
  }

  lemma {:induction false} WrittenNumber(buf: buffer, i: nat, num: nat, x: uint64, written: seq<byte>, rest: seq<byte>)
    returns (next: nat)
    requires i < |buf| && num < 0x2000_0000_0000_0000
    requires buf[i..] == written + rest && written == Varint(TagOf(num, 0)) + Varint(x)
    ensures next <= |buf| && buf[next..] == rest && ItemAt(buf, i) == Call(NumberAt(num, x), next)
  {
    ConcatAssociates(Varint(TagOf(num, 0)), Varint(x), rest);
    next := TagThenNumber(buf, i, num, x, rest);
  }

  lemma {:induction false} WrittenBytes(buf: buffer, i: nat, num: nat, val: seq<byte>, written: seq<byte>, rest: seq<byte>)
    returns (next: nat)
    requires i < |buf| && num < 0x2000_0000_0000_0000 && |val| <= MAX_SLICE
    requires buf[i..] == written + rest && written == Varint(TagOf(num, 2)) + Varint(|val|) + val
    ensures |val| <= next <= |buf| && buf[next..] == rest && buf[next - |val|..next] == val
    ensures ItemAt(buf, i) == Call(BytesAt(num, next - |val|, next), next)
  {
    ConcatAssociates(Varint(TagOf(num, 2)) + Varint(|val|), val, rest);
    ConcatAssociates(Varint(TagOf(num, 2)), Varint(|val|), val + rest);
    next := TagThenBytes(buf, i, num, val, rest);
  }

  lemma {:induction false} NumberForm(num: nat, x: uint64)
    ensures EncodeField(Number(num, x)) == Varint(TagOf(num, 0)) + Varint(x)
  {}

  lemma {:induction false} BytesForm(num: nat, val: seq<byte>)
    requires |val| <= MAX_SLICE
    ensures EncodeField(Bytes(num, val)) == Varint(TagOf(num, 2)) + Varint(|val|) + val
  {}

  lemma {:induction false} EncodedNumber(buf: buffer, i: nat, num: nat, x: uint64, rest: seq<byte>) returns (next: nat)
    requires i < |buf| && num < 0x2000_0000_0000_0000 && buf[i..] == EncodeField(Number(num, x)) + rest
    ensures next <= |buf| && buf[next..] == rest && ItemAt(buf, i) == Call(NumberAt(num, x), next)
  {
    NumberForm(num, x);
    next := WrittenNumber(buf, i, num, x, EncodeField(Number(num, x)), rest);
  }

  lemma {:induction false} EncodedBytes(buf: buffer, i: nat, num: nat, val: seq<byte>, rest: seq<byte>) returns (next: nat)
    requires i < |buf| && num < 0x2000_0000_0000_0000 && |val| <= MAX_SLICE
    requires buf[i..] == EncodeField(Bytes(num, val)) + rest
    ensures |val| <= next <= |buf| && buf[next..] == rest && buf[next - |val|..next] == val
    ensures ItemAt(buf, i) == Call(BytesAt(num, next - |val|, next), next)
  {
    BytesForm(num, val);
    next := WrittenBytes(buf, i, num, val, EncodeField(Bytes(num, val)), rest);
  }

  /** The item at the head of what is left is the field written there; the rest is what follows. */
  lemma {:induction false} EncodedItem(buf: buffer, i: nat, f: Field, rest: seq<byte>) returns (v: Visit, next: nat)
    requires i < |buf| && Encodable(f) && buf[i..] == EncodeField(f) + rest
    ensures next <= |buf| && buf[next..] == rest
    ensures ItemAt(buf, i) == Call(v, next) && Shows(buf, v, f)
  {
    if f.Number? {
      next := EncodedNumber(buf, i, f.num, f.v, rest);
      v := NumberAt(f.num, f.v);
    } else {
      next := EncodedBytes(buf, i, f.num, f.val, rest);
      v := BytesAt(f.num, next - |f.val|, next);
    }
  }

  lemma {:induction false} ScanCall(buf: buffer, i: nat, v: Visit, next: nat)
    requires i < |buf| && ItemAt(buf, i) == Call(v, next)
    ensures i < next <= |buf| && ScanFrom(buf, i) == Cons(v, ScanFrom(buf, next))
  {}

  lemma {:induction false} HeadItem(buf: buffer, i: nat, fs: seq<Field>) returns (v: Visit, next: nat)
    requires i <= |buf| && AllEncodable(fs) && buf[i..] == Encode(fs) && fs != []
    ensures i < |buf| && i < next <= |buf| && buf[next..] == Encode(fs[1..])
    ensures ItemAt(buf, i) == Call(v, next) && Shows(buf, v, fs[0])
  {
    EncodeNonempty(fs[0]);
    v, next := EncodedItem(buf, i, fs[0], Encode(fs[1..]));
  }

  /**
   * Scanning what the writer wrote visits exactly the fields written, in order, and ends where
   * the buffer ends; the window of a length-delimited field holds its value.
   */
  lemma {:induction false} ScanOfEncode(buf: buffer, i: nat, fs: seq<Field>) returns (vs: seq<Visit>)
    requires i <= |buf| && AllEncodable(fs) && buf[i..] == Encode(fs)
    ensures ScanFrom(buf, i) == Scan(vs, Finished)
    ensures |vs| == |fs| && forall k :: 0 <= k < |fs| ==> Shows(buf, vs[k], fs[k])
    decreases |fs|
  {
    if fs == [] {
      vs := [];
    } else {
      var v, next := HeadItem(buf, i, fs);
      var rest := ScanOfEncode(buf, next, fs[1..]);
      ScanCall(buf, i, v, next);
      ShowAll(buf, v, rest, fs);
      vs := [v] + rest;
    }
  }

  lemma {:induction false} EncodeNonempty(f: Field)
    ensures EncodeField(f) != []
  {}

  lemma {:induction false} ShowAll(buf: seq<byte>, v: Visit, vs: seq<Visit>, fs: seq<Field>)
    requires fs != [] && |vs| == |fs| - 1 && Shows(buf, v, fs[0])
    requires forall k :: 0 <= k < |vs| ==> Shows(buf, vs[k], fs[1..][k])
    ensures forall k :: 0 <= k < |fs| ==> Shows(buf, ([v] + vs)[k], fs[k])
  {
    forall k | 0 < k < |fs|
      ensures Shows(buf, ([v] + vs)[k], fs[k])
    {
      assert Shows(buf, vs[k - 1], fs[1..][k - 1]);
    }
  }

  /// Reading fields back.

  lemma {:induction false} WindowInside(buf: buffer, i: nat, num: nat)
    requires i <= |buf|
    ensures var w := FirstBytes(ScanFrom(buf, i), num); w.Window? ==> w.lo <= w.hi <= |buf|
    decreases |buf| - i
  {
    if i < |buf| {
      var item := ItemAt(buf, i);
      if !item.GiveUp? {
        WindowInside(buf, item.next, num);
        if item.Call? {
          assert Cons(item.visit, ScanFrom(buf, item.next)).visits[1..] == ScanFrom(buf, item.next).visits;
        }
      }
    }
  }

  /** The value `pbBytesField` finds, if any. */
  function GetBytes(buf: buffer, num: nat): (r: Option<seq<byte>>)
    ensures r.Some? ==> |r.value| <= |buf|
  {
    WindowInside(buf, 0, num);
    match FirstBytes(ScanFrom(buf, 0), num)
    case Window(lo, hi) => Some(buf[lo..hi])
    case _ => None
  }

  /** The value `pbVarintField` finds. */
  function GetNumber(buf: buffer, num: nat): Figure {
    FirstNumber(ScanFrom(buf, 0), num)
  }

  function FieldBytes(fs: seq<Field>, num: nat): Option<seq<byte>> {
    if fs == [] then None
    else if fs[0].Bytes? && fs[0].num == num then Some(fs[0].val)
    else FieldBytes(fs[1..], num)
  }

  function FieldNumber(fs: seq<Field>, num: nat): uint64 {
    if fs == [] then 0
    else if fs[0].Number? && fs[0].num == num then fs[0].v
    else FieldNumber(fs[1..], num)
  }

  predicate SmallNums(fs: seq<Field>) {
    forall k :: 0 <= k < |fs| ==> SmallNum(fs[k])
  }

  lemma {:induction false} ShortEncodable(fs: seq<Field>)
    requires SmallNums(fs) && |Encode(fs)| <= MAX_SLICE
    ensures AllEncodable(fs)
  {
    if fs != [] {
      ShortEncodable(fs[1..]);
      forall k | 0 < k < |fs|
        ensures Encodable(fs[k])
      {
        assert fs[k] == fs[1..][k - 1];
      }
    }
  }

  lemma {:induction false} ShowRest(buf: seq<byte>, vs: seq<Visit>, fs: seq<Field>)
    requires fs != [] && |vs| == |fs| && forall k :: 0 <= k < |fs| ==> Shows(buf, vs[k], fs[k])
    ensures Shows(buf, vs[0], fs[0])
    ensures forall k :: 0 <= k < |fs| - 1 ==> Shows(buf, vs[1..][k], fs[1..][k])
  {
    forall k | 0 <= k < |fs| - 1
      ensures Shows(buf, vs[1..][k], fs[1..][k])
    {
      assert Shows(buf, vs[k + 1], fs[k + 1]);
    }
  }

  /** The answer to a getter's query matches the first field with that number. */
  predicate Answers(buf: seq<byte>, w: Found, o: Option<seq<byte>>) {
    match o
    case Some(val) => w.Window? && w.lo <= w.hi <= |buf| && buf[w.lo..w.hi] == val
    case None => w == Missing
  }

  lemma {:induction false} FirstBytesOfVisits(buf: buffer, vs: seq<Visit>, fs: seq<Field>, num: nat)
    requires |vs| == |fs| && forall k :: 0 <= k < |fs| ==> Shows(buf, vs[k], fs[k])
    ensures Answers(buf, FirstBytes(Scan(vs, Finished), num), FieldBytes(fs, num))
    decreases |fs|
  {
    if fs != [] {
      ShowRest(buf, vs, fs);
      FirstBytesOfVisits(buf, vs[1..], fs[1..], num);
    }
  }

  lemma {:induction false} FirstNumberOfVisits(buf: buffer, vs: seq<Visit>, fs: seq<Field>, num: nat)
    requires |vs| == |fs| && forall k :: 0 <= k < |fs| ==> Shows(buf, vs[k], fs[k])
    ensures FirstNumber(Scan(vs, Finished), num) == Figure(FieldNumber(fs, num))
    decreases |fs|
  {
    if fs != [] {
      ShowRest(buf, vs, fs);
      FirstNumberOfVisits(buf, vs[1..], fs[1..], num);
    }
  }

  /** The getters find in an encoding what was first written under that number. */
  lemma {:induction false} GetOfEncode(fs: seq<Field>, num: nat)
    requires SmallNums(fs) && |Encode(fs)| <= MAX_SLICE
    ensures GetBytes(Encode(fs), num) == FieldBytes(fs, num)
    ensures GetNumber(Encode(fs), num) == Figure(FieldNumber(fs, num))
  {
    ShortEncodable(fs);
    var buf: buffer := Encode(fs);
    assert buf[0..] == buf;
    var vs := ScanOfEncode(buf, 0, fs);
    FirstBytesOfVisits(buf, vs, fs, num);
    FirstNumberOfVisits(buf, vs, fs, num);
  }

  /** Field `k` is the first one with its number. */
  predicate First(fs: seq<Field>, k: nat) {
    k < |fs| && SmallNums(fs) && forall j :: 0 <= j < k ==> fs[j].num != fs[k].num
  }

  lemma {:induction false} FieldAt(fs: seq<Field>, k: nat)
    requires First(fs, k)
    ensures fs[k].Bytes? ==> FieldBytes(fs, fs[k].num) == Some(fs[k].val)
    ensures fs[k].Number? ==> FieldNumber(fs, fs[k].num) == fs[k].v
  {
    if k > 0 {
      assert fs[1..][k - 1] == fs[k];
      assert fs[0].num != fs[k].num;
      FieldAt(fs[1..], k - 1);
    }
  }

  /** A getter finds in an encoding the first field written under its number. */
  lemma {:induction false} GetAt(fs: seq<Field>, k: nat)
    requires First(fs, k) && |Encode(fs)| <= MAX_SLICE
    ensures fs[k].Bytes? ==> GetBytes(Encode(fs), fs[k].num) == Some(fs[k].val)
    ensures fs[k].Number? ==> GetNumber(Encode(fs), fs[k].num) == Figure(fs[k].v)
  {
    GetOfEncode(fs, fs[k].num);
    FieldAt(fs, k);
  }

  /// The layout of a message.

  /** Field number and wire type of a visited field. */
  function WireOf(v: Visit): (nat, nat) {
    match v
    case NumberAt(num, _) => (num, 0)
    case BytesAt(num, _, _) => (num, 2)
  }

  function Layout(visits: seq<Visit>): (shape: seq<(nat, nat)>)
    ensures |shape| == |visits|
  {
    seq(|visits|, k requires 0 <= k < |visits| => WireOf(visits[k]))
  }

  /** A scan of the whole message meets exactly these fields, in this order, and ends where it ends. */
  predicate LaidOut(buf: buffer, shape: seq<(nat, nat)>) {
    ScanFrom(buf, 0).end == Finished && Layout(ScanFrom(buf, 0).visits) == shape
  }

  function Shape(fs: seq<Field>): (shape: seq<(nat, nat)>)
    ensures |shape| == |fs|
  {
    seq(|fs|, k requires 0 <= k < |fs| => (fs[k].num, if fs[k].Number? then 0 else 2))
  }

  lemma {:induction false} LayoutOfEncode(fs: seq<Field>)
    requires SmallNums(fs) && |Encode(fs)| <= MAX_SLICE
    ensures LaidOut(Encode(fs), Shape(fs))
  {
    ShortEncodable(fs);
    var buf: buffer := Encode(fs);
    assert buf[0..] == buf;
    var vs := ScanOfEncode(buf, 0, fs);
    forall k | 0 <= k < |fs|
      ensures WireOf(vs[k]) == Shape(fs)[k]
    {
      assert Shows(buf, vs[k], fs[k]);
    }
    assert Layout(vs) == Shape(fs);
  }
}
