/// The keyring's protobuf reader, written independently of the one in `internal/chain`, and
/// the extraction and wiping of the private key.

module Keys {
  import opened GoInts
  import opened Varints
  import opened Protobuf
  import opened MessageLaws
  import opened Wrappers

  datatype Reason = BadTag | BadVarint | BadLength | Overrun | BadWireType | NotFound | NoLocalKey | WrongKeyLength

  /** A reader's answer: a window of its buffer, an error, or the slice expression's run-time check. */
  datatype Lookup = Ok(lo: nat, hi: nat) | Err(reason: Reason) | Trap

  /** One turn of the loop in `pbBytes`: move on or return. */
  datatype Turn = Continue(next: nat) | Return(r: Lookup)

  function TurnAt(buf: buffer, i: nat, want: nat): (t: Turn)
    requires i < |buf|
    ensures t.Continue? ==> i < t.next
    ensures t.Return? && t.r.Ok? ==> i < t.r.lo <= t.r.hi <= |buf|
  {
    var tag := Uvarint(buf[i..]);
    if tag.n <= 0 then Return(Err(BadTag)) else TurnBody(buf, i + tag.n, tag.value / 8, tag.value % 8, want)
  }

  /** The source's switch on the wire type. */
  function TurnBody(buf: buffer, i: nat, num: nat, wire: nat, want: nat): (t: Turn)
    requires i <= |buf|
    ensures t.Continue? ==> i <= t.next
    ensures t.Return? && t.r.Ok? ==> i < t.r.lo <= t.r.hi <= |buf|
  {
    match wire
    case 0 =>
      var v := Uvarint(buf[i..]);
      if v.n <= 0 then Return(Err(BadVarint)) else Continue(i + v.n)
    case 1 => Continue(i + 8)
    case 5 => Continue(i + 4)
    case 2 =>
      var l := Uvarint(buf[i..]);
      if l.n <= 0 then Return(Err(BadLength))
      else
        var lo := i + l.n;
        var end := SliceEnd(lo, l.value);
        if end > |buf| then Return(Err(Overrun))
        else if end < lo then Return(Trap)
        else if num == want then Return(Ok(lo, end))
        else Continue(end)
    case _ => Return(Err(BadWireType))
  }

  /** `pbBytes` from position `i`, which may already lie beyond the buffer's end. */
  function Find(buf: buffer, i: nat, want: nat): (r: Lookup)
    ensures r.Ok? ==> i < r.lo <= r.hi <= |buf|
    decreases |buf| - i
  {
    if i >= |buf| then Err(NotFound)
    else
      match TurnAt(buf, i, want)
      case Return(r) => r
      case Continue(next) => Find(buf, next, want)
  }

  method PbBytes(buf: buffer, want: nat) returns (r: Lookup)
    ensures r == Find(buf, 0, want)
  {
    var i := 0;
    while i < |buf|
      invariant 0 <= i
      invariant Find(buf, i, want) == Find(buf, 0, want)
      decreases |buf| - i
    {
      match TurnAt(buf, i, want)
      case Return(answer) =>
        return answer;
      case Continue(next) =>
        i := next;
    }
    return Err(NotFound);
  }

  /// The two readers agree.

  /** The same answer, errors of every kind being "no such field" to the other reader. */
  predicate Agree(mine: Lookup, theirs: Found) {
    match mine
    case Ok(lo, hi) => theirs == Window(lo, hi)
    case Err(_) => theirs == Missing
    case Trap => theirs == Panic
  }

  lemma {:induction false} FirstOfCons(v: Visit, s: Scan, num: nat)
    ensures FirstBytes(Cons(v, s), num) == if IsBytes(v, num) then Window(v.lo, v.hi) else FirstBytes(s, num)
  {
    assert Cons(v, s).visits[1..] == s.visits;
  }

  /** One turn of this loop and one turn of the other reader's. */
  lemma {:induction false} TurnsAgree(buf: buffer, i: nat, num: nat)
    requires i < |buf|
    ensures match ItemAt(buf, i)
            case Skip(next) => TurnAt(buf, i, num) == Continue(next)
            case Call(v, next) =>
              TurnAt(buf, i, num) == if IsBytes(v, num) then Return(Ok(v.lo, v.hi)) else Continue(next)
            case GiveUp(end) =>
              match TurnAt(buf, i, num)
              case Continue(next) => next > |buf| && end == Malformed
              case Return(r) => if end == Trapped then r == Trap else r.Err? && end == Malformed
  {}

  /** On every buffer, malformed ones included, both readers find the same window or none. */
  lemma {:induction false} ReadersAgree(buf: buffer, i: nat, num: nat)
    requires i <= |buf|
    ensures Agree(Find(buf, i, num), FirstBytes(ScanFrom(buf, i), num))
    decreases |buf| - i
  {
    if i < |buf| {
      TurnsAgree(buf, i, num);
      match ItemAt(buf, i) {
        case Skip(next) =>
          ReadersAgree(buf, next, num);
        case Call(v, next) =>
          ReadersAgree(buf, next, num);
          FirstOfCons(v, ScanFrom(buf, next), num);
        case GiveUp(end) =>
          if TurnAt(buf, i, num).Continue? {
            assert Find(buf, TurnAt(buf, i, num).next, num) == Err(NotFound);
          }
      }
    }
  }

  /// The private key of a keyring record.

  /** `pbBytes` on the slice a previous answer stands for, in coordinates of the whole record. */
  function Inside(record: buffer, w: Lookup, want: nat): (r: Lookup)
    requires w.Ok? ==> w.lo <= w.hi <= |record|
    ensures r.Ok? ==> w.Ok? && w.lo < r.lo <= r.hi <= w.hi
  {
    match w
    case Ok(lo, hi) =>
      (match Find(record[lo..hi], 0, want)
       case Ok(a, b) => Ok(lo + a, lo + b)
       case other => other)
    case other => other
  }

  function LocalWindow(record: buffer): (r: Lookup)
    ensures r.Ok? ==> r.lo <= r.hi <= |record|
  {
    match Find(record, 0, 3)
    case Err(_) => Err(NoLocalKey)
    case other => other
  }

  /** `extractPrivKey`: field 3, then 1, then 2, then 1, which must hold 32 bytes. */
  function KeyWindow(record: buffer): (r: Lookup)
    ensures r.Ok? ==> r.lo <= r.hi <= |record| && r.hi - r.lo == 32
  {
    match Inside(record, Inside(record, Inside(record, LocalWindow(record), 1), 2), 1)
    case Ok(lo, hi) => if hi - lo != 32 then Err(WrongKeyLength) else Ok(lo, hi)
    case other => other
  }

  method PbBytesIn(record: array<byte>, w: Lookup, want: nat) returns (r: Lookup)
    requires record.Length <= MAX_SLICE && (w.Ok? ==> w.lo <= w.hi <= record.Length)
    ensures r == Inside(record[..], w, want)
  {
    match w
    case Ok(lo, hi) =>
      assert record[..][lo..hi] == record[lo..hi];
      r := PbBytes(record[lo..hi], want);
      if r.Ok? {
        r := Ok(lo + r.lo, lo + r.hi);
      }
    case _ =>
      r := w;
  }

  method ExtractPrivKey(record: array<byte>) returns (r: Lookup)
    requires record.Length <= MAX_SLICE
    ensures r == KeyWindow(record[..])
  {
    var local := PbBytes(record[..], 3);
    if local.Err? {
      return Err(NoLocalKey);
    }
    var privAny := PbBytesIn(record, local, 1);
    var privVal := PbBytesIn(record, privAny, 2);
    var key := PbBytesIn(record, privVal, 1);
    if key.Ok? && key.hi - key.lo != 32 {
      return Err(WrongKeyLength);
    }
    return key;
  }

  /** The record with the bytes of a window set to zero. */
  function Wiped(record: buffer, lo: nat, hi: nat): (r: buffer)
    requires lo <= hi <= |record|
    ensures |r| == |record|
  {
    record[..lo] + seq(hi - lo, _ => 0) + record[hi..]
  }

  /** The part of `Open` that reads the key into memory of its own and clears it in the record. */
  method TakeKey(record: array<byte>) returns (key: Option<seq<byte>>)
    requires record.Length <= MAX_SLICE
    modifies record
    ensures match KeyWindow(old(record[..]))
            case Ok(lo, hi) =>
              key == Some(old(record[..])[lo..hi]) && record[..] == Wiped(old(record[..]), lo, hi)
            case _ => key == None && record[..] == old(record[..])
  {
    var w := ExtractPrivKey(record);
    if !w.Ok? {
      return None;
    }
    key := Some(record[w.lo..w.hi]);
    assert record[..][w.lo..w.hi] == record[w.lo..w.hi];
    Wipe(record, w.lo, w.hi);
  }

  method Wipe(record: array<byte>, lo: nat, hi: nat)
    requires record.Length <= MAX_SLICE && lo <= hi <= record.Length
    modifies record
    ensures record[..] == Wiped(old(record[..]), lo, hi)
  {
    for i := lo to hi
      invariant forall k :: 0 <= k < lo ==> record[k] == old(record[k])
      invariant forall k :: lo <= k < i ==> record[k] == 0
      invariant forall k :: hi <= k < record.Length ==> record[k] == old(record[k])
    {
      record[i] := 0;
    }
    assert record[..lo] == old(record[..])[..lo];
    assert record[lo..hi] == seq(hi - lo, _ => 0);
    assert record[hi..] == old(record[..])[hi..];
    assert record[..] == record[..lo] + record[lo..hi] + record[hi..];
  }

  /// What the extraction promises.

  lemma {:induction false} ReadingStable(s: seq<byte>, t: seq<byte>, k: nat)
    requires |s| == |t| && k <= |s| && UvarintFrom(s, k).n > 0
    requires s[..UvarintFrom(s, k).n] == t[..UvarintFrom(s, k).n]
    ensures UvarintFrom(t, k) == UvarintFrom(s, k)
    decreases |s| - k
  {
    var n := UvarintFrom(s, k).n;
    assert s[k] == s[..n][k] == t[..n][k] == t[k];
    if s[k] >= 0x80 {
      ReadingStable(s, t, k + 1);
    }
  }

  lemma {:induction false} UvarintStable(s: seq<byte>, t: seq<byte>, i: nat, end: nat)
    requires |s| == |t| && i <= end <= |s| && s[..end] == t[..end]
    requires Uvarint(s[i..]).n > 0 && i + Uvarint(s[i..]).n <= end
    ensures Uvarint(t[i..]) == Uvarint(s[i..])
  {
    var n := Uvarint(s[i..]).n;
    assert s[i..][..n] == s[..end][i..i + n];
    assert t[i..][..n] == t[..end][i..i + n];
    ReadingStable(s[i..], t[i..], 0);
  }

  /** The search looks at nothing from the start of the window it returns on. */
  lemma {:induction false} FindStable(s: buffer, t: buffer, i: nat, want: nat)
    requires |s| == |t| && Find(s, i, want).Ok?
    requires s[..Find(s, i, want).lo] == t[..Find(s, i, want).lo]
    ensures Find(t, i, want) == Find(s, i, want)
    decreases |s| - i
  {
    var lo := Find(s, i, want).lo;
    TurnStable(s, t, i, want, lo);
    if TurnAt(s, i, want).Continue? {
      FindStable(s, t, TurnAt(s, i, want).next, want);
    }
  }

  /** The turn is decided by what lies before `end`. */
  predicate TurnWithin(t: Turn, end: nat) {
    match t
    case Continue(next) => next <= end
    case Return(r) => r.Ok? && r.lo <= end
  }

  lemma {:induction false} BodyStable(s: buffer, t: buffer, i: nat, num: nat, wire: nat, want: nat, end: nat)
    requires |s| == |t| && i <= end <= |s| && s[..end] == t[..end]
    requires TurnWithin(TurnBody(s, i, num, wire, want), end)
    ensures TurnBody(t, i, num, wire, want) == TurnBody(s, i, num, wire, want)
  {
    if wire == 0 || wire == 2 {
      UvarintStable(s, t, i, end);
    }
  }

  lemma {:induction false} TurnStable(s: buffer, t: buffer, i: nat, want: nat, end: nat)
    requires |s| == |t| && i < |s| && end <= |s| && s[..end] == t[..end]
    requires TurnWithin(TurnAt(s, i, want), end)
    ensures TurnAt(t, i, want) == TurnAt(s, i, want)
  {
    var tag := Uvarint(s[i..]);
    UvarintStable(s, t, i, end);
    BodyStable(s, t, i + tag.n, tag.value / 8, tag.value % 8, want, end);
  }

  lemma {:induction false} InsideStable(s: buffer, t: buffer, w: Lookup, want: nat, end: nat)
    requires |s| == |t| && (w.Ok? ==> w.lo <= w.hi <= |s|) && Inside(s, w, want).Ok?
    requires Inside(s, w, want).lo <= end <= |s| && s[..end] == t[..end]
    ensures Inside(t, w, want) == Inside(s, w, want)
  {
    var a := Inside(s, w, want).lo - w.lo;
    assert s[w.lo..w.hi][..a] == s[..end][w.lo..w.lo + a];
    assert t[w.lo..w.hi][..a] == t[..end][w.lo..w.lo + a];
    FindStable(s[w.lo..w.hi], t[w.lo..w.hi], 0, want);
  }

  lemma {:induction false} LocalStable(s: buffer, t: buffer, end: nat)
    requires |s| == |t| && LocalWindow(s).Ok? && LocalWindow(s).lo <= end <= |s| && s[..end] == t[..end]
    ensures LocalWindow(t) == LocalWindow(s)
  {
    var a := LocalWindow(s).lo;
    assert s[..a] == s[..end][..a] && t[..a] == t[..end][..a];
    FindStable(s, t, 0, 3);
  }

  /** Where the key lies is decided by what comes before it. */
  lemma {:induction false} WindowStable(s: buffer, t: buffer, end: nat)
    requires |s| == |t| && KeyWindow(s).Ok? && KeyWindow(s).lo <= end <= |s| && s[..end] == t[..end]
    ensures KeyWindow(t) == KeyWindow(s)
  {
    var w0 := LocalWindow(s);
    var w1 := Inside(s, w0, 1);
    var w2 := Inside(s, w1, 2);
    LocalStable(s, t, end);
    InsideStable(s, t, w0, 1, end);
    InsideStable(s, t, w1, 2, end);
    InsideStable(s, t, w2, 1, end);
  }

  lemma {:induction false} WipedParts(record: buffer, lo: nat, hi: nat)
    requires lo <= hi <= |record|
    ensures var wiped := Wiped(record, lo, hi);
            && (forall k :: lo <= k < hi ==> wiped[k] == 0)
            && wiped[..lo] == record[..lo] && wiped[hi..] == record[hi..]
  {}

  /** Wiping the key changes its 32 bytes and no others, and a second look finds the same window. */
  lemma {:induction false} WipeKeepsWindow(record: buffer)
    requires KeyWindow(record).Ok?
    ensures var w := KeyWindow(record);
            var wiped := Wiped(record, w.lo, w.hi);
            && KeyWindow(wiped) == w
            && (forall k :: w.lo <= k < w.hi ==> wiped[k] == 0)
            && wiped[..w.lo] == record[..w.lo] && wiped[w.hi..] == record[w.hi..]
  {
    var w := KeyWindow(record);
    WipedParts(record, w.lo, w.hi);
    WindowStable(record, Wiped(record, w.lo, w.hi), w.lo);
  }

  /** A window of the record that holds `val`. */
  predicate Holds(record: buffer, w: Lookup, val: seq<byte>) {
    w.Ok? && w.lo <= w.hi <= |record| && record[w.lo..w.hi] == val
  }

  lemma {:induction false} FindsFirst(buf: buffer, fs: seq<Field>, want: nat, val: seq<byte>)
    requires buf == Encode(fs) && SmallNums(fs) && FieldBytes(fs, want) == Some(val)
    ensures Holds(buf, Find(buf, 0, want), val)
  {
    ReadersAgree(buf, 0, want);
    GetOfEncode(fs, want);
  }

  lemma {:induction false} InsideFirst(record: buffer, w: Lookup, fs: seq<Field>, want: nat, val: seq<byte>)
    requires Holds(record, w, Encode(fs)) && SmallNums(fs) && FieldBytes(fs, want) == Some(val)
    ensures Holds(record, Inside(record, w, want), val)
  {
    FindsFirst(record[w.lo..w.hi], fs, want, val);
    InsideHolds(record, w, want, val);
  }

  lemma {:induction false} InsideHolds(record: buffer, w: Lookup, want: nat, val: seq<byte>)
    requires w.Ok? && w.lo <= w.hi <= |record|
    requires Holds(record[w.lo..w.hi], Find(record[w.lo..w.hi], 0, want), val)
    ensures Holds(record, Inside(record, w, want), val)
  {
    var r := Find(record[w.lo..w.hi], 0, want);
    SliceOfSlice(record, w.lo, w.hi, r.lo, r.hi);
  }

  lemma {:induction false} SliceOfSlice(s: seq<byte>, lo: nat, hi: nat, a: nat, b: nat)
    requires lo <= hi <= |s| && a <= b <= hi - lo
    ensures s[lo..hi][a..b] == s[lo + a..lo + b]
  {
    forall k | 0 <= k < b - a
      ensures s[lo..hi][a..b][k] == s[lo + a..lo + b][k]
    {
      assert s[lo..hi][a..b][k] == s[lo..hi][a + k] == s[lo + a + k];
    }
  }

  lemma {:induction false} KeyLength(record: buffer, w: Lookup, key: seq<byte>)
    requires Holds(record, w, key)
    ensures w.hi - w.lo == |key|
  {
    assert |record[w.lo..w.hi]| == w.hi - w.lo;
  }

  /** From a record written by the writer, whatever else it holds, the key that was written is taken. */
  lemma {:induction false} KeyOfRecord(record: buffer, fs: seq<Field>, local: seq<Field>, privAny: seq<Field>,
                                       priv: seq<Field>, key: seq<byte>)
    requires record == Encode(fs)
    requires SmallNums(fs) && SmallNums(local) && SmallNums(privAny) && SmallNums(priv)
    requires FieldBytes(fs, 3) == Some(Encode(local))
    requires FieldBytes(local, 1) == Some(Encode(privAny))
    requires FieldBytes(privAny, 2) == Some(Encode(priv))
    requires FieldBytes(priv, 1) == Some(key)
    ensures var w := KeyWindow(record);
            if |key| == 32 then Holds(record, w, key) else w == Err(WrongKeyLength)
  {
    FindsFirst(record, fs, 3, Encode(local));
    var w0 := LocalWindow(record);
    assert Holds(record, w0, Encode(local));
    InsideFirst(record, w0, local, 1, Encode(privAny));
    var w1 := Inside(record, w0, 1);
    InsideFirst(record, w1, privAny, 2, Encode(priv));
    var w2 := Inside(record, w1, 2);
    InsideFirst(record, w2, priv, 1, key);
    var w3 := Inside(record, w2, 1);
    KeyLength(record, w3, key);
    assert KeyWindow(record) == if w3.hi - w3.lo != 32 then Err(WrongKeyLength) else w3;
  }
}
