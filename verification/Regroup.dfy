/// Regrouping of a string of fixed-width digits: the `convertBits` loop.
///
/// The source shifts every digit into an accumulator it never masks. The loop below keeps
/// that accumulator in 64 wrapping bits and is proved to compute the digits of one unbounded
/// number.

module Regroup {
  import opened GoInts

  datatype Regrouping = Symbols(values: seq<byte>) | InvalidRange | InvalidPadding

  /** The number that `digits` write in base `base`, most significant digit first. */
  function Value(digits: seq<byte>, base: nat): nat {
    if digits == [] then 0
    else Value(digits[..|digits| - 1], base) * base + digits[|digits| - 1]
  }

  /** The low `n` digits of `v`. */
  function Digits(v: nat, base: nat, n: nat): (d: seq<byte>)
    requires 0 < base <= 0x100
    ensures |d| == n
    decreases n
  {
    if n == 0 then [] else Digits(Quotient(v, base), base, n - 1) + [Remainder(v, base)]
  }

  function Quotient(v: nat, base: nat): nat
    requires base > 0
  {
    v / base
  }

  function Remainder(v: nat, base: nat): (r: byte)
    requires 0 < base <= 0x100
    ensures r < base
  {
    v % base
  }

  predicate InRange(data: seq<byte>, from: nat) {
    forall k :: 0 <= k < |data| ==> data[k] < Pow2(from)
  }

  /** How many bits of zero padding complete the last group of `to` bits. */
  function PadBits(total: nat, to: nat): (p: nat)
    requires to > 0
    ensures p < to
  {
    if total % to == 0 then 0 else to - total % to
  }

  predicate Width(n: nat) {
    1 <= n <= 8
  }

  function Base(width: nat): (b: nat)
    requires Width(width)
    ensures 2 <= b <= 0x100
  {
    WidthBound(width);
    Pow2(width)
  }

  /**
   * Regrouping on the unbounded number: padding multiplies it up to a whole number of
   * groups; without padding less than one source digit may be left over and it must be zero.
   */
  function Regrouped(data: seq<byte>, from: nat, to: nat, pad: bool): Regrouping
    requires Width(from) && Width(to)
  {
    var total := |data| * from;
    var v := Value(data, Pow2(from));
    if !InRange(data, from) then InvalidRange
    else if pad then Symbols(Padded(v, total, to))
    else
      var rest := total % to;
      if rest >= from || v % Pow2(rest) != 0 then InvalidPadding
      else Symbols(Digits(Quotient(v, Pow2(rest)), Base(to), Quotient(total, to)))
  }

  function Padded(v: nat, total: nat, to: nat): seq<byte>
    requires Width(to)
  {
    var p := PadBits(total, to);
    Digits(v * Pow2(p), Base(to), Quotient(total + p, to))
  }

  lemma {:induction false} WidthBound(n: nat)
    requires Width(n)
    ensures 2 <= Pow2(n) <= 0x100
  {
    assert Pow2(1) == 2 && Pow2(2) == 4 && Pow2(3) == 8 && Pow2(4) == 16;
    assert Pow2(5) == 32 && Pow2(6) == 64 && Pow2(7) == 128 && Pow2(8) == 256;
  }

  /// The wrapping accumulator.

  /** Where the wrapped and the unbounded accumulator agree: on every bit below 64. */
  lemma {:induction false} WrapLowBits(x: int, b: nat, t: nat)
    requires b + t <= 64
    ensures WrapI64(x) / Pow2(b) % Pow2(t) == x / Pow2(b) % Pow2(t)
  {
    var k := (x + 0x8000_0000_0000_0000) / 0x1_0000_0000_0000_0000;
    var w := WrapI64(x);
    var c: nat := 64 - b - t;
    Pow2Add(b + t, c);
    Pow2Add(b, t);
    TwoTo64();
    var high := k * Pow2(c);
    assert x == w + high * (Pow2(b) * Pow2(t)) by {
      Associate(k, Pow2(c), Pow2(b) * Pow2(t));
      Commute(Pow2(c), Pow2(b) * Pow2(t));
    }
    ShiftMask(w, high, Pow2(b), Pow2(t));
  }

  lemma Commute(a: int, b: int)
    ensures a * b == b * a
  {}

  lemma ShiftMask(w: int, h: int, m: nat, n: nat)
    requires m > 0 && n > 0
    ensures (w + h * (m * n)) / m % n == w / m % n
  {
    var q, r := w / m, w % m;
    Associate(h, n, m);
    Commute(m, n);
    Distribute(q, h * n, m);
    DivModUnique(w + h * (m * n), m, q + h * n, r);
    var q', r' := q / n, q % n;
    Distribute(q', h, n);
    DivModUnique(q + h * n, n, q' + h, r');
  }

  lemma WrapShift(x: int, d: int, m: int)
    ensures WrapI64(WrapI64(x) * m + d) == WrapI64(x * m + d)
  {
    var k := (x + 0x8000_0000_0000_0000) / 0x1_0000_0000_0000_0000;
    var w := WrapI64(x);
    assert x == w + k * 0x1_0000_0000_0000_0000;
    Distribute(w, k * 0x1_0000_0000_0000_0000, m);
    WrapPeriod(w * m + d, k * m);
    assert (k * 0x1_0000_0000_0000_0000) * m == (k * m) * 0x1_0000_0000_0000_0000;
  }

  lemma WrapPeriod(x: int, k: int)
    ensures WrapI64(x + k * 0x1_0000_0000_0000_0000) == WrapI64(x)
  {
    var m := 0x1_0000_0000_0000_0000;
    var y := x + 0x8000_0000_0000_0000;
    var q, r := y / m, y % m;
    Distribute(q, k, m);
    DivModUnique(y + k * m, m, q + k, r);
  }

  /// One turn of the loop, on the unbounded number.

  lemma {:induction false} ValueNext(data: seq<byte>, i: nat, base: nat)
    requires i < |data|
    ensures Value(data[..i + 1], base) == Value(data[..i], base) * base + data[i]
  {
    assert data[..i + 1][..i] == data[..i];
  }

  lemma {:induction false} PendingGrows(x: nat, d: nat, from: nat, bits: nat)
    requires d < Pow2(from)
    ensures (x * Pow2(from) + d) / Pow2(bits + from) == x / Pow2(bits)
  {
    Pow2Add(bits, from);
    DivModUnique(x * Pow2(from) + d, Pow2(from), x, d);
    DivDiv(x * Pow2(from) + d, Pow2(from), Pow2(bits));
  }

  lemma {:induction false} GroupNext(x: nat, to: nat, bits: nat, n: nat)
    requires Width(to)
    ensures Digits(Quotient(x, Pow2(bits)), Base(to), n + 1) ==
            Digits(Quotient(x, Pow2(bits + to)), Base(to), n) + [Remainder(Quotient(x, Pow2(bits)), Base(to))]
  {
    Pow2Add(to, bits);
    DivDiv(x, Pow2(bits), Pow2(to));
  }

  lemma ScaleDivMod(x: nat, n: nat, m: nat)
    requires n > 0 && m > 0
    ensures n * m > 0 && (x * m) / (n * m) == x / n && (x * m) % (n * m) == (x % n) * m
  {
    AtLeast(n, m);
    var q, r := x / n, x % n;
    Distribute(q * n, r, m);
    Associate(q, n, m);
    Monotone(0, r, m);
    Monotone(r, n - 1, m);
    Distribute(n, -1, m);
    DivModUnique(x * m, n * m, q, r * m);
  }

  /// The source's expressions on the accumulator.

  function ShiftLeft(acc: int64, n: nat): int64 {
    WrapI64(acc * Pow2(n))
  }

  function Group(acc: int64, bits: nat, to: nat): (g: byte)
    requires Width(to)
    ensures g < Base(to)
  {
    acc / Pow2(bits) % Base(to)
  }

  /** Or-ing a digit into the freed low bits cannot overflow: it is an addition. */
  function Accumulate(acc: int64, from: nat, d: byte): int64
    requires Width(from) && d < Pow2(from)
  {
    ShiftRoom(acc, from, d);
    ShiftLeft(acc, from) + d
  }

  lemma {:induction false} ShiftRoom(acc: int64, from: nat, d: byte)
    requires Width(from) && d < Pow2(from)
    ensures ShiftLeft(acc, from) + d < 0x8000_0000_0000_0000
    ensures ShiftLeft(acc, from) + d == WrapI64(acc * Pow2(from) + d)
  {
    var a, h := ShiftedMultiple(acc, from);
    MultipleBelow(a, h, Pow2(from), d);
    WrapSum(acc * Pow2(from), d);
  }

  lemma WrapSum(y: int, d: nat)
    requires WrapI64(y) + d < 0x8000_0000_0000_0000
    ensures WrapI64(y) + d == WrapI64(y + d)
  {
    WrapShift(y, d, 1);
  }

  /** What a wrapped shift holds is a multiple of the power shifted by, as the word's size is. */
  lemma {:induction false} ShiftedMultiple(acc: int64, from: nat) returns (a: int, h: int)
    requires Width(from)
    ensures ShiftLeft(acc, from) == a * Pow2(from) && h * Pow2(from) == 0x8000_0000_0000_0000
  {
    var m := Pow2(from);
    var k := (acc * m + 0x8000_0000_0000_0000) / 0x1_0000_0000_0000_0000;
    h := Pow2(63 - from);
    Pow2Add(63 - from, from);
    TwoTo64();
    a := acc - (k * 2) * h;
    Associate(k * 2, h, m);
    Distribute(acc, -(k * 2) * h, m);
  }

  lemma MultipleBelow(a: int, h: int, m: int, d: int)
    requires 0 <= d < m && a * m < h * m
    ensures a * m + d < h * m
  {
    if a >= h {
      Monotone(h, a, m);
      assert false;
    }
    Monotone(a, h - 1, m);
    Distribute(h, -1, m);
  }

  /// The loop.

  /** The digits taken so far and the accumulator both come from the number read so far. */
  ghost predicate Reads(x: nat, acc: int64, bits: nat, ret: seq<byte>, to: nat)
    requires Width(to)
  {
    acc == WrapI64(x) && ret == Digits(Quotient(x, Pow2(bits)), Base(to), |ret|)
  }

  method TakeGroups(ghost x: nat, acc: int64, bits0: nat, to: nat, ret0: seq<byte>) returns (bits: nat, ret: seq<byte>)
    requires Width(to) && bits0 < to + 8 && Reads(x, acc, bits0, ret0, to)
    ensures bits < to && |ret| * to + bits == |ret0| * to + bits0
    ensures Reads(x, acc, bits, ret, to)
  {
    bits, ret := bits0, ret0;
    while bits >= to
      invariant bits < to + 8 && |ret| * to + bits == |ret0| * to + bits0
      invariant Reads(x, acc, bits, ret, to)
    {
      bits := bits - to;
      WrapLowBits(x, bits, to);
      GroupNext(x, to, bits, |ret|);
      Distribute(|ret|, 1, to);
      ret := ret + [Group(acc, bits, to)];
    }
  }

  /** Reading one more digit leaves the digits already taken as they were. */
  lemma {:induction false} DigitRead(data: seq<byte>, i: nat, from: nat, to: nat, acc: int64, bits: nat, ret: seq<byte>)
    requires i < |data| && Width(from) && Width(to) && data[i] < Pow2(from)
    requires Reads(Value(data[..i], Pow2(from)), acc, bits, ret, to)
    ensures Reads(Value(data[..i + 1], Pow2(from)), Accumulate(acc, from, data[i]), bits + from, ret, to)
  {
    var x := Value(data[..i], Pow2(from));
    ValueNext(data, i, Pow2(from));
    PendingGrows(x, data[i], from, bits);
    ShiftRoom(acc, from, data[i]);
    WrapShift(x, data[i], Pow2(from));
  }

  lemma {:induction false} RangeTest(d: byte, from: nat)
    ensures d / Pow2(from) != 0 <==> d >= Pow2(from)
  {
    if d < Pow2(from) {
      DivModUnique(d, Pow2(from), 0, d);
    } else {
      var m := Pow2(from);
      assert d == (d / m) * m + d % m;
    }
  }

  lemma {:induction false} PaddedEnd(x: nat, total: nat, to: nat, acc: int64, bits: nat, ret: seq<byte>)
    requires Width(to) && bits < to && |ret| * to + bits == total && Reads(x, acc, bits, ret, to)
    ensures Padded(x, total, to) == if bits > 0 then ret + [Group(ShiftLeft(acc, to - bits), 0, to)] else ret
  {
    PadCount(total, to, |ret|, bits);
    if bits > 0 {
      LastGroup(x, acc, to - bits, to);
      PaddedDigits(x, to, bits, ret);
    } else {
      assert Pow2(0) == 1;
    }
  }

  lemma PadCount(total: nat, to: nat, n: nat, bits: nat)
    requires bits < to && n * to + bits == total
    ensures PadBits(total, to) == if bits > 0 then to - bits else 0
    ensures Quotient(total + PadBits(total, to), to) == if bits > 0 then n + 1 else n
  {
    DivModUnique(total, to, n, bits);
    if bits > 0 {
      Distribute(n, 1, to);
      DivModUnique(total + (to - bits), to, n + 1, 0);
    }
  }

  lemma {:induction false} PaddedDigits(x: nat, to: nat, bits: nat, ret: seq<byte>)
    requires Width(to) && 0 < bits < to
    requires ret == Digits(Quotient(x, Pow2(bits)), Base(to), |ret|)
    ensures Digits(x * Pow2(to - bits), Base(to), |ret| + 1) == ret + [(x * Pow2(to - bits)) % Pow2(to)]
  {
    Pow2Add(bits, to - bits);
    ScaleDivMod(x, Pow2(bits), Pow2(to - bits));
  }

  lemma {:induction false} LastGroup(x: nat, acc: int64, p: nat, to: nat)
    requires Width(to) && acc == WrapI64(x) && p <= to
    ensures Group(ShiftLeft(acc, p), 0, to) == (x * Pow2(p)) % Pow2(to)
  {
    WrapShift(x, 0, Pow2(p));
    WrapLowBits(x * Pow2(p), 0, to);
  }

  lemma {:induction false} UnpaddedEnd(x: nat, total: nat, to: nat, acc: int64, bits: nat, ret: seq<byte>)
    requires Width(to) && bits < to && |ret| * to + bits == total && Reads(x, acc, bits, ret, to)
    ensures total % to == bits && Quotient(total, to) == |ret|
    ensures Group(ShiftLeft(acc, to - bits), 0, to) != 0 <==> x % Pow2(bits) != 0
  {
    DivModUnique(total, to, |ret|, bits);
    LastGroup(x, acc, to - bits, to);
    Pow2Add(bits, to - bits);
    ScaleDivMod(x, Pow2(bits), Pow2(to - bits));
    ZeroProduct(x % Pow2(bits), Pow2(to - bits));
  }

  lemma ZeroProduct(a: nat, m: nat)
    requires m > 0
    ensures a * m == 0 <==> a == 0
  {
    if a > 0 {
      AtLeast(a, m);
    }
  }

  lemma {:induction false} InRangeNext(data: seq<byte>, i: nat, from: nat)
    requires i < |data| && InRange(data[..i], from) && data[i] < Pow2(from)
    ensures InRange(data[..i + 1], from)
  {
    assert forall k :: 0 <= k < i ==> data[..i + 1][k] == data[..i][k];
  }

  method ConvertBits(data: seq<byte>, from: nat, to: nat, pad: bool) returns (r: Regrouping)
    requires Width(from) && Width(to)
    ensures r == Regrouped(data, from, to, pad)
  {
    var acc: int64, bits: nat, ret := 0, 0, [];
    assert Quotient(0, Pow2(0)) == 0;
    for i := 0 to |data|
      invariant bits < to && |ret| * to + bits == i * from
      invariant InRange(data[..i], from)
      invariant Reads(Value(data[..i], Pow2(from)), acc, bits, ret, to)
    {
      RangeTest(data[i], from);
      if data[i] / Pow2(from) != 0 {
        return InvalidRange;
      }
      DigitRead(data, i, from, to, acc, bits, ret);
      InRangeNext(data, i, from);
      Distribute(i, 1, from);
      acc := Accumulate(acc, from, data[i]);
      bits, ret := TakeGroups(Value(data[..i + 1], Pow2(from)), acc, bits + from, to, ret);
    }
    assert data[..|data|] == data;
    ghost var x := Value(data, Pow2(from));
    if pad {
      PaddedEnd(x, |data| * from, to, acc, bits, ret);
      if bits > 0 {
        ret := ret + [Group(ShiftLeft(acc, to - bits), 0, to)];
      }
      return Symbols(ret);
    }
    UnpaddedEnd(x, |data| * from, to, acc, bits, ret);
    if bits >= from || Group(ShiftLeft(acc, to - bits), 0, to) != 0 {
      return InvalidPadding;
    }
    return Symbols(ret);
  }

  /// What regrouping means.

  lemma {:induction false} ValueBound(data: seq<byte>, from: nat)
    requires InRange(data, from)
    ensures Value(data, Pow2(from)) < Pow2(|data| * from)
  {
    if data != [] {
      var n := |data| - 1;
      var m := Pow2(from);
      ValueBound(data[..n], from);
      Distribute(n, 1, from);
      Pow2Add(n * from, from);
      MultipleBelowTop(Value(data[..n], m), Pow2(n * from), m, data[n]);
    }
  }

  lemma MultipleBelowTop(a: nat, h: nat, m: nat, d: nat)
    requires a < h && d < m
    ensures a * m + d < h * m
  {
    Monotone(a, h - 1, m);
    Distribute(h, -1, m);
  }

  lemma {:induction false} ValueOfDigits(v: nat, to: nat, n: nat)
    requires Width(to) && v < Pow2(n * to)
    ensures Value(Digits(v, Base(to), n), Pow2(to)) == v
    ensures InRange(Digits(v, Base(to), n), to)
    decreases n
  {
    if n > 0 {
      var q, b := Quotient(v, Base(to)), Base(to);
      Distribute(n - 1, 1, to);
      Pow2Add((n - 1) * to, to);
      QuotientBelow(v, b, Pow2((n - 1) * to));
      ValueOfDigits(q, to, n - 1);
      assert Digits(v, b, n)[..n - 1] == Digits(q, b, n - 1);
    }
  }

  lemma QuotientBelow(v: nat, m: nat, h: nat)
    requires m > 0 && v < h * m
    ensures v / m < h && v == (v / m) * m + v % m
  {
    if v / m >= h {
      Monotone(h, v / m, m);
      assert false;
    }
  }

  lemma {:induction false} DigitsOfValue(d: seq<byte>, to: nat)
    requires Width(to) && InRange(d, to)
    ensures Digits(Value(d, Pow2(to)), Base(to), |d|) == d
  {
    if d != [] {
      var n := |d| - 1;
      DigitsOfValue(d[..n], to);
      DivModUnique(Value(d, Pow2(to)), Pow2(to), Value(d[..n], Pow2(to)), d[n]);
      assert d == d[..n] + [d[n]];
    }
  }

  /**
   * Padded regrouping is one multiplication: `to`-bit symbols, as many as the bits need, that
   * write the input's number shifted by the padding.
   */
  lemma {:induction false} RegroupedValue(data: seq<byte>, from: nat, to: nat)
    requires Width(from) && Width(to) && InRange(data, from)
    ensures Regrouped(data, from, to, true).Symbols?
    ensures var s, p := Regrouped(data, from, to, true).values, PadBits(|data| * from, to);
            && |s| * to == |data| * from + p
            && InRange(s, to)
            && Value(s, Pow2(to)) == Value(data, Pow2(from)) * Pow2(p)
  {
    ValueBound(data, from);
    PaddedValue(Value(data, Pow2(from)), |data| * from, to);
  }

  lemma {:induction false} PaddedValue(v: nat, total: nat, to: nat)
    requires Width(to) && v < Pow2(total)
    ensures |Padded(v, total, to)| * to == total + PadBits(total, to)
    ensures InRange(Padded(v, total, to), to)
    ensures Value(Padded(v, total, to), Pow2(to)) == v * Pow2(PadBits(total, to))
  {
    var p := PadBits(total, to);
    WholeGroups(total, to);
    Pow2Add(total, p);
    StrictlyMonotone(v, Pow2(total), Pow2(p));
    ValueOfDigits(v * Pow2(p), to, Quotient(total + p, to));
  }

  lemma StrictlyMonotone(a: nat, b: nat, m: nat)
    requires a < b && m > 0
    ensures a * m < b * m
  {
    Monotone(a, b - 1, m);
    Distribute(b, -1, m);
  }

  lemma WholeGroups(total: nat, to: nat)
    requires to > 0
    ensures Quotient(total + PadBits(total, to), to) * to == total + PadBits(total, to)
  {
    var q, r := total / to, total % to;
    assert total == q * to + r;
    PadCount(total, to, q, r);
    Distribute(q, 1, to);
  }

  /** Regrouping to narrower symbols with padding, and back without, returns the input. */
  lemma {:induction false} RoundTrip(data: seq<byte>, from: nat, to: nat)
    requires Width(from) && Width(to) && to <= from && InRange(data, from)
    ensures Regrouped(data, from, to, true).Symbols?
    ensures Regrouped(Regrouped(data, from, to, true).values, to, from, false) == Symbols(data)
  {
    RegroupedValue(data, from, to);
    var s, p := Regrouped(data, from, to, true).values, PadBits(|data| * from, to);
    var v := Value(data, Pow2(from));
    DivModUnique(|s| * to, from, |data|, p);
    DivModUnique(v * Pow2(p), Pow2(p), v, 0);
    DigitsOfValue(data, from);
  }

  /** `s` writes the number of `data`, but for fewer than a group's and a digit's bits of zeros at the end. */
  predicate SameNumber(data: seq<byte>, from: nat, s: seq<byte>, to: nat) {
    && |s| * to <= |data| * from
    && |data| * from - |s| * to < to
    && |data| * from - |s| * to < from
    && Value(data, Pow2(from)) == Value(s, Pow2(to)) * Pow2(|data| * from - |s| * to)
  }

  lemma {:induction false} UnpaddedShape(data: seq<byte>, from: nat, to: nat)
    requires Width(from) && Width(to) && Regrouped(data, from, to, false).Symbols?
    ensures var v, rest := Value(data, Pow2(from)), |data| * from % to;
            && InRange(data, from) && rest < from && v % Pow2(rest) == 0
            && Regrouped(data, from, to, false).values == Digits(Quotient(v, Pow2(rest)), Base(to), Quotient(|data| * from, to))
  {}

  lemma {:induction false} UnpaddedGood(data: seq<byte>, from: nat, to: nat)
    requires Width(from) && Width(to) && Regrouped(data, from, to, false).Symbols?
    ensures InRange(data, from)
    ensures var s := Regrouped(data, from, to, false).values; InRange(s, to) && SameNumber(data, from, s, to)
  {
    var total, s := |data| * from, Regrouped(data, from, to, false).values;
    var q, rest := Quotient(total, to), total % to;
    UnpaddedShape(data, from, to);
    ValueBound(data, from);
    QuotientParts(total, to);
    WholeDigits(Value(data, Pow2(from)), total, q, rest, to);
    assert total - |s| * to == rest;
  }

  lemma QuotientParts(total: nat, to: nat)
    requires to > 0
    ensures total == Quotient(total, to) * to + total % to
  {}

  lemma {:induction false} WholeDigits(v: nat, total: nat, q: nat, rest: nat, to: nat)
    requires Width(to) && v < Pow2(total) && total == q * to + rest && v % Pow2(rest) == 0
    ensures var s := Digits(Quotient(v, Pow2(rest)), Base(to), q);
            InRange(s, to) && v == Value(s, Pow2(to)) * Pow2(rest)
  {
    Pow2Add(q * to, rest);
    QuotientBelow(v, Pow2(rest), Pow2(q * to));
    ValueOfDigits(Quotient(v, Pow2(rest)), to, q);
  }

  lemma {:induction false} UnpaddedOnly(data: seq<byte>, from: nat, to: nat, s: seq<byte>)
    requires Width(from) && Width(to) && InRange(data, from) && InRange(s, to) && SameNumber(data, from, s, to)
    ensures Regrouped(data, from, to, false) == Symbols(s)
  {
    var r: nat := |data| * from - |s| * to;
    DivModUnique(|data| * from, to, |s|, r);
    DivModUnique(Value(data, Pow2(from)), Pow2(r), Value(s, Pow2(to)), 0);
    DigitsOfValue(s, to);
  }

  /** Without padding: exactly when symbols writing the same number are found, and which. */
  lemma {:induction false} UnpaddedIff(data: seq<byte>, from: nat, to: nat, s: seq<byte>)
    requires Width(from) && Width(to)
    ensures Regrouped(data, from, to, false) == Symbols(s) <==>
            InRange(data, from) && InRange(s, to) && SameNumber(data, from, s, to)
    ensures forall pad :: Regrouped(data, from, to, pad) == InvalidRange <==> !InRange(data, from)
  {
    if Regrouped(data, from, to, false) == Symbols(s) {
      UnpaddedGood(data, from, to);
    }
    if InRange(data, from) && InRange(s, to) && SameNumber(data, from, s, to) {
      UnpaddedOnly(data, from, to, s);
    }
  }
}
