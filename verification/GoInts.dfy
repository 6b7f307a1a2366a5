/// Go's fixed-width integers and bit operations, as arithmetic on `int`.

module GoInts {

  type byte = x: int | 0 <= x < 0x100
  type uint64 = x: int | 0 <= x < 0x1_0000_0000_0000_0000
  type int64 = x: int | -0x8000_0000_0000_0000 <= x < 0x8000_0000_0000_0000

  const MAX_UINT64: uint64 := 0xffff_ffff_ffff_ffff

  /** What a `uint64` holds after an operation whose exact result is `x`. */
  function WrapU64(x: int): uint64 {
    if 0 <= x <= MAX_UINT64 then x else x % 0x1_0000_0000_0000_0000
  }

  /** What an `int` holds after an operation whose exact result is `x`. */
  function WrapI64(x: int): int64 {
    (x + 0x8000_0000_0000_0000) % 0x1_0000_0000_0000_0000 - 0x8000_0000_0000_0000
  }

  function Pow2(n: nat): (p: nat)
    ensures p > 0
  {
    if n == 0 then 1 else 2 * Pow2(n - 1)
  }

  /** `x ^ y` on non-negative integers, bit by bit. */
  function BitXor(x: nat, y: nat): nat
    decreases x + y
  {
    if x == 0 && y == 0 then 0 else 2 * BitXor(x / 2, y / 2) + (x + y) % 2
  }

  /// Small facts of arithmetic that the solver needs one at a time.

  lemma Distribute(a: int, b: int, m: int)
    ensures (a + b) * m == a * m + b * m
  {}

  lemma Double(a: int, b: int)
    ensures a * (2 * b) == 2 * (a * b)
    ensures (2 * a) * b == 2 * (a * b)
  {}

  lemma AtLeast(a: int, m: int)
    requires a >= 1 && m >= 0
    ensures a * m >= m
  {
    Distribute(a - 1, 1, m);
  }

  /** Quotient and remainder are the only pair of their kind. */
  lemma DivModUnique(x: int, m: int, q: int, r: int)
    requires 0 <= r < m && x == q * m + r
    ensures x / m == q && x % m == r
  {
    var q', r' := x / m, x % m;
    assert q' * m + r' == x;
    Distribute(q' - q, q, m);
    if q' > q {
      AtLeast(q' - q, m);
      assert false;
    } else if q' < q {
      AtLeast(q - q', m);
      Distribute(q - q', q', m);
      assert false;
    }
  }

  lemma Associate(a: int, b: int, c: int)
    ensures (a * b) * c == a * (b * c)
  {}

  lemma Monotone(a: int, b: int, m: int)
    requires a <= b && m >= 0
    ensures a * m <= b * m
  {}

  lemma DivDiv(x: int, m: int, n: int)
    requires m > 0 && n > 0
    ensures n * m > 0 && x / (n * m) == x / m / n
  {
    AtLeast(n, m);
    var q, r := x / m, x % m;
    var q', r' := q / n, q % n;
    assert x == q * m + r && q == q' * n + r';
    Distribute(q' * n, r', m);
    Associate(q', n, m);
    Monotone(0, r', m);
    Monotone(r', n - 1, m);
    Distribute(n, -1, m);
    DivModUnique(x, n * m, q', r' * m + r);
  }

  lemma {:induction false} Pow2Add(m: nat, n: nat)
    ensures Pow2(m + n) == Pow2(m) * Pow2(n)
  {
    if n > 0 {
      Pow2Add(m, n - 1);
      Double(Pow2(m), Pow2(n - 1));
      assert Pow2(m + n) == 2 * Pow2(m + (n - 1));
    }
  }

  lemma {:induction false} Pow2Values()
    ensures Pow2(5) == 0x20 && Pow2(8) == 0x100
    ensures Pow2(25) == 0x200_0000 && Pow2(30) == 0x4000_0000
  {
    assert Pow2(5) == 0x20 && Pow2(8) == 0x100;
    Pow2Add(5, 5);
    Pow2Add(10, 10);
    Pow2Add(20, 5);
    Pow2Add(25, 5);
  }

  lemma {:induction false} TwoTo64()
    ensures Pow2(64) == 0x1_0000_0000_0000_0000
  {
    Pow2Values();
    Pow2Add(30, 30);
    Pow2Add(60, 2);
    Pow2Add(62, 2);
    assert Pow2(2) == 4;
  }

  /// Numbers and their bits, most significant bit first.

  function FromBits(bits: seq<bool>): nat {
    if bits == [] then 0 else Push(FromBits(bits[..|bits| - 1]), bits[|bits| - 1])
  }

  function Push(a: nat, p: bool): nat {
    if p then 2 * a + 1 else 2 * a
  }

  /** The low `n` bits of `x`. */
  function ToBits(x: nat, n: nat): (bits: seq<bool>)
    ensures |bits| == n
  {
    if n == 0 then [] else ToBits(x / 2, n - 1) + [x % 2 == 1]
  }

  lemma {:induction false} FromBitsPush(bits: seq<bool>, p: bool)
    ensures FromBits(bits + [p]) == Push(FromBits(bits), p)
  {
    assert (bits + [p])[..|bits|] == bits;
  }

  lemma {:induction false} FromToBits(x: nat, n: nat)
    requires x < Pow2(n)
    ensures FromBits(ToBits(x, n)) == x
  {
    if n > 0 {
      FromToBits(x / 2, n - 1);
      FromBitsPush(ToBits(x / 2, n - 1), x % 2 == 1);
      PushHalves(x);
    }
  }

  lemma PushHalves(x: nat)
    ensures Push(x / 2, x % 2 == 1) == x
  {}

  lemma {:induction false} ToFromBits(bits: seq<bool>)
    ensures FromBits(bits) < Pow2(|bits|) && ToBits(FromBits(bits), |bits|) == bits
  {
    if bits != [] {
      ToFromBits(bits[..|bits| - 1]);
    }
  }

  lemma PushSum(a: nat, m: nat, b: nat, p: bool)
    ensures a * m + b >= 0 && Push(a * m + b, p) == a * (2 * m) + Push(b, p)
  {
    Double(a, m);
  }

  lemma {:induction false} ConcatPush(a: seq<bool>, b: seq<bool>, p: bool)
    requires FromBits(a + b) == FromBits(a) * Pow2(|b|) + FromBits(b)
    ensures FromBits(a + (b + [p])) == FromBits(a) * Pow2(|b| + 1) + FromBits(b + [p])
  {
    FromBitsPush(a + b, p);
    FromBitsPush(b, p);
    PushSum(FromBits(a), Pow2(|b|), FromBits(b), p);
    assert a + (b + [p]) == (a + b) + [p];
  }

  lemma {:induction false} FromBitsConcat(a: seq<bool>, b: seq<bool>)
    ensures FromBits(a + b) == FromBits(a) * Pow2(|b|) + FromBits(b)
  {
    if b == [] {
      assert a + b == a;
    } else {
      FromBitsConcat(a, b[..|b| - 1]);
      ConcatPush(a, b[..|b| - 1], b[|b| - 1]);
      assert b == b[..|b| - 1] + [b[|b| - 1]];
    }
  }

  /** Shifting right by the length of the tail drops the tail; masking keeps it. */
  lemma {:induction false} FromBitsSplit(a: seq<bool>, b: seq<bool>)
    ensures FromBits(a + b) / Pow2(|b|) == FromBits(a)
    ensures FromBits(a + b) % Pow2(|b|) == FromBits(b)
  {
    FromBitsConcat(a, b);
    ToFromBits(b);
    DivModUnique(FromBits(a + b), Pow2(|b|), FromBits(a), FromBits(b));
  }

  function XorSeq(a: seq<bool>, b: seq<bool>): (c: seq<bool>)
    requires |a| == |b|
    ensures |c| == |a| && forall i :: 0 <= i < |c| ==> (c[i] <==> a[i] != b[i])
  {
    seq(|a|, i requires 0 <= i < |a| => a[i] != b[i])
  }

  lemma PushParts(a: nat, p: bool)
    ensures Push(a, p) / 2 == a && Push(a, p) % 2 == if p then 1 else 0
  {}

  lemma ParityOfSum(a: nat, b: nat, p: bool, q: bool)
    ensures (Push(a, p) + Push(b, q)) % 2 == if p != q then 1 else 0
  {}

  lemma {:induction false} XorStep(x: nat, y: nat, u: nat, v: nat, r: nat)
    requires x / 2 == u && y / 2 == v && (x + y) % 2 == r
    ensures BitXor(x, y) == 2 * BitXor(u, v) + r
  {}

  lemma {:induction false} XorPush(a: nat, b: nat, p: bool, q: bool)
    ensures BitXor(Push(a, p), Push(b, q)) == Push(BitXor(a, b), p != q)
  {
    PushParts(a, p);
    PushParts(b, q);
    ParityOfSum(a, b, p, q);
    XorStep(Push(a, p), Push(b, q), a, b, if p != q then 1 else 0);
  }

  /** `^` on numbers works on each bit separately. */
  lemma {:induction false} XorBits(a: seq<bool>, b: seq<bool>)
    requires |a| == |b|
    ensures BitXor(FromBits(a), FromBits(b)) == FromBits(XorSeq(a, b))
  {
    if a != [] {
      var n := |a| - 1;
      XorBits(a[..n], b[..n]);
      assert XorSeq(a, b)[..n] == XorSeq(a[..n], b[..n]);
      XorPush(FromBits(a[..n]), FromBits(b[..n]), a[n], b[n]);
    }
  }

  lemma {:induction false} LastBit(t: seq<bool>)
    requires t != []
    ensures FromBits(t) % 2 == 1 <==> t[|t| - 1]
  {
    PushParts(FromBits(t[..|t| - 1]), t[|t| - 1]);
  }

  /** Bit `i` of a number, counted from the least significant one. */
  lemma {:induction false} BitOf(t: seq<bool>, i: nat)
    requires i < |t|
    ensures FromBits(t) / Pow2(i) % 2 == 1 <==> t[|t| - 1 - i]
  {
    var high := t[..|t| - i];
    FromBitsSplit(high, t[|t| - i..]);
    LastBit(high);
    assert t == high + t[|t| - i..];
  }

  function Zeros(n: nat): (s: seq<bool>)
    ensures |s| == n && FromBits(s) == 0 && forall i :: 0 <= i < n ==> !s[i]
  {
    if n == 0 then [] else Zeros(n - 1) + [false]
  }

  lemma {:induction false} XorDisjoint(a: seq<bool>, b: seq<bool>, za: seq<bool>, zb: seq<bool>)
    requires |za| == |a| && |zb| == |b|
    requires (forall i :: 0 <= i < |a| ==> !za[i]) && (forall i :: 0 <= i < |b| ==> !zb[i])
    ensures XorSeq(a + zb, za + b) == a + b
  {}

  lemma {:induction false} XorNumbers(x: nat, y: nat, s: seq<bool>, t: seq<bool>, u: seq<bool>)
    requires x == FromBits(s) && y == FromBits(t) && |s| == |t| && u == XorSeq(s, t)
    ensures BitXor(x, y) == FromBits(u)
  {
    XorBits(s, t);
  }

  /** Exclusive or of a value with the freed low bits of a shifted number appends its bits. */
  lemma {:induction false} XorAppends(a: seq<bool>, b: seq<bool>)
    ensures BitXor(FromBits(a) * Pow2(|b|), FromBits(b)) == FromBits(a + b)
  {
    var za, zb := Zeros(|a|), Zeros(|b|);
    FromBitsConcat(a, zb);
    FromBitsConcat(za, b);
    XorDisjoint(a, b, za, zb);
    XorNumbers(FromBits(a) * Pow2(|b|), FromBits(b), a + zb, za + b, a + b);
  }
}
