/// What the bech32 checksum detects: linearity of a run of at most six symbols, and
/// injectivity of every step after it.

module Checksum {
  import opened GoInts
  import opened CheckRegister

  /** The bits of a run of symbols. */
  function Stream(w: seq<symbol>): (s: seq<bool>)
    ensures |s| == 5 * |w|
  {
    if w == [] then [] else Stream(w[..|w| - 1]) + ToBits(w[|w| - 1], 5)
  }

  function ZeroSymbols(n: nat): (w: seq<symbol>)
    ensures |w| == n
  {
    if n == 0 then [] else ZeroSymbols(n - 1) + [0]
  }

  /** `w` right-aligned in a register. */
  function Aligned(w: seq<symbol>): register
    requires |w| <= 6
  {
    Zeros(30 - 5 * |w|) + Stream(w)
  }

  lemma {:induction false} ZeroBits(n: nat)
    ensures ToBits(0, n) == Zeros(n)
  {
    if n > 0 {
      ZeroBits(n - 1);
    }
  }

  lemma {:induction false} StepXor(a: register, b: register, e: register, v: symbol)
    requires a == XorSeq(b, e) && a[..5] == b[..5]
    ensures Step(a, v) == XorSeq(Step(b, 0), e[5..] + ToBits(v, 5))
  {
    ZeroBits(5);
    var f := Feedback(a[..5], 5);
    forall k | 0 <= k < 30
      ensures Step(a, v)[k] == (Step(b, 0)[k] != (e[5..] + ToBits(v, 5))[k])
    {
      assert Step(a, v)[k] == (Shift(a, v)[k] != f[k]);
      assert Step(b, 0)[k] == (Shift(b, 0)[k] != f[k]);
    }
  }

  lemma {:induction false} AlignedTop(w: seq<symbol>)
    requires |w| < 6
    ensures forall k :: 0 <= k < 5 ==> !Aligned(w)[k]
  {}

  lemma {:induction false} AlignedNext(w: seq<symbol>)
    requires 0 < |w| <= 6
    ensures Aligned(w[..|w| - 1])[5..] + ToBits(w[|w| - 1], 5) == Aligned(w)
  {
    var n := |w| - 1;
    var s, t := Stream(w[..n]), ToBits(w[n], 5);
    AppendRight(Zeros(30 - 5 * n), Zeros(30 - 5 * |w|), s, t);
    assert Stream(w) == s + t;
  }

  lemma {:induction false} AppendRight(z: seq<bool>, y: seq<bool>, s: seq<bool>, t: seq<bool>)
    requires |z| == |y| + 5
    requires (forall k :: 0 <= k < |z| ==> !z[k]) && forall k :: 0 <= k < |y| ==> !y[k]
    ensures (z + s)[5..] + t == y + (s + t)
  {}

  lemma {:induction false} SameTop(a: register, b: register, e: register)
    requires a == XorSeq(b, e) && forall k :: 0 <= k < 5 ==> !e[k]
    ensures a[..5] == b[..5]
  {
    forall k | 0 <= k < 5
      ensures a[k] == b[k]
    {
      assert !e[k];
    }
  }

  /**
   * Up to six symbols reach the register unmixed: what they add to a run of zeros is
   * themselves, because no bit they wrote has been fed back yet.
   */
  lemma {:induction false} FoldXor(c: register, w: seq<symbol>)
    requires |w| <= 6
    ensures Fold(c, w) == XorSeq(Fold(c, ZeroSymbols(|w|)), Aligned(w))
  {
    if w != [] {
      var n := |w| - 1;
      var e := Aligned(w[..n]);
      var a, b := Fold(c, w[..n]), Fold(c, ZeroSymbols(n));
      FoldXor(c, w[..n]);
      AlignedTop(w[..n]);
      AlignedNext(w);
      SameTop(a, b, e);
      StepXor(a, b, e, w[n]);
      assert ZeroSymbols(|w|)[..n] == ZeroSymbols(n);
    }
  }

  lemma {:induction false} SameHalves(a: seq<bool>, b: seq<bool>, c: seq<bool>, d: seq<bool>)
    requires |a| == |c| && a + b == c + d
    ensures a == c && b == d
  {
    assert a == (a + b)[..|a|] && c == (c + d)[..|c|];
    assert b == (a + b)[|a|..] && d == (c + d)[|c|..];
  }

  lemma {:induction false} StreamInjective(u: seq<symbol>, w: seq<symbol>)
    requires |u| == |w| && Stream(u) == Stream(w)
    ensures u == w
  {
    if u != [] {
      var n := |u| - 1;
      SameHalves(Stream(u[..n]), ToBits(u[n], 5), Stream(w[..n]), ToBits(w[n], 5));
      StreamInjective(u[..n], w[..n]);
      SymbolBits(u[n]);
      SymbolBits(w[n]);
      assert u == u[..n] + [u[n]] && w == w[..n] + [w[n]];
    }
  }

  lemma {:induction false} XorCancels(b: register, e: register, f: register)
    requires XorSeq(b, e) == XorSeq(b, f)
    ensures e == f
  {
    forall k | 0 <= k < 30
      ensures e[k] == f[k]
    {
      assert XorSeq(b, e)[k] == XorSeq(b, f)[k];
    }
  }

  /** From one register, different runs of at most six symbols lead to different registers. */
  lemma {:induction false} WindowInjective(c: register, u: seq<symbol>, w: seq<symbol>)
    requires |u| == |w| <= 6 && Fold(c, u) == Fold(c, w)
    ensures u == w
  {
    FoldXor(c, u);
    FoldXor(c, w);
    XorCancels(Fold(c, ZeroSymbols(|u|)), Aligned(u), Aligned(w));
    var z := 30 - 5 * |u|;
    assert Stream(u) == Aligned(u)[z..] == Aligned(w)[z..] == Stream(w);
    StreamInjective(u, w);
  }

  lemma {:induction false} FoldConcat(c: register, a: seq<symbol>, b: seq<symbol>)
    ensures Fold(c, a + b) == Fold(Fold(c, a), b)
  {
    if b == [] {
      assert a + b == a;
    } else {
      var n := |b| - 1;
      FoldConcat(c, a, b[..n]);
      assert (a + b)[..|a + b| - 1] == a + b[..n];
    }
  }

  lemma {:induction false} FoldInjective(a: register, b: register, s: seq<symbol>)
    requires Fold(a, s) == Fold(b, s)
    ensures a == b
  {
    if s != [] {
      var n := |s| - 1;
      StepInjective(Fold(a, s[..n]), Fold(b, s[..n]), s[n]);
      FoldInjective(a, b, s[..n]);
    }
  }

  /** A burst of at most six wrong symbols changes the checksum, whatever comes before and after. */
  lemma {:induction false} BurstDetected(c: register, p: seq<symbol>, u: seq<symbol>, w: seq<symbol>, s: seq<symbol>)
    requires |u| == |w| <= 6
    ensures Fold(c, p + u + s) == Fold(c, p + w + s) <==> u == w
  {
    FoldConcat(c, p + u, s);
    FoldConcat(c, p + w, s);
    FoldConcat(c, p, u);
    FoldConcat(c, p, w);
    if Fold(c, p + u + s) == Fold(c, p + w + s) {
      FoldInjective(Fold(c, p + u), Fold(c, p + w), s);
      WindowInjective(Fold(c, p), u, w);
    }
  }

  /// The checksum symbols.

  function SymbolAt(s: seq<bool>, i: nat): symbol
    requires i + 5 <= |s|
  {
    var t := s[i..i + 5];
    ToFromBits(t);
    Pow2Values();
    FromBits(t)
  }

  /** The six symbols of a register. */
  function Symbols(r: register): (w: seq<symbol>)
    ensures |w| == 6
  {
    [SymbolAt(r, 0), SymbolAt(r, 5), SymbolAt(r, 10), SymbolAt(r, 15), SymbolAt(r, 20), SymbolAt(r, 25)]
  }

  /** The symbols that take a register to one. */
  function ChecksumOf(c: register): (w: seq<symbol>)
    ensures |w| == 6
  {
    Symbols(XorSeq(Fold(c, ZeroSymbols(6)), ONE))
  }

  lemma {:induction false} SymbolAtBits(s: seq<bool>, i: nat)
    requires i + 5 <= |s|
    ensures ToBits(SymbolAt(s, i), 5) == s[i..i + 5]
  {
    ToFromBits(s[i..i + 5]);
  }

  lemma {:induction false} StreamNext(w: seq<symbol>, n: nat)
    requires n < |w|
    ensures Stream(w[..n + 1]) == Stream(w[..n]) + ToBits(w[n], 5)
  {
    assert w[..n + 1][..n] == w[..n];
  }

  lemma {:induction false} StreamOfSymbols(r: register, n: nat)
    requires n <= 6
    ensures Stream(Symbols(r)[..n]) == r[..5 * n]
  {
    if n > 0 {
      StreamOfSymbols(r, n - 1);
      SymbolAtBits(r, 5 * (n - 1));
      NthSymbol(r, n - 1);
      StreamNext(Symbols(r), n - 1);
      Fives(r, n);
    }
  }

  lemma {:induction false} Fives(r: register, n: nat)
    requires 0 < n <= 6
    ensures r[..5 * n] == r[..5 * (n - 1)] + r[5 * (n - 1)..5 * n]
    ensures 5 * (n - 1) + 5 == 5 * n
  {}

  lemma {:induction false} NthSymbol(r: register, i: nat)
    requires i < 6
    ensures Symbols(r)[i] == SymbolAt(r, 5 * i)
  {}

  /** For every register there is exactly one run of six symbols that leads to one. */
  lemma {:induction false} ChecksumUnique(c: register, w: seq<symbol>)
    requires |w| == 6
    ensures Fold(c, w) == ONE <==> w == ChecksumOf(c)
  {
    var z := Fold(c, ZeroSymbols(6));
    var r := XorSeq(z, ONE);
    var v := ChecksumOf(c);
    FoldXor(c, v);
    StreamOfSymbols(r, 6);
    assert v[..6] == v && r[..30] == r;
    assert Aligned(v) == r;
    assert XorSeq(z, r) == ONE;
    if Fold(c, w) == ONE {
      WindowInjective(c, w, v);
    }
  }

  /** Shifting and masking the register's number reads its symbols. */
  lemma {:induction false} SymbolNumber(r: register, i: nat)
    requires i < 6
    ensures FromBits(r) / Pow2(5 * (5 - i)) % 0x20 == Symbols(r)[i]
  {
    var high, low := r[..5 * i + 5], r[5 * i + 5..];
    assert r == high + low;
    FromBitsSplit(high, low);
    assert high == high[..5 * i] + high[5 * i..];
    FromBitsSplit(high[..5 * i], high[5 * i..]);
    assert high[5 * i..] == r[5 * i..5 * i + 5];
    NthSymbol(r, i);
    Pow2Values();
  }
}
