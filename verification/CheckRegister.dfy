/// The checksum register of the bech32 codec.
///
/// The source keeps 30 bits in a Go `int`. Here the register is those 30 bits, most
/// significant first, so that a step is a shift followed by an exclusive or; `Polymod`,
/// in the source's own arithmetic, is proved to compute the number the bits write.

module CheckRegister {
  import opened GoInts

  type symbol = x: int | 0 <= x < 32
  type register = s: seq<bool> | |s| == 30 witness Zeros(30)

  const GEN: seq<nat> := [0x3b6a57b2, 0x26508e6d, 0x1ea119fa, 0x3d4233dd, 0x2a1462b3]

  const ONE: register := ToBits(1, 30)

  /** The generators selected by the low `n` bits of the group `t` shifted out. */
  function Feedback(t: seq<bool>, n: nat): register
    requires |t| == 5 && n <= 5
  {
    if n == 0 then Zeros(30)
    else if t[5 - n] then XorSeq(Feedback(t, n - 1), ToBits(GEN[n - 1], 30))
    else Feedback(t, n - 1)
  }

  function Shift(c: register, v: symbol): register {
    c[5..] + ToBits(v, 5)
  }

  function Step(c: register, v: symbol): register {
    XorSeq(Shift(c, v), Feedback(c[..5], 5))
  }

  function Fold(c: register, values: seq<symbol>): register {
    if values == [] then c else Step(Fold(c, values[..|values| - 1]), values[|values| - 1])
  }

  /// The source's loop computes the register.

  lemma {:induction false} SymbolBits(v: symbol)
    ensures FromBits(ToBits(v, 5)) == v
  {
    Pow2Values();
    FromToBits(v, 5);
  }

  lemma {:induction false} GeneratorBits(i: nat)
    requires i < 5
    ensures FromBits(ToBits(GEN[i], 30)) == GEN[i]
  {
    Pow2Values();
    FromToBits(GEN[i], 30);
  }

  lemma {:induction false} TopBit(c: register, i: nat)
    requires i < 5
    ensures FromBits(c) / Pow2(25) / Pow2(i) % 2 == 1 <==> c[4 - i]
  {
    assert c == c[..5] + c[5..];
    FromBitsSplit(c[..5], c[5..]);
    BitOf(c[..5], i);
  }

  lemma {:induction false} ShiftNumber(c: register, v: symbol)
    ensures BitXor(FromBits(c) % Pow2(25) * Pow2(5), v) == FromBits(Shift(c, v))
  {
    assert c == c[..5] + c[5..];
    FromBitsSplit(c[..5], c[5..]);
    SymbolBits(v);
    XorAppends(c[5..], ToBits(v, 5));
  }

  lemma {:induction false} FeedbackNumber(x: nat, shifted: register, t: seq<bool>, i: nat)
    requires |t| == 5 && i < 5
    requires x == FromBits(XorSeq(shifted, Feedback(t, i)))
    ensures (if t[4 - i] then BitXor(x, GEN[i]) else x) == FromBits(XorSeq(shifted, Feedback(t, i + 1)))
  {
    if t[4 - i] {
      var f, g := Feedback(t, i), ToBits(GEN[i], 30);
      GeneratorBits(i);
      XorBits(XorSeq(shifted, f), g);
      assert XorSeq(XorSeq(shifted, f), g) == XorSeq(shifted, XorSeq(f, g));
    }
  }

  /** The value of `chk` after `i` turns of the source's inner loop. */
  function Turn(c: register, v: symbol, i: nat): nat
    requires i <= 5
  {
    FromBits(XorSeq(Shift(c, v), Feedback(c[..5], i)))
  }

  lemma {:induction false} TurnFirst(c: register, v: symbol)
    ensures BitXor(FromBits(c) % 0x200_0000 * 0x20, v) == Turn(c, v, 0)
  {
    Pow2Values();
    ShiftNumber(c, v);
    assert XorSeq(Shift(c, v), Feedback(c[..5], 0)) == Shift(c, v);
  }

  lemma {:induction false} TurnNext(c: register, v: symbol, i: nat)
    requires i < 5
    ensures Turn(c, v, i + 1) ==
            if FromBits(c) / 0x200_0000 / Pow2(i) % 2 == 1 then BitXor(Turn(c, v, i), GEN[i]) else Turn(c, v, i)
  {
    Pow2Values();
    TopBit(c, i);
    FeedbackNumber(Turn(c, v, i), Shift(c, v), c[..5], i);
  }

  lemma {:induction false} FoldNext(values: seq<symbol>, n: nat)
    requires n < |values|
    ensures FromBits(Fold(ONE, values[..n + 1])) == Turn(Fold(ONE, values[..n]), values[n], 5)
  {
    assert values[..n + 1][..n] == values[..n];
  }

  /** The source's inner loop: exclusive or with the generators that `b` selects. */
  method ApplyGenerators(chk0: nat, b: nat, ghost c: seq<bool>, ghost v: symbol) returns (chk: nat)
    requires |c| == 30 && chk0 == Turn(c, v, 0) && b == FromBits(c) / 0x200_0000
    ensures chk == Turn(c, v, 5)
  {
    chk := chk0;
    for i := 0 to 5
      invariant chk == Turn(c, v, i)
    {
      TurnNext(c, v, i);
      if b / Pow2(i) % 2 == 1 {
        chk := BitXor(chk, GEN[i]);
      }
    }
  }

  method Polymod(values: seq<symbol>) returns (chk: nat)
    ensures chk == FromBits(Fold(ONE, values))
  {
    chk := 1;
    RegisterOne();
    for n := 0 to |values|
      invariant chk == FromBits(Fold(ONE, values[..n]))
    {
      ghost var c := Fold(ONE, values[..n]);
      var b := chk / 0x200_0000;
      chk := BitXor(chk % 0x200_0000 * 0x20, values[n]);
      TurnFirst(c, values[n]);
      chk := ApplyGenerators(chk, b, c, values[n]);
      FoldNext(values, n);
    }
    assert values[..|values|] == values;
  }

  lemma {:induction false} RegisterOne()
    ensures FromBits(ONE) == 1
  {
    Pow2Values();
    FromToBits(1, 30);
  }

  /// What the register remembers.

  lemma {:induction false} BitsAt(x: nat, n: nat, i: nat)
    requires i < n
    ensures ToBits(x, n)[n - 1 - i] == (x / Pow2(i) % 2 == 1)
  {
    if i > 0 {
      BitsAt(x / 2, n - 1, i - 1);
      DivDiv(x, 2, Pow2(i - 1));
    }
  }

  /** The low five bits of the generators, as bits 25 to 29 of a register. */
  predicate Low(i: nat, k: nat) {
    match i
    case 0 => k == 25 || k == 28
    case 1 => k == 26 || k == 27 || k == 29
    case 2 => k == 25 || k == 26 || k == 28
    case 3 => k == 25 || k == 26 || k == 27 || k == 29
    case _ => k == 25 || k == 28 || k == 29
  }

  lemma TwiceEven(x: int)
    ensures 2 * x % 2 == 0
  {}

  lemma {:induction false} EvenPower(n: nat)
    requires n > 0
    ensures Pow2(n) % 2 == 0
  {
    TwiceEven(Pow2(n - 1));
  }

  lemma BitOfSum(q: nat, m: nat, r: nat, n: nat)
    requires n > 0 && m % 2 == 0
    ensures (q * (m * n) + r) / n % 2 == r / n % 2
  {
    var a, b := r / n, r % n;
    Associate(q, m, n);
    Distribute(q * m, a, n);
    DivModUnique(q * (m * n) + r, n, q * m + a, b);
    EvenTerm(q, m, a);
  }

  lemma {:induction false} BitOfLow(x: nat, j: nat)
    requires j < 5
    ensures x / Pow2(j) % 2 == x % 32 / Pow2(j) % 2
  {
    assert Pow2(5) == 32 by { Pow2Values(); }
    EvenPower(5 - j);
    Pow2Add(5 - j, j);
    BitOfSum(x / 32, Pow2(5 - j), x % 32, Pow2(j));
  }

  lemma EvenTerm(q: nat, m: nat, a: nat)
    requires m % 2 == 0
    ensures (q * m + a) % 2 == a % 2
  {
    var h := m / 2;
    assert m == 2 * h;
    Double(q, h);
    DivModUnique(q * m + a, 2, q * h + a / 2, a % 2);
  }

  lemma {:induction false} LowFive(i: nat)
    requires i < 5
    ensures GEN[i] % 32 == if i == 0 then 0x12 else if i == 1 then 0x0d else if i == 2 then 0x1a else if i == 3 then 0x1d else 0x13
  {}

  predicate SmallBit(r: nat, j: nat) {
    (if j == 0 then r % 2 else if j == 1 then r / 2 % 2 else if j == 2 then r / 4 % 2
     else if j == 3 then r / 8 % 2 else r / 16 % 2) == 1
  }

  lemma {:induction false} SmallBits(r: nat, j: nat)
    requires j < 5
    ensures SmallBit(r, j) == (r / Pow2(j) % 2 == 1)
  {
    assert Pow2(0) == 1 && Pow2(1) == 2 && Pow2(2) == 4 && Pow2(3) == 8 && Pow2(4) == 16;
  }

  lemma {:induction false} BitFromLow(x: nat, j: nat)
    requires j < 5
    ensures ToBits(x, 30)[29 - j] == SmallBit(x % 32, j)
  {
    BitsAt(x, 30, j);
    BitOfLow(x, j);
    SmallBits(x % 32, j);
  }

  lemma {:induction false} LowTable(i: nat, k: nat)
    requires i < 5 && 25 <= k < 30
    ensures SmallBit(GEN[i] % 32, 29 - k) == Low(i, k)
  {
    LowFive(i);
  }

  lemma {:induction false} GeneratorLow(i: nat, k: nat)
    requires i < 5 && 25 <= k < 30
    ensures ToBits(GEN[i], 30)[k] == Low(i, k)
  {
    BitFromLow(GEN[i], 29 - k);
    LowTable(i, k);
  }

  /** Bit `k` of the feedback of the low `n` bits of `t`. */
  predicate LowSum(t: seq<bool>, n: nat, k: nat)
    requires |t| == 5 && n <= 5
  {
    n > 0 && (LowSum(t, n - 1, k) != (t[5 - n] && Low(n - 1, k)))
  }

  lemma {:induction false} LowBit(t: seq<bool>, n: nat, k: nat)
    requires |t| == 5 && n <= 5 && 25 <= k < 30
    ensures Feedback(t, n)[k] == LowSum(t, n, k)
  {
    if n > 0 {
      LowBit(t, n - 1, k);
      GeneratorLow(n - 1, k);
    }
  }

  lemma LowNext(t: seq<bool>, n: nat, k: nat)
    requires |t| == 5 && n < 5
    ensures LowSum(t, n + 1, k) == (LowSum(t, n, k) != (t[4 - n] && Low(n, k)))
  {}

  lemma {:induction false} LowSumFive(t: seq<bool>, k: nat)
    requires |t| == 5
    ensures LowSum(t, 5, k) ==
            (((((t[4] && Low(0, k)) != (t[3] && Low(1, k))) != (t[2] && Low(2, k))) != (t[1] && Low(3, k)))
             != (t[0] && Low(4, k)))
  {
    LowNext(t, 0, k);
    LowNext(t, 1, k);
    LowNext(t, 2, k);
    LowNext(t, 3, k);
    LowNext(t, 4, k);
  }

  /** The last five bits of the feedback: the low bits of the generators are independent over GF(2). */
  lemma {:induction false} LowBits(t: seq<bool>)
    requires |t| == 5
    ensures Feedback(t, 5)[25] == (((t[4] != t[2]) != t[1]) != t[0])
    ensures Feedback(t, 5)[26] == ((t[3] != t[2]) != t[1])
    ensures Feedback(t, 5)[27] == (t[3] != t[1])
    ensures Feedback(t, 5)[28] == ((t[4] != t[2]) != t[0])
    ensures Feedback(t, 5)[29] == ((t[3] != t[1]) != t[0])
  {
    forall k | 25 <= k < 30
      ensures Feedback(t, 5)[k] ==
              (((((t[4] && Low(0, k)) != (t[3] && Low(1, k))) != (t[2] && Low(2, k))) != (t[1] && Low(3, k)))
               != (t[0] && Low(4, k)))
    {
      LowBit(t, 5, k);
      LowSumFive(t, k);
    }
  }

  lemma {:induction false} FeedbackInjective(t: seq<bool>, u: seq<bool>)
    requires |t| == |u| == 5
    requires forall k :: 25 <= k < 30 ==> Feedback(t, 5)[k] == Feedback(u, 5)[k]
    ensures t == u
  {
    LowBits(t);
    LowBits(u);
    SameFive(t, u);
  }

  lemma {:induction false} SameFive(t: seq<bool>, u: seq<bool>)
    requires |t| == |u| == 5 && t[0] == u[0] && t[1] == u[1] && t[2] == u[2] && t[3] == u[3] && t[4] == u[4]
    ensures t == u
  {}

  /** A step loses nothing: from the symbol read and the register after, the register before. */
  lemma {:induction false} StepInjective(a: register, b: register, v: symbol)
    requires Step(a, v) == Step(b, v)
    ensures a == b
  {
    var f, g := Feedback(a[..5], 5), Feedback(b[..5], 5);
    forall k | 25 <= k < 30
      ensures f[k] == g[k]
    {
      assert Step(a, v)[k] == Step(b, v)[k];
      assert Shift(a, v)[k] == Shift(b, v)[k];
    }
    FeedbackInjective(a[..5], b[..5]);
    forall k | 5 <= k < 30
      ensures a[k] == b[k]
    {
      assert Step(a, v)[k - 5] == Step(b, v)[k - 5];
    }
    assert a == a[..5] + a[5..] && b == b[..5] + b[5..];
  }
}
