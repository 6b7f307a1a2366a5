/// The checksum as BIP-173 states it: the remainder of a division of polynomials over GF(32).

module CheckPolynomial {
  import opened GoInts
  import opened CheckRegister
  import opened Checksum

  /// The field.

  /** A polynomial over GF(2) of degree at most four, taken modulo x^5 + x^3 + 1. */
  datatype Element = Element(x4: bool, x3: bool, x2: bool, x1: bool, x0: bool)

  const Nought := Element(false, false, false, false, false)

  /** The element that a symbol stands for: its bits are the coefficients. */
  function Of(v: symbol): Element {
    var r4 := if v >= 16 then v - 16 else v;
    var r3 := if r4 >= 8 then r4 - 8 else r4;
    var r2 := if r3 >= 4 then r3 - 4 else r3;
    Element(v >= 16, r4 >= 8, r3 >= 4, r2 >= 2, r2 == 1 || r2 == 3)
  }

  function Add(a: Element, b: Element): Element {
    Element(a.x4 != b.x4, a.x3 != b.x3, a.x2 != b.x2, a.x1 != b.x1, a.x0 != b.x0)
  }

  /** Multiplication by x: the x^5 that comes up is x^3 + 1. */
  function TimesX(a: Element): Element {
    Element(a.x3, a.x2 != a.x4, a.x1, a.x0, a.x4)
  }

  function Power(n: nat, a: Element): Element {
    if n == 0 then a else TimesX(Power(n - 1, a))
  }

  function If(p: bool, a: Element): Element {
    if p then a else Nought
  }

  /** The sum of x^i b over those i < n whose bit, counted from the right of `t`, is set. */
  function Multiple(t: seq<bool>, n: nat, b: Element): Element
    requires n <= |t|
  {
    if n == 0 then Nought else Add(Multiple(t, n - 1, b), If(t[|t| - n], Power(n - 1, b)))
  }

  function Mul(a: Element, b: Element): Element {
    Multiple([a.x4, a.x3, a.x2, a.x1, a.x0], 5, b)
  }

  /// Polynomials over the field, the coefficient of the highest power first.

  function Noughts(n: nat): (p: seq<Element>)
    ensures |p| == n && forall i :: 0 <= i < n ==> p[i] == Nought
  {
    seq(n, _ => Nought)
  }

  function Coefficients(values: seq<symbol>): (p: seq<Element>)
    ensures |p| == |values| && forall i :: 0 <= i < |p| ==> p[i] == Of(values[i])
  {
    seq(|values|, i requires 0 <= i < |values| => Of(values[i]))
  }

  function AddPoly(p: seq<Element>, q: seq<Element>): (r: seq<Element>)
    requires |p| == |q|
    ensures |r| == |p| && forall i :: 0 <= i < |r| ==> r[i] == Add(p[i], q[i])
  {
    seq(|p|, i requires 0 <= i < |p| => Add(p[i], q[i]))
  }

  function Scale(a: Element, g: seq<Element>): (r: seq<Element>)
    ensures |r| == |g| && forall i :: 0 <= i < |r| ==> r[i] == Mul(a, g[i])
  {
    seq(|g|, i requires 0 <= i < |g| => Mul(a, g[i]))
  }

  /** The product of two polynomials. */
  function MulPoly(q: seq<Element>, g: seq<Element>): (r: seq<Element>)
    requires g != []
    ensures |r| == |q| + |g| - 1
  {
    if q == [] then Noughts(|g| - 1)
    else AddPoly(MulPoly(q[..|q| - 1], g) + [Nought], Noughts(|q| - 1) + Scale(q[|q| - 1], g))
  }

  /** x^6 + 29 x^5 + 22 x^4 + 20 x^3 + 21 x^2 + 29 x + 18. */
  const G: seq<Element> := [Of(1), Of(29), Of(22), Of(20), Of(21), Of(29), Of(18)]

  /** One step of dividing by `g`: a coefficient is brought down and a multiple of `g` taken off. */
  function Next(w: seq<Element>, v: Element, g: seq<Element>): (u: seq<Element>)
    requires |w| + 1 == |g| && w != []
    ensures |u| == |w| && forall j :: 0 <= j < |u| ==> u[j] == Add((w + [v])[j + 1], Mul(w[0], g[j + 1]))
  {
    seq(|w|, j requires 0 <= j < |w| => Add((w + [v])[j + 1], Mul(w[0], g[j + 1])))
  }

  /// The generators of the source.

  lemma {:induction false} Places()
    ensures Pow2(0) == 1 && Pow2(5) == 0x20 && Pow2(10) == 0x400
    ensures Pow2(15) == 0x8000 && Pow2(20) == 0x10_0000 && Pow2(25) == 0x200_0000
  {
    Pow2Values();
    Pow2Add(5, 5);
    Pow2Add(10, 5);
    Pow2Add(10, 10);
  }

  lemma {:induction false} GeneratorSymbol(i: nat, j: nat)
    requires i < 5 && j < 6
    ensures Symbols(ToBits(GEN[i], 30))[j] == GEN[i] / Pow2(5 * (5 - j)) % 0x20
  {
    GeneratorBits(i);
    SymbolNumber(ToBits(GEN[i], 30), j);
  }

  function Column(i: nat): seq<int>
    requires i < 5
  {
    [GEN[i] / 0x200_0000 % 0x20, GEN[i] / 0x10_0000 % 0x20, GEN[i] / 0x8000 % 0x20,
     GEN[i] / 0x400 % 0x20, GEN[i] / 0x20 % 0x20, GEN[i] / 1 % 0x20]
  }

  lemma {:induction false} GeneratorColumn(i: nat)
    requires i < 5
    ensures Symbols(ToBits(GEN[i], 30)) == Column(i)
  {
    Places();
    GeneratorSymbol(i, 0);
    GeneratorSymbol(i, 1);
    GeneratorSymbol(i, 2);
    GeneratorSymbol(i, 3);
    GeneratorSymbol(i, 4);
    GeneratorSymbol(i, 5);
  }

  /** The generators in symbols, worked out. */
  function Table(i: nat): seq<symbol>
    requires i < 5
  {
    match i
    case 0 => [29, 22, 20, 21, 29, 18]
    case 1 => [19, 5, 1, 3, 19, 13]
    case 2 => [15, 10, 2, 6, 15, 26]
    case 3 => [30, 20, 4, 12, 30, 29]
    case _ => [21, 1, 8, 24, 21, 19]
  }

  lemma {:induction false} FirstColumns()
    ensures Column(0) == Table(0) && Column(1) == Table(1)
  {}

  lemma {:induction false} MiddleColumns()
    ensures Column(2) == Table(2) && Column(3) == Table(3)
  {}

  lemma {:induction false} LastColumn()
    ensures Column(4) == Table(4)
  {}

  lemma {:induction false} PowersOf()
    ensures Power(1, Of(29)) == Of(19) && Power(2, Of(29)) == Of(15) && Power(3, Of(29)) == Of(30) && Power(4, Of(29)) == Of(21)
    ensures Power(1, Of(22)) == Of(5) && Power(2, Of(22)) == Of(10) && Power(3, Of(22)) == Of(20) && Power(4, Of(22)) == Of(1)
    ensures Power(1, Of(20)) == Of(1) && Power(2, Of(20)) == Of(2) && Power(3, Of(20)) == Of(4) && Power(4, Of(20)) == Of(8)
    ensures Power(1, Of(21)) == Of(3) && Power(2, Of(21)) == Of(6) && Power(3, Of(21)) == Of(12) && Power(4, Of(21)) == Of(24)
    ensures Power(1, Of(18)) == Of(13) && Power(2, Of(18)) == Of(26) && Power(3, Of(18)) == Of(29) && Power(4, Of(18)) == Of(19)
  {}

  lemma {:induction false} TableIsPowers(i: nat)
    requires i < 5
    ensures Power(i, Of(29)) == Of(Table(i)[0]) == Of(Table(i)[4])
    ensures Power(i, Of(22)) == Of(Table(i)[1]) && Power(i, Of(20)) == Of(Table(i)[2])
    ensures Power(i, Of(21)) == Of(Table(i)[3]) && Power(i, Of(18)) == Of(Table(i)[5])
  {
    PowersOf();
  }

  lemma {:induction false} PowerRow(row: seq<symbol>, i: nat, j: nat)
    requires |row| == 6 && j < 6
    requires Power(i, Of(29)) == Of(row[0]) == Of(row[4])
    requires Power(i, Of(22)) == Of(row[1]) && Power(i, Of(20)) == Of(row[2])
    requires Power(i, Of(21)) == Of(row[3]) && Power(i, Of(18)) == Of(row[5])
    ensures Of(row[j]) == Power(i, G[j + 1])
  {
    match j {
      case 0 => assert G[1] == Of(29);
      case 1 => assert G[2] == Of(22);
      case 2 => assert G[3] == Of(20);
      case 3 => assert G[4] == Of(21);
      case 4 => assert G[5] == Of(29);
      case _ => assert G[6] == Of(18);
    }
  }

  /** The generators are the multiples by powers of x of what `G` leaves of x^6. */
  lemma {:induction false} GeneratorsArePowers(i: nat, j: nat)
    requires i < 5 && j < 6
    ensures Of(Symbols(ToBits(GEN[i], 30))[j]) == Power(i, G[j + 1])
  {
    GeneratorColumn(i);
    FirstColumns();
    MiddleColumns();
    LastColumn();
    TableIsPowers(i);
    PowerRow(Table(i), i, j);
  }

  /// A step of the register is a step of the division.

  /** The field elements in a register. */
  function Elements(r: register): (w: seq<Element>)
    ensures |w| == 6
  {
    Coefficients(Symbols(r))
  }

  /** An element's coefficients are the register's bits. */
  lemma {:induction false} ElementBits(r: register, j: nat)
    requires j < 6
    ensures Elements(r)[j] == Element(r[5 * j], r[5 * j + 1], r[5 * j + 2], r[5 * j + 3], r[5 * j + 4])
  {
    var s := r[5 * j..5 * j + 5];
    NthSymbol(r, j);
    SymbolAtBits(r, 5 * j);
    OfBits(SymbolAt(r, 5 * j));
  }

  lemma {:induction false} OfBits(v: symbol)
    ensures var b := ToBits(v, 5); Of(v) == Element(b[0], b[1], b[2], b[3], b[4])
  {
    BitsAt(v, 5, 0);
    BitsAt(v, 5, 1);
    BitsAt(v, 5, 2);
    BitsAt(v, 5, 3);
    BitsAt(v, 5, 4);
    assert Pow2(0) == 1 && Pow2(1) == 2 && Pow2(2) == 4 && Pow2(3) == 8 && Pow2(4) == 16;
    Digits(v);
  }

  lemma Digits(v: symbol)
    ensures Of(v).x4 == (v / 16 % 2 == 1) && Of(v).x3 == (v / 8 % 2 == 1) && Of(v).x2 == (v / 4 % 2 == 1)
    ensures Of(v).x1 == (v / 2 % 2 == 1) && Of(v).x0 == (v / 1 % 2 == 1)
  {}

  lemma {:induction false} XorElement(a: register, b: register, j: nat)
    requires j < 6
    ensures Elements(XorSeq(a, b))[j] == Add(Elements(a)[j], Elements(b)[j])
  {
    ElementBits(XorSeq(a, b), j);
    ElementBits(a, j);
    ElementBits(b, j);
  }

  lemma {:induction false} ShiftElement(c: register, v: symbol, j: nat)
    requires j < 6
    ensures Elements(Shift(c, v))[j] == (Elements(c) + [Of(v)])[j + 1]
  {
    ElementBits(Shift(c, v), j);
    if j < 5 {
      ElementBits(c, j + 1);
    } else {
      OfBits(v);
    }
  }

  lemma {:induction false} FeedbackElement(t: seq<bool>, n: nat, j: nat)
    requires |t| == 5 && n <= 5 && j < 6
    ensures Elements(Feedback(t, n))[j] == Multiple(t, n, G[j + 1])
  {
    if n == 0 {
      ElementBits(Zeros(30), j);
    } else {
      FeedbackElement(t, n - 1, j);
      GeneratorsArePowers(n - 1, j);
      XorElement(Feedback(t, n - 1), ToBits(GEN[n - 1], 30), j);
    }
  }

  /** The source's shift and feedback are one step of dividing by `G`. */
  lemma {:induction false} StepDivides(c: register, v: symbol)
    ensures Elements(Step(c, v)) == Next(Elements(c), Of(v), G)
  {
    var w, u := Elements(c), Elements(Step(c, v));
    forall j | 0 <= j < 6
      ensures u[j] == Next(w, Of(v), G)[j]
    {
      StepElement(c, v, j);
    }
  }

  lemma {:induction false} TopElement(c: register, a: Element)
    ensures Mul(Elements(c)[0], a) == Multiple(c[..5], 5, a)
  {
    ElementBits(c, 0);
    assert c[..5] == [c[0], c[1], c[2], c[3], c[4]];
  }

  lemma {:induction false} StepElement(c: register, v: symbol, j: nat)
    requires j < 6
    ensures Elements(Step(c, v))[j] == Add((Elements(c) + [Of(v)])[j + 1], Mul(Elements(c)[0], G[j + 1]))
  {
    XorElement(Shift(c, v), Feedback(c[..5], 5), j);
    ShiftElement(c, v, j);
    FeedbackElement(c[..5], 5, j);
    TopElement(c, G[j + 1]);
  }

  /// Long division.

  lemma {:induction false} MulParts(a: Element, b: Element)
    ensures Mul(a, b) == Add(Add(Add(Add(If(a.x0, b), If(a.x1, Power(1, b))), If(a.x2, Power(2, b))), If(a.x3, Power(3, b))),
                             If(a.x4, Power(4, b)))
  {
    MultipleParts([a.x4, a.x3, a.x2, a.x1, a.x0], b);
  }

  lemma {:induction false} MultipleParts(t: seq<bool>, b: Element)
    requires |t| == 5
    ensures Multiple(t, 5, b) ==
            Add(Add(Add(Add(If(t[4], b), If(t[3], Power(1, b))), If(t[2], Power(2, b))), If(t[1], Power(3, b))),
                If(t[0], Power(4, b)))
  {
    AddNought(If(t[4], b));
    assert Multiple(t, 1, b) == If(t[4], b);
    MultipleNext(t, 2, b);
    MultipleNext(t, 3, b);
    MultipleNext(t, 4, b);
    MultipleNext(t, 5, b);
  }

  lemma {:induction false} MultipleNext(t: seq<bool>, n: nat, b: Element)
    requires 0 < n <= |t|
    ensures Multiple(t, n, b) == Add(Multiple(t, n - 1, b), If(t[|t| - n], Power(n - 1, b)))
  {}

  lemma {:induction false} MulOne(a: Element)
    ensures Mul(a, Of(1)) == a
  {
    MulParts(a, Of(1));
  }

  /** What is brought down is a multiple of `g` and what the step leaves. */
  lemma {:induction false} StepExact(w: seq<Element>, v: Element, g: seq<Element>)
    requires |w| + 1 == |g| && w != [] && g[0] == Of(1)
    ensures w + [v] == AddPoly(Scale(w[0], g), [Nought] + Next(w, v, g))
  {
    var r := AddPoly(Scale(w[0], g), [Nought] + Next(w, v, g));
    MulOne(w[0]);
    assert r[0] == w[0];
    forall j | 0 < j < |g|
      ensures r[j] == (w + [v])[j]
    {
      Returns((w + [v])[j], Mul(w[0], g[j]));
    }
  }

  lemma Returns(a: Element, b: Element)
    ensures Add(b, Add(a, b)) == a
  {}

  lemma AddAssociates(a: Element, b: Element, c: Element)
    ensures Add(Add(a, b), c) == Add(a, Add(b, c))
  {}

  lemma AddNought(a: Element)
    ensures Add(a, Nought) == a && Add(Nought, a) == a
  {}

  lemma {:induction false} DividedOnce(p: seq<Element>, m: seq<Element>, w: seq<Element>, n: nat, v: Element, g: seq<Element>)
    requires |w| + 1 == |g| && w != [] && g[0] == Of(1)
    requires |p| == |m| == n + |w| && p == AddPoly(m, Noughts(n) + w)
    ensures p + [v] == AddPoly(AddPoly(m + [Nought], Noughts(n) + Scale(w[0], g)), Noughts(n + 1) + Next(w, v, g))
  {
    var s, r := Noughts(n) + Scale(w[0], g), Noughts(n + 1) + Next(w, v, g);
    Brought(p, m, w, n, v);
    ShiftedExact(w, n, v, g);
    forall k | 0 <= k < |p| + 1
      ensures (p + [v])[k] == Add(Add((m + [Nought])[k], s[k]), r[k])
    {
      AddAssociates((m + [Nought])[k], s[k], r[k]);
    }
  }

  lemma {:induction false} Brought(p: seq<Element>, m: seq<Element>, w: seq<Element>, n: nat, v: Element)
    requires |p| == |m| == n + |w| && p == AddPoly(m, Noughts(n) + w)
    ensures p + [v] == AddPoly(m + [Nought], Noughts(n) + (w + [v]))
  {
    AddNought(v);
    assert Noughts(n) + (w + [v]) == Noughts(n) + w + [v];
  }

  lemma {:induction false} ShiftedExact(w: seq<Element>, n: nat, v: Element, g: seq<Element>)
    requires |w| + 1 == |g| && w != [] && g[0] == Of(1)
    ensures Noughts(n) + (w + [v]) == AddPoly(Noughts(n) + Scale(w[0], g), Noughts(n + 1) + Next(w, v, g))
  {
    StepExact(w, v, g);
    AddNought(Nought);
    Behind(n, w + [v], Scale(w[0], g), [Nought] + Next(w, v, g));
    OneMoreNought(n, Next(w, v, g));
  }

  lemma {:induction false} OneMoreNought(n: nat, r: seq<Element>)
    ensures Noughts(n + 1) + r == Noughts(n) + ([Nought] + r)
  {}

  lemma {:induction false} Behind(n: nat, p: seq<Element>, q: seq<Element>, r: seq<Element>)
    requires |q| == |r| && p == AddPoly(q, r)
    ensures Noughts(n) + p == AddPoly(Noughts(n) + q, Noughts(n) + r)
  {
    AddNought(Nought);
  }

  lemma {:induction false} MulPolyNext(q: seq<Element>, a: Element, g: seq<Element>)
    requires g != []
    ensures MulPoly(q + [a], g) == AddPoly(MulPoly(q, g) + [Nought], Noughts(|q|) + Scale(a, g))
  {
    assert (q + [a])[..|q|] == q;
  }

  lemma {:induction false} LastApart(p: seq<Element>, values: seq<symbol>)
    requires values != []
    ensures p + Coefficients(values) == p + Coefficients(values[..|values| - 1]) + [Of(values[|values| - 1])]
  {}

  lemma {:induction false} SymbolsOfOne(j: nat)
    requires j < 6
    ensures Symbols(ONE)[j] == if j == 5 then 1 else 0
  {
    RegisterOne();
    SymbolNumber(ONE, j);
    Places();
    if j < 5 {
      SmallQuotient(Pow2(5 * (5 - j)));
    }
  }

  lemma SmallQuotient(m: nat)
    requires m > 1
    ensures 1 / m % 0x20 == 0
  {}

  lemma {:induction false} OneElements()
    ensures Elements(ONE) == Noughts(5) + [Of(1)]
  {
    forall k | 0 <= k < 5
      ensures Elements(ONE)[k] == Nought
    {
      SymbolsOfOne(k);
      assert Symbols(ONE)[k] == 0;
    }
    SymbolsOfOne(5);
    assert Elements(ONE)[5] == Of(1);
  }

  lemma {:induction false} OneRemains(g: seq<Element>)
    requires |g| == 7
    ensures Noughts(5) + [Of(1)] + [] == AddPoly(MulPoly([], g), Noughts(0) + Elements(ONE))
  {
    OneElements();
    NoughtPlus(Elements(ONE));
    assert Noughts(0) + Elements(ONE) == Elements(ONE);
    assert MulPoly([], g) == Noughts(6);
  }

  lemma {:induction false} NoughtPlus(p: seq<Element>)
    ensures AddPoly(Noughts(|p|), p) == p
  {}

  /**
   * The register after any symbols is the remainder that `G` leaves of the polynomial with leading
   * coefficient one and these symbols behind it; `q` is the quotient.
   */
  lemma {:induction false} RegisterIsRemainder(values: seq<symbol>) returns (q: seq<Element>)
    ensures |q| == |values|
    ensures Noughts(5) + [Of(1)] + Coefficients(values) ==
            AddPoly(MulPoly(q, G), Noughts(|values|) + Coefficients(Symbols(Fold(ONE, values))))
  {
    if values == [] {
      q := [];
      OneRemains(G);
    } else {
      var n := |values| - 1;
      var t := RegisterIsRemainder(values[..n]);
      var w := Elements(Fold(ONE, values[..n]));
      q := t + [w[0]];
      StepDivides(Fold(ONE, values[..n]), values[n]);
      DividedOnce(Noughts(5) + [Of(1)] + Coefficients(values[..n]), MulPoly(t, G), w, n, Of(values[n]), G);
      MulPolyNext(t, w[0], G);
      LastApart(Noughts(5) + [Of(1)], values);
    }
  }

  /// The remainder is the only one.

  /** What the last coefficient of a quotient and the remainder make up together. */
  function Carry(a: Element, r: seq<Element>, g: seq<Element>): (x: seq<Element>)
    requires |g| == |r| + 1
    ensures |x| == |g|
  {
    AddPoly(Scale(a, g), [Nought] + r)
  }

  lemma {:induction false} LastQuotient(t: seq<Element>, a: Element, r: seq<Element>, g: seq<Element>)
    requires |g| == |r| + 1 && r != []
    ensures AddPoly(MulPoly(t + [a], g), Noughts(|t| + 1) + r) ==
            AddPoly(MulPoly(t, g), Noughts(|t|) + Carry(a, r, g)[..|r|]) + [Carry(a, r, g)[|r|]]
  {
    var n, x := |t|, Carry(a, r, g);
    MulPolyNext(t, a, g);
    AddNought(Nought);
    AddNought(x[|r|]);
    Behind(n, x, Scale(a, g), [Nought] + r);
    OneMoreNought(n, r);
    Reassociate(MulPoly(t, g) + [Nought], Noughts(n) + Scale(a, g), Noughts(n) + ([Nought] + r));
    assert Noughts(n) + x == (Noughts(n) + x[..|r|]) + [x[|r|]];
  }

  lemma {:induction false} Reassociate(p: seq<Element>, q: seq<Element>, r: seq<Element>)
    requires |p| == |q| == |r|
    ensures AddPoly(AddPoly(p, q), r) == AddPoly(p, AddPoly(q, r))
  {
    forall k | 0 <= k < |p|
      ensures Add(Add(p[k], q[k]), r[k]) == Add(p[k], Add(q[k], r[k]))
    {
      AddAssociates(p[k], q[k], r[k]);
    }
  }

  lemma AddCancels(a: Element, b: Element, c: Element)
    requires Add(a, b) == Add(a, c)
    ensures b == c
  {}

  lemma {:induction false} SameLast(a: Element, b: Element, r: seq<Element>, s: seq<Element>, g: seq<Element>)
    requires |g| == |r| + 1 == |s| + 1 && r != [] && g[0] == Of(1)
    requires Carry(a, r, g) == Carry(b, s, g)
    ensures a == b && r == s
  {
    var x, y := Carry(a, r, g), Carry(b, s, g);
    MulOne(a);
    MulOne(b);
    AddNought(a);
    AddNought(b);
    assert x[0] == a && y[0] == b;
    forall j | 0 <= j < |r|
      ensures r[j] == s[j]
    {
      assert x[j + 1] == Add(Mul(a, g[j + 1]), r[j]) && y[j + 1] == Add(Mul(a, g[j + 1]), s[j]);
      AddCancels(Mul(a, g[j + 1]), r[j], s[j]);
    }
  }

  /** A polynomial has one quotient and one remainder. */
  lemma {:induction false} DivisionUnique(q: seq<Element>, r: seq<Element>, t: seq<Element>, s: seq<Element>, g: seq<Element>)
    requires |q| == |t| && |r| == |s| == |g| - 1 && r != [] && g[0] == Of(1)
    requires AddPoly(MulPoly(q, g), Noughts(|q|) + r) == AddPoly(MulPoly(t, g), Noughts(|q|) + s)
    ensures q == t && r == s
    decreases |q|, 2
  {
    if q == [] {
      NoughtPlus(r);
      NoughtPlus(s);
      assert Noughts(0) + r == r && Noughts(0) + s == s;
    } else {
      var n := |q| - 1;
      assert q == q[..n] + [q[n]] && t == t[..n] + [t[n]];
      QuotientUnique(q[..n], q[n], r, t[..n], t[n], s, g);
    }
  }

  lemma {:induction false} QuotientUnique(q: seq<Element>, a: Element, r: seq<Element>,
                                          t: seq<Element>, b: Element, s: seq<Element>, g: seq<Element>)
    requires |q| == |t| && |r| == |s| == |g| - 1 && r != [] && g[0] == Of(1)
    requires AddPoly(MulPoly(q + [a], g), Noughts(|q| + 1) + r) == AddPoly(MulPoly(t + [b], g), Noughts(|q| + 1) + s)
    ensures q == t && a == b && r == s
    decreases |q| + 1, 1
  {
    var x, y := Carry(a, r, g), Carry(b, s, g);
    SameCarries(q, a, r, t, b, s, g);
    DivisionUnique(q, x[..|r|], t, y[..|r|], g);
    SameUpTo(x, y, |r|);
    SameLast(a, b, r, s, g);
  }

  lemma {:induction false} SameCarries(q: seq<Element>, a: Element, r: seq<Element>,
                                       t: seq<Element>, b: Element, s: seq<Element>, g: seq<Element>)
    requires |q| == |t| && |r| == |s| == |g| - 1 && r != []
    requires AddPoly(MulPoly(q + [a], g), Noughts(|q| + 1) + r) == AddPoly(MulPoly(t + [b], g), Noughts(|q| + 1) + s)
    ensures AddPoly(MulPoly(q, g), Noughts(|q|) + Carry(a, r, g)[..|r|]) ==
            AddPoly(MulPoly(t, g), Noughts(|q|) + Carry(b, s, g)[..|r|])
    ensures Carry(a, r, g)[|r|] == Carry(b, s, g)[|r|]
  {
    var x, y := Carry(a, r, g), Carry(b, s, g);
    LastQuotient(q, a, r, g);
    LastQuotient(t, b, s, g);
    SameEnds(AddPoly(MulPoly(q, g), Noughts(|q|) + x[..|r|]), x[|r|], AddPoly(MulPoly(t, g), Noughts(|q|) + y[..|r|]), y[|r|]);
  }

  lemma {:induction false} SameUpTo(x: seq<Element>, y: seq<Element>, n: nat)
    requires |x| == |y| == n + 1 && x[..n] == y[..n] && x[n] == y[n]
    ensures x == y
  {
    assert x == x[..n] + [x[n]] && y == y[..n] + [y[n]];
  }

  lemma {:induction false} SameEnds(p: seq<Element>, a: Element, q: seq<Element>, b: Element)
    requires |p| == |q| && p + [a] == q + [b]
    ensures p == q && a == b
  {
    assert p == (p + [a])[..|p|] && q == (q + [b])[..|q|];
  }

  lemma {:induction false} ElementsInjective(r: register, s: register)
    requires Elements(r) == Elements(s)
    ensures r == s
  {
    forall k | 0 <= k < 30
      ensures r[k] == s[k]
    {
      ElementBits(r, k / 5);
      ElementBits(s, k / 5);
      FiveApart(k);
    }
  }

  lemma FiveApart(k: nat)
    ensures k == 5 * (k / 5) + k % 5 && 0 <= k % 5 < 5
  {}

  /** The polynomial with leading coefficient one and `values` behind it leaves the remainder one. */
  ghost predicate LeavesOne(values: seq<symbol>) {
    exists q :: |q| == |values|
      && Noughts(5) + [Of(1)] + Coefficients(values) == AddPoly(MulPoly(q, G), Noughts(|values|) + (Noughts(5) + [Of(1)]))
  }

  /** What the source tests is what BIP-173 asks for. */
  lemma {:induction false} OneIffRemainderOne(values: seq<symbol>)
    ensures Fold(ONE, values) == ONE <==> LeavesOne(values)
  {
    var r := Fold(ONE, values);
    var q := RegisterIsRemainder(values);
    OneElements();
    if LeavesOne(values) {
      var t :| |t| == |values|
        && Noughts(5) + [Of(1)] + Coefficients(values) == AddPoly(MulPoly(t, G), Noughts(|values|) + (Noughts(5) + [Of(1)]));
      DivisionUnique(q, Elements(r), t, Elements(ONE), G);
      ElementsInjective(r, ONE);
    }
  }

  /// Division of a sequence of symbols.

  /** `values` brought down one by one behind `w`. */
  function Divide(w: seq<Element>, values: seq<symbol>, g: seq<Element>): (u: seq<Element>)
    requires |w| + 1 == |g| && w != []
    ensures |u| == |w|
  {
    if values == [] then w else Next(Divide(w, values[..|values| - 1], g), Of(values[|values| - 1]), g)
  }

  lemma {:induction false} FoldDivides(c: register, values: seq<symbol>)
    ensures Elements(Fold(c, values)) == Divide(Elements(c), values, G)
  {
    if values != [] {
      var n := |values| - 1;
      FoldDivides(c, values[..n]);
      StepDivides(Fold(c, values[..n]), values[n]);
    }
  }
}
