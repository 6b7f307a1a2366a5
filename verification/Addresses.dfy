/// Addresses that BIP-173 gives as valid, worked out symbol by symbol.

module Addresses {
  import opened GoStrings
  import opened CheckRegister
  import opened CheckPolynomial
  import opened Bech32

  /** An address checks if its prefix and data, as a polynomial, leave the remainder one. */
  lemma {:induction false} SumsIffRemainderOne(hrp: seq<ascii>, d: seq<symbol>)
    ensures Sums(hrp, d) <==> LeavesOne(Expanded(hrp) + d)
  {
    OneIffRemainderOne(Expanded(hrp) + d);
  }

  /// Division on concrete symbols.

  /** The products of `t` with what `G` has below x^6. */
  predicate Products(t: symbol, p: symbol, q: symbol, r: symbol, s: symbol, u: symbol) {
    && Mul(Of(t), Of(29)) == Of(p)
    && Mul(Of(t), Of(22)) == Of(q)
    && Mul(Of(t), Of(20)) == Of(r)
    && Mul(Of(t), Of(21)) == Of(s)
    && Mul(Of(t), Of(18)) == Of(u)
  }

  lemma {:induction false} ProductsOf1()
    ensures Products(1, 29, 22, 20, 21, 18)
  {}

  lemma {:induction false} ProductsOf18()
    ensures Products(18, 6, 4, 9, 27, 30)
  {}

  lemma {:induction false} ProductsOf28()
    ensures Products(28, 4, 31, 14, 18, 20)
  {}

  lemma {:induction false} ProductsOf30()
    ensures Products(30, 23, 26, 15, 17, 25)
  {}

  /** A step of the division on symbols; `p` to `t` are the products of the one that leaves. */
  lemma {:induction false} NextIs(w: seq<symbol>, v: symbol, u: seq<symbol>, p: symbol, q: symbol, r: symbol, s: symbol, t: symbol)
    requires |w| == |u| == 6 && Products(w[0], p, q, r, s, t)
    requires Add(Of(w[1]), Of(p)) == Of(u[0]) && Add(Of(w[2]), Of(q)) == Of(u[1]) && Add(Of(w[3]), Of(r)) == Of(u[2])
    requires Add(Of(w[4]), Of(s)) == Of(u[3]) && Add(Of(w[5]), Of(p)) == Of(u[4]) && Add(Of(v), Of(t)) == Of(u[5])
    ensures Next(Coefficients(w), Of(v), G) == Coefficients(u)
  {
    GeneratorPolynomial();
    AsDisplay(u);
    NextOf(Coefficients(w), Of(v), Of(p), Of(q), Of(r), Of(s), Of(t), Coefficients(u), G);
  }

  lemma {:induction false} AsDisplay(u: seq<symbol>)
    requires |u| == 6
    ensures Coefficients(u) == [Of(u[0]), Of(u[1]), Of(u[2]), Of(u[3]), Of(u[4]), Of(u[5])]
  {}

  lemma GeneratorPolynomial()
    ensures G[1] == Of(29) && G[2] == Of(22) && G[3] == Of(20) && G[4] == Of(21) && G[5] == Of(29) && G[6] == Of(18)
  {}

  lemma {:induction false} NextOf(w: seq<Element>, v: Element, p: Element, q: Element, r: Element, s: Element, t: Element,
                                  u: seq<Element>, g: seq<Element>)
    requires |w| == |u| == 6 && |g| == 7
    requires Mul(w[0], g[1]) == Mul(w[0], g[5]) == p && Mul(w[0], g[2]) == q && Mul(w[0], g[3]) == r
    requires Mul(w[0], g[4]) == s && Mul(w[0], g[6]) == t
    requires u == [Add(w[1], p), Add(w[2], q), Add(w[3], r), Add(w[4], s), Add(w[5], p), Add(v, t)]
    ensures Next(w, v, g) == u
  {
    NextInside(w, v, 0, p, g);
    NextInside(w, v, 1, q, g);
    NextInside(w, v, 2, r, g);
    NextInside(w, v, 3, s, g);
    NextInside(w, v, 4, p, g);
    NextLast(w, v, t, g);
  }

  lemma {:induction false} NextInside(w: seq<Element>, v: Element, j: nat, p: Element, g: seq<Element>)
    requires |w| + 1 == |g| && j + 1 < |w| && Mul(w[0], g[j + 1]) == p
    ensures Next(w, v, g)[j] == Add(w[j + 1], p)
  {}

  lemma {:induction false} NextLast(w: seq<Element>, v: Element, p: Element, g: seq<Element>)
    requires |w| + 1 == |g| && w != [] && Mul(w[0], g[|w|]) == p
    ensures Next(w, v, g)[|w| - 1] == Add(v, p)
  {}

  lemma {:induction false} LetterA1()
    ensures Next(Coefficients([1, 3, 0, 1, 10, 28]), Of(25), G) == Coefficients([30, 22, 21, 31, 1, 11])
  {
    ProductsOf1();
    NextIs([1, 3, 0, 1, 10, 28], 25, [30, 22, 21, 31, 1, 11], 29, 22, 20, 21, 18);
  }

  lemma {:induction false} LetterA2()
    ensures Next(Coefficients([30, 22, 21, 31, 1, 11]), Of(31), G) == Coefficients([1, 15, 16, 16, 28, 6])
  {
    ProductsOf30();
    NextIs([30, 22, 21, 31, 1, 11], 31, [1, 15, 16, 16, 28, 6], 23, 26, 15, 17, 25);
  }

  lemma {:induction false} LetterA3()
    ensures Next(Coefficients([1, 15, 16, 16, 28, 6]), Of(20), G) == Coefficients([18, 6, 4, 9, 27, 6])
  {
    ProductsOf1();
    NextIs([1, 15, 16, 16, 28, 6], 20, [18, 6, 4, 9, 27, 6], 29, 22, 20, 21, 18);
  }

  lemma {:induction false} Question1()
    ensures Next(Coefficients([1, 1, 0, 31, 25, 2]), Of(4), G) == Coefficients([28, 22, 11, 12, 31, 22])
  {
    ProductsOf1();
    NextIs([1, 1, 0, 31, 25, 2], 4, [28, 22, 11, 12, 31, 22], 29, 22, 20, 21, 18);
  }

  lemma {:induction false} Question2()
    ensures Next(Coefficients([28, 22, 11, 12, 31, 22]), Of(9), G) == Coefficients([18, 20, 2, 13, 18, 29])
  {
    ProductsOf28();
    NextIs([28, 22, 11, 12, 31, 22], 9, [18, 20, 2, 13, 18, 29], 4, 31, 14, 18, 20);
  }

  lemma {:induction false} Question3()
    ensures Next(Coefficients([18, 20, 2, 13, 18, 29]), Of(24), G) == Coefficients([18, 6, 4, 9, 27, 6])
  {
    ProductsOf18();
    NextIs([18, 20, 2, 13, 18, 29], 24, [18, 6, 4, 9, 27, 6], 6, 4, 9, 27, 30);
  }

  lemma {:induction false} LastStep()
    ensures Next(Coefficients([18, 6, 4, 9, 27, 6]), Of(31), G) == Coefficients([0, 0, 0, 0, 0, 1])
  {
    ProductsOf18();
    NextIs([18, 6, 4, 9, 27, 6], 31, [0, 0, 0, 0, 0, 1], 6, 4, 9, 27, 30);
  }

  /// Whole addresses.

  lemma {:induction false} DivideNext(w: seq<Element>, a: seq<symbol>, v: symbol, g: seq<Element>)
    requires |w| + 1 == |g| && w != []
    ensures Divide(w, a + [v], g) == Next(Divide(w, a, g), Of(v), g)
  {
    assert (a + [v])[..|a|] == a;
  }

  /** A leading coefficient of nought is only moved out. */
  lemma {:induction false} NextNought(w: seq<Element>, v: Element, g: seq<Element>)
    requires |w| + 1 == |g| && w != [] && w[0] == Nought
    ensures Next(w, v, g) == w[1..] + [v]
  {
    forall j | 0 <= j < |w|
      ensures Next(w, v, g)[j] == (w + [v])[j + 1]
    {
      MulParts(Nought, g[j + 1]);
      AddNought((w + [v])[j + 1]);
    }
    assert (w + [v])[1..] == w[1..] + [v];
  }

  /** Nothing is divided while the first five symbols are brought down. */
  lemma {:induction false} FirstFive(values: seq<symbol>, g: seq<Element>)
    requires |values| <= 5 && |g| == 7
    ensures Divide(Noughts(5) + [Of(1)], values, g) == (Noughts(5) + [Of(1)] + Coefficients(values))[|values|..]
  {
    if values != [] {
      var n := |values| - 1;
      FirstFive(values[..n], g);
      NextNought(Divide(Noughts(5) + [Of(1)], values[..n], g), Of(values[n]), g);
      Moved(values, Noughts(5) + [Of(1)]);
    }
  }

  lemma {:induction false} Moved(values: seq<symbol>, w: seq<Element>)
    requires 0 < |values| <= |w|
    ensures (w + Coefficients(values[..|values| - 1]))[|values| - 1..][1..] + [Of(values[|values| - 1])] ==
            (w + Coefficients(values))[|values|..]
  {}

  lemma {:induction false} FiveRead(five: seq<symbol>, g: seq<Element>)
    requires |five| == 5 && |g| == 7
    ensures Divide(Noughts(5) + [Of(1)], five, g) == Coefficients([1] + five)
  {
    FirstFive(five, g);
    assert (Noughts(5) + [Of(1)] + Coefficients(five))[5..] == Coefficients([1] + five);
  }

  lemma {:induction false} DivideTo(w: seq<Element>, a: seq<symbol>, x: seq<Element>, v: symbol, u: seq<Element>, g: seq<Element>)
    requires |w| + 1 == |x| + 1 == |g| && w != [] && Divide(w, a, g) == x && Next(x, Of(v), g) == u
    ensures Divide(w, a + [v], g) == u
  {
    DivideNext(w, a, v, g);
  }

  lemma {:induction false} FourMore(t: seq<Element>, a: seq<symbol>, p: symbol, q: symbol, r: symbol, s: symbol,
                                    w: seq<Element>, x: seq<Element>, y: seq<Element>, z: seq<Element>, g: seq<Element>)
    requires |t| == |w| == |x| == |y| == |z| == 6 && |g| == 7 && Divide(t, a, g) == w
    requires Next(w, Of(p), g) == x && Next(x, Of(q), g) == y && Next(y, Of(r), g) == z && Next(z, Of(s), g) == t
    ensures Divide(t, a + [p] + [q] + [r] + [s], g) == t
  {
    DivideTo(t, a, w, p, x, g);
    DivideTo(t, a + [p], x, q, y, g);
    DivideTo(t, a + [p] + [q], y, r, z, g);
    DivideTo(t, a + [p] + [q] + [r], z, s, t, g);
  }

  lemma OneLeft()
    ensures Coefficients([0, 0, 0, 0, 0, 1]) == Noughts(5) + [Of(1)]
  {}

  lemma {:induction false} Checks(hrp: seq<ascii>, d: seq<symbol>)
    requires Divide(Noughts(5) + [Of(1)], Expanded(hrp) + d, G) == Noughts(5) + [Of(1)]
    ensures Sums(hrp, d)
  {
    OneElements();
    FoldDivides(ONE, Expanded(hrp) + d);
    ElementsInjective(Fold(ONE, Expanded(hrp) + d), ONE);
  }

  lemma {:induction false} LetterASums(hrp: seq<ascii>, d: seq<symbol>)
    requires hrp == "a" && d == [10, 28, 25, 31, 20, 31]
    ensures Sums(hrp, d)
  {
    LetterA1();
    LetterA2();
    LetterA3();
    LastStep();
    LetterAExpanded(hrp, d);
    FiveRead([3, 0, 1, 10, 28], G);
    OneLeft();
    FourMore(Noughts(5) + [Of(1)], [3, 0, 1, 10, 28], 25, 31, 20, 31, Coefficients([1, 3, 0, 1, 10, 28]),
             Coefficients([30, 22, 21, 31, 1, 11]), Coefficients([1, 15, 16, 16, 28, 6]),
             Coefficients([18, 6, 4, 9, 27, 6]), G);
    Checks(hrp, d);
  }

  lemma {:induction false} LetterAExpanded(hrp: seq<ascii>, d: seq<symbol>)
    requires hrp == "a" && d == [10, 28, 25, 31, 20, 31]
    ensures Expanded(hrp) + d == [3, 0, 1, 10, 28] + [25] + [31] + [20] + [31]
    ensures [1] + [3, 0, 1, 10, 28] == [1, 3, 0, 1, 10, 28]
  {
    HighPartAt(hrp, 0);
    LowPartAt(hrp, 0);
    assert HighPart(hrp) == [3] && LowPart(hrp) == [1];
  }

  lemma {:induction false} QuestionSums(hrp: seq<ascii>, d: seq<symbol>)
    requires hrp == "?" && d == [25, 2, 4, 9, 24, 31]
    ensures Sums(hrp, d)
  {
    Question1();
    Question2();
    Question3();
    LastStep();
    QuestionExpanded(hrp, d);
    FiveRead([1, 0, 31, 25, 2], G);
    OneLeft();
    FourMore(Noughts(5) + [Of(1)], [1, 0, 31, 25, 2], 4, 9, 24, 31, Coefficients([1, 1, 0, 31, 25, 2]),
             Coefficients([28, 22, 11, 12, 31, 22]), Coefficients([18, 20, 2, 13, 18, 29]),
             Coefficients([18, 6, 4, 9, 27, 6]), G);
    Checks(hrp, d);
  }

  lemma {:induction false} QuestionExpanded(hrp: seq<ascii>, d: seq<symbol>)
    requires hrp == "?" && d == [25, 2, 4, 9, 24, 31]
    ensures Expanded(hrp) + d == [1, 0, 31, 25, 2] + [4] + [9] + [24] + [31]
    ensures [1] + [1, 0, 31, 25, 2] == [1, 1, 0, 31, 25, 2]
  {
    HighPartAt(hrp, 0);
    LowPartAt(hrp, 0);
    assert HighPart(hrp) == [1] && LowPart(hrp) == [31];
  }

  lemma {:induction false} LetterAText()
    ensures Text("a", [10, 28, 25, 31, 20, 31]) == "a12uel5l" && Lower("A12UEL5L") == "a12uel5l"
  {
    assert Chars([10, 28, 25, 31, 20, 31]) == "2uel5l";
  }

  lemma {:induction false} QuestionText()
    ensures Text("?", [25, 2, 4, 9, 24, 31]) == "?1ezyfcl"
  {
    assert Chars([25, 2, 4, 9, 24, 31]) == "ezyfcl";
  }

  lemma {:induction false} Accepted(addr: string, hrp: seq<ascii>, d: seq<symbol>)
    requires Normal(addr) == Text(hrp, d) && hrp != [] && |d| >= 6 && Sums(hrp, d)
    ensures Accepts(addr, hrp)
  {}

  lemma {:induction false} NothingToTrim(s: string)
    requires s != "" && !IsSpace(s[0]) && !IsSpace(s[|s| - 1])
    ensures TrimSpace(s) == s
  {}

  /** A test vector of BIP-173 in upper case. */
  lemma {:induction false} UpperCaseAccepted()
    ensures Accepts("A12UEL5L", "a")
  {
    var d: seq<symbol> := [10, 28, 25, 31, 20, 31];
    LetterASums("a", d);
    LetterAText();
    NothingToTrim("A12UEL5L");
    Accepted("A12UEL5L", "a", d);
  }

  lemma {:induction false} EmptyPayload(hrp: seq<ascii>, d: seq<symbol>)
    requires |d| == 6 && Sums(hrp, d)
    ensures Encoding(hrp, []) == Text(hrp, d)
  {
    NarrowedRange([]);
    assert Payload([]) == [];
    assert [] + d == d;
    ChecksumForced(hrp, [], d);
  }

  /** Encoding no bytes at all gives test vectors of BIP-173. */
  lemma {:induction false} EmptyEncodings()
    ensures Encoding("a", []) == "a12uel5l" && Encoding("?", []) == "?1ezyfcl"
  {
    LetterASums("a", [10, 28, 25, 31, 20, 31]);
    QuestionSums("?", [25, 2, 4, 9, 24, 31]);
    LetterAText();
    QuestionText();
    EmptyPayload("a", [10, 28, 25, 31, 20, 31]);
    EmptyPayload("?", [25, 2, 4, 9, 24, 31]);
  }

  /// The parts of the codec that single addresses do not reach.

  lemma {:induction false} HighPartAt(hrp: seq<ascii>, k: nat)
    requires k < |hrp|
    ensures |HighPart(hrp)| == |hrp| && HighPart(hrp)[k] == hrp[k] as int / 32
  {
    var n := |hrp| - 1;
    PartLengths(hrp);
    PartLengths(hrp[..n]);
    if k < n {
      HighPartAt(hrp[..n], k);
    }
  }

  lemma {:induction false} LowPartAt(hrp: seq<ascii>, k: nat)
    requires k < |hrp|
    ensures |LowPart(hrp)| == |hrp| && LowPart(hrp)[k] == hrp[k] as int % 32
  {
    var n := |hrp| - 1;
    PartLengths(hrp);
    PartLengths(hrp[..n]);
    if k < n {
      LowPartAt(hrp[..n], k);
    }
  }

  lemma {:induction false} PartLengths(hrp: seq<ascii>)
    ensures |HighPart(hrp)| == |LowPart(hrp)| == |hrp|
  {
    if hrp != [] {
      PartLengths(hrp[..|hrp| - 1]);
    }
  }

  /** The prefix enters the checksum as its high halves, a zero, and its low halves, in order. */
  lemma {:induction false} ExpandedAt(hrp: seq<ascii>, k: nat)
    requires k < |hrp|
    ensures |Expanded(hrp)| == 2 * |hrp| + 1 && Expanded(hrp)[|hrp|] == 0
    ensures Expanded(hrp)[k] == hrp[k] as int / 32 && Expanded(hrp)[|hrp| + 1 + k] == hrp[k] as int % 32
  {
    PartLengths(hrp);
    HighPartAt(hrp, k);
    LowPartAt(hrp, k);
  }

  /** The charset of BIP-173 in its order. */
  lemma {:induction false} CharsetOrder()
    ensures Chars([0, 1, 2, 3, 4, 5, 6, 7, 8, 9, 10, 11, 12, 13, 14, 15, 16, 17, 18, 19, 20, 21, 22, 23, 24, 25, 26, 27,
                   28, 29, 30, 31]) == "qpzry9x8gf2tvdw0s3jn54khce6mua7l"
  {}

  /** Every letter has its small form. */
  lemma {:induction false} SmallLetters()
    ensures Lower("ABCDEFGHIJKLM") == "abcdefghijklm" && Lower("NOPQRSTUVWXYZ") == "nopqrstuvwxyz"
  {}
}
