/// The bech32 codec (BIP-173) of `internal/bech32`. Prefixes are ASCII; addresses are any strings.

module Bech32 {
  import opened GoInts
  import opened GoStrings
  import opened CheckRegister
  import opened Checksum
  import Regroup

  type ascii = c: char | c as int < 128

  datatype Result = Ok(text: string) | Error

  const CHARSET := "qpzry9x8gf2tvdw0s3jn54khce6mua7l"

  /// Characters and symbols.

  /** The symbol a character of the charset stands for, -1 for every other character. */
  function SymbolOf(c: char): (v: int)
    ensures v < 32
  {
    match c
    case 'q' => 0 case 'p' => 1 case 'z' => 2 case 'r' => 3 case 'y' => 4 case '9' => 5 case 'x' => 6 case '8' => 7
    case 'g' => 8 case 'f' => 9 case '2' => 10 case 't' => 11 case 'v' => 12 case 'd' => 13 case 'w' => 14
    case '0' => 15 case 's' => 16 case '3' => 17 case 'j' => 18 case 'n' => 19 case '5' => 20 case '4' => 21
    case 'k' => 22 case 'h' => 23 case 'c' => 24 case 'e' => 25 case '6' => 26 case 'm' => 27 case 'u' => 28
    case 'a' => 29 case '7' => 30 case 'l' => 31
    case _ => -1
  }

  lemma SymbolOfChar(v: symbol)
    ensures |CHARSET| == 32 && SymbolOf(CHARSET[v]) == v
  {}

  lemma CharOfSymbol(c: char)
    requires SymbolOf(c) >= 0
    ensures |CHARSET| == 32 && CHARSET[SymbolOf(c)] == c
  {}

  /** `strings.IndexRune(charset, c)`. */
  lemma {:induction false} CharsetIndex(c: char)
    ensures |CHARSET| == 32 && IndexByte(CHARSET, c) == if SymbolOf(c) >= 0 then SymbolOf(c) else -1
    ensures SymbolOf(c) >= 0 ==> CHARSET[SymbolOf(c)] == c
  {
    var i := IndexByte(CHARSET, c);
    if i >= 0 {
      SymbolOfChar(i);
    } else if SymbolOf(c) >= 0 {
      CharOfSymbol(c);
      assert false;
    }
  }

  /** Charset characters are lower case and no white space, and '1' is not among them. */
  lemma CharsetPlain(v: symbol)
    ensures |CHARSET| == 32 && CHARSET[v] != '1' && LowerChar(CHARSET[v]) == CHARSET[v] && !IsSpace(CHARSET[v])
  {}

  function Chars(d: seq<symbol>): (s: string)
    ensures |s| == |d|
  {
    seq(|d|, i requires 0 <= i < |d| => CHARSET[d[i]])
  }

  /**
   * `unicode.ToLower` as far as the codec can tell: beside the capital letters only two characters,
   * dotted capital I and the Kelvin sign, fold to ASCII; what else lies outside ASCII stays there.
   */
  function LowerChar(c: char): char {
    if 'A' <= c <= 'Z' then c + 32 as char
    else if c == '\U{130}' then 'i'
    else if c == '\U{212A}' then 'k'
    else c
  }

  /** `strings.ToLower`. */
  function Lower(s: string): (t: string)
    ensures |t| == |s|
  {
    seq(|s|, i requires 0 <= i < |s| => LowerChar(s[i]))
  }

  /// The shape of an address.

  function HighPart(hrp: seq<ascii>): seq<symbol> {
    if hrp == [] then [] else HighPart(hrp[..|hrp| - 1]) + [hrp[|hrp| - 1] as int / 32]
  }

  function LowPart(hrp: seq<ascii>): seq<symbol> {
    if hrp == [] then [] else LowPart(hrp[..|hrp| - 1]) + [hrp[|hrp| - 1] as int % 32]
  }

  function Expanded(hrp: seq<ascii>): seq<symbol> {
    HighPart(hrp) + [0] + LowPart(hrp)
  }

  function Text(hrp: string, d: seq<symbol>): string {
    hrp + "1" + Chars(d)
  }

  /** `d` ends with the checksum of `hrp` and the symbols before it. */
  predicate Sums(hrp: seq<ascii>, d: seq<symbol>) {
    Fold(ONE, Expanded(hrp) + d) == ONE
  }

  function Normal(addr: string): string {
    Lower(TrimSpace(addr))
  }

  /** What BIP-173 asks of an address with prefix `hrp`, once it is trimmed and lower-cased. */
  ghost predicate Accepts(addr: string, hrp: seq<ascii>) {
    exists d :: Normal(addr) == Text(hrp, d) && hrp != [] && |d| >= 6 && Sums(hrp, d)
  }

  method HrpExpand(hrp: seq<ascii>) returns (out: seq<symbol>)
    ensures out == Expanded(hrp)
  {
    out := [];
    for i := 0 to |hrp|
      invariant out == HighPart(hrp[..i])
    {
      assert hrp[..i + 1][..i] == hrp[..i];
      out := out + [hrp[i] as int / 32];
    }
    assert hrp[..|hrp|] == hrp;
    out := out + [0];
    for i := 0 to |hrp|
      invariant out == HighPart(hrp) + [0] + LowPart(hrp[..i])
    {
      assert hrp[..i + 1][..i] == hrp[..i];
      out := out + [hrp[i] as int % 32];
    }
  }

  /** The last '1' of an address separates prefix and data, because no symbol is written '1'. */
  lemma {:induction false} Separator(hrp: string, d: seq<symbol>)
    ensures LastIndexByte(Text(hrp, d), '1') == |hrp|
  {
    var t := Text(hrp, d);
    assert t[|hrp|] == '1';
    forall k | |hrp| < k < |t|
      ensures t[k] != '1'
    {
      CharsetPlain(d[k - |hrp| - 1]);
    }
  }

  lemma {:induction false} CharsInjective(d: seq<symbol>, e: seq<symbol>)
    requires Chars(d) == Chars(e)
    ensures d == e
  {
    assert |d| == |Chars(d)| == |Chars(e)| == |e|;
    forall k | 0 <= k < |d|
      ensures d[k] == e[k]
    {
      assert Chars(d)[k] == Chars(e)[k];
      SymbolOfChar(d[k]);
      SymbolOfChar(e[k]);
    }
  }

  lemma {:induction false} TextInjective(h: string, d: seq<symbol>, g: string, e: seq<symbol>)
    requires Text(h, d) == Text(g, e)
    ensures h == g && d == e
  {
    Separator(h, d);
    Separator(g, e);
    assert h == Text(h, d)[..|h|] == Text(g, e)[..|g|] == g;
    assert Chars(d) == Text(h, d)[|h| + 1..] == Text(g, e)[|g| + 1..] == Chars(e);
    CharsInjective(d, e);
  }

  lemma {:induction false} SumIsOne(r: register)
    ensures FromBits(r) == 1 <==> r == ONE
  {
    RegisterOne();
    ToFromBits(r);
  }

  predicate InCharset(text: string) {
    forall i :: 0 <= i < |text| ==> SymbolOf(text[i]) >= 0
  }

  lemma {:induction false} CharsAppend(d: seq<symbol>, c: char)
    requires SymbolOf(c) >= 0
    ensures Chars(d + [SymbolOf(c)]) == Chars(d) + [c]
  {
    CharOfSymbol(c);
  }

  lemma {:induction false} ReadNext(text: string, i: nat, data: seq<symbol>)
    requires i < |text| && InCharset(text[..i]) && text[..i] == Chars(data) && SymbolOf(text[i]) >= 0
    ensures InCharset(text[..i + 1]) && text[..i + 1] == Chars(data + [SymbolOf(text[i])])
  {
    CharsAppend(data, text[i]);
    assert text[..i + 1] == text[..i] + [text[i]];
  }

  /** The source's scan of the characters after the separator. */
  method ReadSymbols(text: string) returns (ok: bool, data: seq<symbol>)
    ensures ok <==> InCharset(text)
    ensures ok ==> text == Chars(data)
  {
    ok, data := true, [];
    for i := 0 to |text|
      invariant ok && InCharset(text[..i]) && text[..i] == Chars(data)
    {
      var idx := IndexByte(CHARSET, text[i]);
      CharsetIndex(text[i]);
      if idx < 0 {
        return false, data;
      }
      ReadNext(text, i, data);
      data := data + [idx];
    }
    assert text[..|text|] == text;
  }

  method IsValid(addr0: string, hrp: seq<ascii>) returns (valid: bool)
    ensures valid <==> Accepts(addr0, hrp)
  {
    var addr := Lower(TrimSpace(addr0));
    var pos := LastIndexByte(addr, '1');
    if pos < 1 || pos + 7 > |addr| {
      NoSeparator(addr0, hrp, pos);
      return false;
    }
    if addr[..pos] != hrp {
      OtherPrefix(addr0, hrp, pos);
      return false;
    }
    var ok, data := ReadSymbols(addr[pos + 1..]);
    if !ok {
      BadCharacter(addr0, hrp, pos);
      return false;
    }
    Assemble(addr, pos, hrp, data);
    var values := HrpExpand(hrp);
    var chk := Polymod(values + data);
    SumIsOne(Fold(ONE, Expanded(hrp) + data));
    OneReading(addr0, hrp, data);
    return chk == 1;
  }

  lemma {:induction false} Assemble(addr: string, pos: nat, hrp: string, d: seq<symbol>)
    requires pos < |addr| && addr[pos] == '1' && addr[..pos] == hrp && addr[pos + 1..] == Chars(d)
    ensures addr == Text(hrp, d) && |addr| == pos + 1 + |d|
  {}

  lemma {:induction false} NoSeparator(addr: string, hrp: seq<ascii>, pos: int)
    requires pos == LastIndexByte(Normal(addr), '1')
    requires pos < 1 || pos + 7 > |Normal(addr)|
    ensures !Accepts(addr, hrp)
  {
    if Accepts(addr, hrp) {
      var d :| Normal(addr) == Text(hrp, d) && hrp != [] && |d| >= 6 && Sums(hrp, d);
      Separator(hrp, d);
    }
  }

  lemma {:induction false} TextPrefix(hrp: string, d: seq<symbol>)
    ensures Text(hrp, d)[..|hrp|] == hrp && Text(hrp, d)[|hrp| + 1..] == Chars(d)
  {}

  lemma {:induction false} OtherPrefix(addr: string, hrp: seq<ascii>, pos: nat)
    requires pos == LastIndexByte(Normal(addr), '1') && Normal(addr)[..pos] != hrp
    ensures !Accepts(addr, hrp)
  {
    if Accepts(addr, hrp) {
      var d :| Normal(addr) == Text(hrp, d) && hrp != [] && |d| >= 6 && Sums(hrp, d);
      Separator(hrp, d);
      TextPrefix(hrp, d);
    }
  }

  lemma {:induction false} CharsInCharset(d: seq<symbol>)
    ensures InCharset(Chars(d))
  {
    forall i | 0 <= i < |d|
      ensures SymbolOf(Chars(d)[i]) >= 0
    {
      SymbolOfChar(d[i]);
    }
  }

  lemma {:induction false} BadCharacter(addr: string, hrp: seq<ascii>, pos: nat)
    requires pos == LastIndexByte(Normal(addr), '1')
    requires !InCharset(Normal(addr)[pos + 1..])
    ensures !Accepts(addr, hrp)
  {
    if Accepts(addr, hrp) {
      var d :| Normal(addr) == Text(hrp, d) && hrp != [] && |d| >= 6 && Sums(hrp, d);
      DataInCharset(hrp, d, pos);
    }
  }

  lemma {:induction false} DataInCharset(hrp: string, d: seq<symbol>, pos: nat)
    requires pos == LastIndexByte(Text(hrp, d), '1')
    ensures InCharset(Text(hrp, d)[pos + 1..])
  {
    Separator(hrp, d);
    TextPrefix(hrp, d);
    CharsInCharset(d);
  }

  lemma {:induction false} OneReading(addr: string, hrp: seq<ascii>, d: seq<symbol>)
    requires Normal(addr) == Text(hrp, d)
    ensures Accepts(addr, hrp) <==> hrp != [] && |d| >= 6 && Sums(hrp, d)
  {
    if Accepts(addr, hrp) {
      var e :| Normal(addr) == Text(hrp, e) && hrp != [] && |e| >= 6 && Sums(hrp, e);
      TextInjective(hrp, d, hrp, e);
    }
  }

  /**
   * Burst errors: two accepted addresses of one prefix that differ only inside a window of
   * six consecutive characters are the same address. Neither the length nor the place matters.
   */
  lemma {:induction false} BurstErrorsRejected(a: string, b: string, hrp: seq<ascii>, start: nat)
    requires |Normal(a)| == |Normal(b)|
    requires forall k :: 0 <= k < |Normal(a)| && !(start <= k < start + 6) ==> Normal(a)[k] == Normal(b)[k]
    requires Accepts(a, hrp) && Accepts(b, hrp)
    ensures Normal(a) == Normal(b)
  {
    var d :| Normal(a) == Text(hrp, d) && hrp != [] && |d| >= 6 && Sums(hrp, d);
    var e :| Normal(b) == Text(hrp, e) && hrp != [] && |e| >= 6 && Sums(hrp, e);
    var off := |hrp| + 1;
    forall k | 0 <= k < |d| && !(start - off <= k < start - off + 6)
      ensures d[k] == e[k]
    {
      SameSymbol(hrp, d, e, k);
    }
    SymbolBurst(ONE, Expanded(hrp), d, e, start - off);
  }

  lemma {:induction false} SameSymbol(hrp: string, d: seq<symbol>, e: seq<symbol>, k: nat)
    requires k < |d| == |e| && Text(hrp, d)[|hrp| + 1 + k] == Text(hrp, e)[|hrp| + 1 + k]
    ensures d[k] == e[k]
  {
    SymbolOfChar(d[k]);
    SymbolOfChar(e[k]);
  }

  lemma {:induction false} SymbolBurst(c: register, p: seq<symbol>, d: seq<symbol>, e: seq<symbol>, at: int)
    requires |d| == |e| && Fold(c, p + d) == Fold(c, p + e)
    requires forall k :: 0 <= k < |d| && !(at <= k < at + 6) ==> d[k] == e[k]
    ensures d == e
  {
    var lo: nat := if at < 0 then 0 else if at > |d| then |d| else at;
    var hi: nat := if at + 6 < lo then lo else if at + 6 > |d| then |d| else at + 6;
    SameSlice(d, e, 0, lo);
    SameSlice(d, e, hi, |d|);
    InThree(p, d, lo, hi);
    InThree(p, e, lo, hi);
    BurstDetected(c, p + d[0..lo], d[lo..hi], e[lo..hi], d[hi..|d|]);
  }

  lemma {:induction false} SameSlice(d: seq<symbol>, e: seq<symbol>, i: nat, j: nat)
    requires i <= j <= |d| == |e| && forall k :: i <= k < j ==> d[k] == e[k]
    ensures d[i..j] == e[i..j]
  {}

  lemma {:induction false} InThree(p: seq<symbol>, d: seq<symbol>, lo: nat, hi: nat)
    requires lo <= hi <= |d|
    ensures p + d == (p + d[0..lo]) + d[lo..hi] + d[hi..|d|]
    ensures d == d[0..lo] + d[lo..hi] + d[hi..|d|]
  {}

  /// Encoding.

  /** The payload as five-bit symbols. */
  function Payload(data: seq<byte>): seq<symbol> {
    NarrowedRange(data);
    AsSymbols(Regroup.Regrouped(data, 8, 5, true).values)
  }

  function AsSymbols(s: seq<byte>): seq<symbol>
    requires forall k :: 0 <= k < |s| ==> s[k] < 32
  {
    s
  }

  lemma {:induction false} NarrowedRange(data: seq<byte>)
    ensures Regroup.InRange(data, 8)
    ensures Regroup.Regrouped(data, 8, 5, true).Symbols?
    ensures var s := Regroup.Regrouped(data, 8, 5, true).values; forall k :: 0 <= k < |s| ==> s[k] < 32
  {
    Pow2Values();
    Regroup.RegroupedValue(data, 8, 5);
  }

  /** The register after prefix and payload. */
  function Before(hrp: seq<ascii>, d: seq<symbol>): register {
    Fold(ONE, Expanded(hrp) + d)
  }

  function Encoding(hrp: seq<ascii>, data: seq<byte>): string {
    Text(hrp, Payload(data) + ChecksumOf(Before(hrp, Payload(data))))
  }

  method Encode(hrp: seq<ascii>, data: seq<byte>) returns (r: Result)
    ensures r == Ok(Encoding(hrp, data))
  {
    NarrowedRange(data);
    var conv := Regroup.ConvertBits(data, 8, 5, true);
    if conv.InvalidRange? || conv.InvalidPadding? {
      return Error;
    }
    var d := AsSymbols(conv.values);
    var values := HrpExpand(hrp);
    values := values + d;
    var chk := Polymod(values + [0, 0, 0, 0, 0, 0]);
    ghost var c := Before(hrp, d);
    SixZeros(values);
    var pm := BitXor(chk, 1);
    FinalXor(Fold(c, ZeroSymbols(6)));
    var text := AppendPayload(hrp, d);
    text := AppendChecksum(hrp, d, text, pm, c);
    return Ok(text);
  }

  method AppendPayload(hrp: string, d: seq<symbol>) returns (text: string)
    ensures text == Text(hrp, d)
  {
    text := hrp + "1";
    for i := 0 to |d|
      invariant text == Text(hrp, d[..i])
    {
      TextAppend(hrp, d[..i], d[i]);
      assert d[..i + 1] == d[..i] + [d[i]];
      text := text + [CHARSET[d[i]]];
    }
    assert d[..|d|] == d;
  }

  method AppendChecksum(ghost hrp: seq<ascii>, ghost d: seq<symbol>, text0: string, pm: nat, ghost c: register)
    returns (text: string)
    requires text0 == Text(hrp, d) && pm == FromBits(XorSeq(Fold(c, ZeroSymbols(6)), ONE))
    ensures text == Text(hrp, d + ChecksumOf(c))
  {
    text := text0;
    assert d + ChecksumOf(c)[..0] == d;
    for i := 0 to 6
      invariant text == Text(hrp, d + ChecksumOf(c)[..i])
    {
      ChecksumChar(hrp, d, pm, c, i);
      text := text + [CHARSET[pm / Pow2(5 * (5 - i)) % 0x20]];
    }
    assert ChecksumOf(c)[..6] == ChecksumOf(c);
  }

  lemma {:induction false} ChecksumChar(hrp: string, d: seq<symbol>, pm: nat, c: register, i: nat)
    requires i < 6 && pm == FromBits(XorSeq(Fold(c, ZeroSymbols(6)), ONE))
    ensures |CHARSET| == 32
    ensures Text(hrp, d + ChecksumOf(c)[..i + 1]) ==
            Text(hrp, d + ChecksumOf(c)[..i]) + [CHARSET[pm / Pow2(5 * (5 - i)) % 0x20]]
  {
    var w := ChecksumOf(c);
    SymbolNumber(XorSeq(Fold(c, ZeroSymbols(6)), ONE), i);
    TextAppend(hrp, d + w[..i], w[i]);
    assert d + w[..i + 1] == (d + w[..i]) + [w[i]];
  }

  lemma {:induction false} TextAppend(hrp: string, d: seq<symbol>, v: symbol)
    ensures |CHARSET| == 32 && Text(hrp, d + [v]) == Text(hrp, d) + [CHARSET[v]]
  {
    assert Chars(d + [v]) == Chars(d) + [CHARSET[v]];
  }

  lemma {:induction false} SixZeros(values: seq<symbol>)
    ensures Fold(ONE, values + [0, 0, 0, 0, 0, 0]) == Fold(Fold(ONE, values), ZeroSymbols(6))
  {
    FoldConcat(ONE, values, ZeroSymbols(6));
    assert ZeroSymbols(6) == [0, 0, 0, 0, 0, 0];
  }

  lemma {:induction false} FinalXor(z: register)
    ensures BitXor(FromBits(z), 1) == FromBits(XorSeq(z, ONE))
  {
    RegisterOne();
    XorBits(z, ONE);
  }

  /// What encoding promises.

  lemma {:induction false} EncodingSums(hrp: seq<ascii>, data: seq<byte>)
    ensures Sums(hrp, Payload(data) + ChecksumOf(Before(hrp, Payload(data))))
  {
    var d := Payload(data);
    var w := ChecksumOf(Before(hrp, d));
    ChecksumForced(hrp, d, w);
  }

  lemma {:induction false} FoldTail(c: register, p: seq<symbol>, d: seq<symbol>, w: seq<symbol>)
    ensures Fold(c, p + (d + w)) == Fold(Fold(c, p + d), w)
  {
    FoldConcat(c, p + d, w);
    assert p + (d + w) == (p + d) + w;
  }

  /** The six symbols `Encode` appends are the only six that make the address accepted. */
  lemma {:induction false} ChecksumForced(hrp: seq<ascii>, d: seq<symbol>, w: seq<symbol>)
    requires |w| == 6
    ensures Sums(hrp, d + w) <==> w == ChecksumOf(Before(hrp, d))
  {
    ChecksumUnique(Before(hrp, d), w);
    FoldTail(ONE, Expanded(hrp), d, w);
  }

  /** Which prefixes give addresses that `IsValid` accepts for that prefix: all it can match. */
  lemma {:induction false} EncodingAccepted(hrp: seq<ascii>, data: seq<byte>)
    ensures Accepts(Encoding(hrp, data), hrp) <==> hrp != [] && !IsSpace(hrp[0]) && Lower(hrp) == hrp
  {
    var d := Payload(data) + ChecksumOf(Before(hrp, Payload(data)));
    var t := Text(hrp, d);
    EncodingSums(hrp, data);
    if hrp != [] && !IsSpace(hrp[0]) && Lower(hrp) == hrp {
      LastCharKept(hrp, d);
      assert TrimSpace(t) == t;
      LowerText(hrp, d);
      assert Normal(t) == Text(hrp, d);
    } else if hrp != [] {
      NotNormal(hrp, d);
    }
  }

  lemma {:induction false} LowerText(hrp: string, d: seq<symbol>)
    ensures Lower(Text(hrp, d)) == Text(Lower(hrp), d)
  {
    forall k | 0 <= k < |d|
      ensures LowerChar(Chars(d)[k]) == Chars(d)[k]
    {
      CharsetPlain(d[k]);
    }
  }

  /** Trimming an address leaves a tail of it that starts with no white space. */
  lemma {:induction false} TrimText(hrp: string, d: seq<symbol>)
    requires d != []
    ensures var t, u := Text(hrp, d), TrimSpace(Text(hrp, d));
            && 0 < |u| <= |t| && !IsSpace(u[0]) && (|u| == |t| ==> u == t)
  {
    var t := Text(hrp, d);
    CharsetPlain(d[|d| - 1]);
    assert t[|t| - 1] == CHARSET[d[|d| - 1]];
    TrimKeepsEnd(t);
  }

  lemma LowerKeepsSpace(c: char)
    ensures IsSpace(LowerChar(c)) <==> IsSpace(c)
  {}

  lemma {:induction false} NotNormal(hrp: seq<ascii>, d: seq<symbol>)
    requires hrp != [] && d != [] && (IsSpace(hrp[0]) || Lower(hrp) != hrp)
    ensures !Accepts(Text(hrp, d), hrp)
  {
    TrimText(hrp, d);
    var t, u := Text(hrp, d), TrimSpace(Text(hrp, d));
    if Accepts(t, hrp) {
      var e :| Normal(t) == Text(hrp, e) && hrp != [] && |e| >= 6 && Sums(hrp, e);
      assert Text(hrp, e)[0] == hrp[0] == LowerChar(u[0]);
      LowerKeepsSpace(u[0]);
      assert t[0] == hrp[0] && !IsSpace(t[0]);
      assert TrimLeftSpace(t) == t;
      LastCharKept(hrp, d);
      LowerText(hrp, d);
      TextInjective(Lower(hrp), d, hrp, e);
    }
  }

  lemma {:induction false} LastChar(hrp: string, d: seq<symbol>)
    requires d != []
    ensures !IsSpace(Text(hrp, d)[|Text(hrp, d)| - 1])
  {
    CharsetPlain(d[|d| - 1]);
    assert Text(hrp, d)[|Text(hrp, d)| - 1] == CHARSET[d[|d| - 1]];
  }

  lemma {:induction false} NothingTrimmed(s: string)
    requires s != "" && !IsSpace(s[|s| - 1])
    ensures TrimRightSpace(s) == s
  {}

  lemma {:induction false} LastCharKept(hrp: string, d: seq<symbol>)
    requires d != []
    ensures TrimRightSpace(Text(hrp, d)) == Text(hrp, d)
  {
    LastChar(hrp, d);
    NothingTrimmed(Text(hrp, d));
  }

  /** An encoded address determines its prefix and its payload. */
  lemma {:induction false} EncodingInjective(h: seq<ascii>, x: seq<byte>, g: seq<ascii>, y: seq<byte>)
    requires Encoding(h, x) == Encoding(g, y)
    ensures h == g && x == y
  {
    var v, w := ChecksumOf(Before(h, Payload(x))), ChecksumOf(Before(g, Payload(y)));
    TextInjective(h, Payload(x) + v, g, Payload(y) + w);
    assert Payload(x) == (Payload(x) + v)[..|Payload(x)|] == (Payload(y) + w)[..|Payload(y)|] == Payload(y);
    NarrowedRange(x);
    NarrowedRange(y);
    Regroup.RoundTrip(x, 8, 5);
    Regroup.RoundTrip(y, 8, 5);
  }
}
