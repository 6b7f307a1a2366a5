/// The bytes an edit leaves alone: lines together with the line endings the file has.

module TomlEndings {
  import opened Sequences
  import opened TomlDocument
  import opened TomlEdit
  import opened TomlFile
  import opened TomlLines
  import opened TomlLiterals
  import opened TomlSearch
  import opened Wrappers

  /** A line as it stands in the file: its text and its own line ending, "" for the last one. */
  datatype Piece = Piece(line: string, end: string)

  function Pieces(s: string): (ps: seq<Piece>)
    ensures ps != []
    decreases |s|
  {
    if s == "" then [Piece("", "")]
    else if |s| >= 2 && s[0] == '\r' && s[1] == '\n' then [Piece("", CRLF)] + Pieces(s[2..])
    else if s[0] == '\n' then [Piece("", LF)] + Pieces(s[1..])
    else Grow(s[0], Pieces(s[1..]))
  }

  function Grow(c: char, ps: seq<Piece>): (r: seq<Piece>)
    requires ps != []
    ensures |r| == |ps| && r[0] == Piece([c] + ps[0].line, ps[0].end) && r[1..] == ps[1..]
  {
    [Piece([c] + ps[0].line, ps[0].end)] + ps[1..]
  }

  function Glue(ps: seq<Piece>): string {
    if ps == [] then "" else ps[0].line + ps[0].end + Glue(ps[1..])
  }

  function LinesIn(ps: seq<Piece>): (lines: seq<string>)
    ensures |lines| == |ps| && forall k :: 0 <= k < |ps| ==> lines[k] == ps[k].line
  {
    seq(|ps|, k requires 0 <= k < |ps| => ps[k].line)
  }

  /** Every line but the last ends with one of the two line endings, the last one with nothing. */
  predicate WellEnded(ps: seq<Piece>) {
    && ps != [] && ps[|ps| - 1].end == ""
    && forall k :: 0 <= k < |ps| - 1 ==> ps[k].end == LF || ps[k].end == CRLF
  }

  predicate Uniform(ps: seq<Piece>, nl: string) {
    forall k :: 0 <= k < |ps| - 1 ==> ps[k].end == nl
  }

  /** Every line break is a CRLF. */
  predicate AllCRLF(s: string) {
    forall k :: 0 <= k < |s| && s[k] == '\n' ==> k > 0 && s[k - 1] == '\r'
  }

  /// Taking a text apart.

  lemma {:induction false} GlueCons(p: Piece, ps: seq<Piece>)
    ensures Glue([p] + ps) == p.line + p.end + Glue(ps)
  {
    assert ([p] + ps)[1..] == ps;
  }

  lemma {:induction false} HeadEnding(s: string, end: string)
    requires end <= s
    ensures s == "" + end + s[|end|..]
  {}

  lemma {:induction false} HeadChar(s: string)
    requires s != ""
    ensures s == [s[0]] + s[1..]
  {}

  lemma {:induction false} GluePieces(s: string)
    ensures Glue(Pieces(s)) == s
    decreases |s|
  {
    if s != "" {
      if |s| >= 2 && s[0] == '\r' && s[1] == '\n' {
        GluePieces(s[2..]);
        GlueCons(Piece("", CRLF), Pieces(s[2..]));
        HeadEnding(s, CRLF);
      } else if s[0] == '\n' {
        GluePieces(s[1..]);
        GlueCons(Piece("", LF), Pieces(s[1..]));
        HeadEnding(s, LF);
      } else {
        GluePieces(s[1..]);
        GlueGrow(s[0], Pieces(s[1..]));
        HeadChar(s);
      }
    }
  }

  lemma {:induction false} GlueGrow(c: char, ps: seq<Piece>)
    requires ps != []
    ensures Glue(Grow(c, ps)) == [c] + Glue(ps)
  {
    assert ([c] + ps[0].line) + ps[0].end + Glue(ps[1..]) == [c] + (ps[0].line + ps[0].end + Glue(ps[1..]));
  }

  lemma {:induction false} LinesInCons(p: Piece, ps: seq<Piece>)
    ensures LinesIn([p] + ps) == [p.line] + LinesIn(ps)
  {}

  lemma {:induction false} LinesInGrow(c: char, ps: seq<Piece>)
    requires ps != []
    ensures LinesIn(Grow(c, ps)) == [[c] + LinesIn(ps)[0]] + LinesIn(ps)[1..]
  {
    LinesInCons(Piece([c] + ps[0].line, ps[0].end), ps[1..]);
    assert LinesIn(ps)[1..] == LinesIn(ps[1..]);
  }

  lemma {:induction false} LinesAfterBreak(s: string, n: nat)
    requires n <= |s| && Normalize(s) == "\n" + Normalize(s[n..])
    ensures Lines(s) == [""] + Lines(s[n..])
  {
    assert Normalize(s)[1..] == Normalize(s[n..]);
  }

  lemma {:induction false} LinesAfterChar(s: string)
    requires s != "" && s[0] != '\n' && Normalize(s) == [s[0]] + Normalize(s[1..])
    ensures Lines(s) == [[s[0]] + Lines(s[1..])[0]] + Lines(s[1..])[1..]
  {
    assert Normalize(s)[1..] == Normalize(s[1..]);
  }

  lemma {:induction false} LinesOfPieces(s: string)
    ensures LinesIn(Pieces(s)) == Lines(s)
    decreases |s|
  {
    if s == "" {
      assert Lines(s) == [""];
    } else if |s| >= 2 && s[0] == '\r' && s[1] == '\n' {
      LinesOfPieces(s[2..]);
      LinesInCons(Piece("", CRLF), Pieces(s[2..]));
      LinesAfterBreak(s, 2);
    } else if s[0] == '\n' {
      LinesOfPieces(s[1..]);
      LinesInCons(Piece("", LF), Pieces(s[1..]));
      LinesAfterBreak(s, 1);
    } else {
      LinesOfPieces(s[1..]);
      LinesInGrow(s[0], Pieces(s[1..]));
      LinesAfterChar(s);
    }
  }

  lemma {:induction false} PiecesWellEnded(s: string)
    ensures WellEnded(Pieces(s))
    decreases |s|
  {
    if s != "" {
      if |s| >= 2 && s[0] == '\r' && s[1] == '\n' {
        PiecesWellEnded(s[2..]);
      } else {
        PiecesWellEnded(s[1..]);
        if s[0] != '\n' {
          GrowEnded(s[0], Pieces(s[1..]));
        }
      }
    }
  }

  lemma {:induction false} GrowEnded(c: char, ps: seq<Piece>)
    requires ps != []
    ensures forall k :: 0 <= k < |ps| ==> Grow(c, ps)[k].end == ps[k].end
    ensures WellEnded(Grow(c, ps)) <==> WellEnded(ps)
  {
    forall k | 0 < k < |ps|
      ensures Grow(c, ps)[k] == ps[k]
    {
      assert Grow(c, ps)[1..][k - 1] == ps[1..][k - 1];
    }
  }

  predicate AnyCRLF(ps: seq<Piece>) {
    exists k :: 0 <= k < |ps| && ps[k].end == CRLF
  }

  lemma {:induction false} AnyCons(p: Piece, ps: seq<Piece>)
    ensures AnyCRLF([p] + ps) <==> p.end == CRLF || AnyCRLF(ps)
  {
    var qs := [p] + ps;
    assert qs[0] == p && forall k :: 0 <= k < |ps| ==> qs[k + 1] == ps[k];
    if AnyCRLF(qs) {
      var k :| 0 <= k < |qs| && qs[k].end == CRLF;
      assert k > 0 ==> ps[k - 1].end == CRLF;
    }
    if AnyCRLF(ps) {
      var k :| 0 <= k < |ps| && ps[k].end == CRLF;
      assert qs[k + 1].end == CRLF;
    }
  }

  lemma {:induction false} AnyGrow(c: char, ps: seq<Piece>)
    requires ps != []
    ensures AnyCRLF(Grow(c, ps)) <==> AnyCRLF(ps)
  {
    assert ps == [ps[0]] + ps[1..];
    AnyCons(ps[0], ps[1..]);
    AnyCons(Piece([c] + ps[0].line, ps[0].end), ps[1..]);
  }

  lemma {:induction false} CRLFInPieces(s: string)
    ensures HasCRLF(s) <==> AnyCRLF(Pieces(s))
    decreases |s|
  {
    if s != "" {
      if |s| >= 2 && s[0] == '\r' && s[1] == '\n' {
        AnyCons(Piece("", CRLF), Pieces(s[2..]));
      } else if s[0] == '\n' {
        CRLFInPieces(s[1..]);
        AnyCons(Piece("", LF), Pieces(s[1..]));
      } else {
        CRLFInPieces(s[1..]);
        AnyGrow(s[0], Pieces(s[1..]));
      }
    }
  }

  lemma {:induction false} AllCRLFInPieces(s: string)
    ensures AllCRLF(s) <==> Uniform(Pieces(s), CRLF)
    decreases |s|
  {
    if s != "" {
      var ps := Pieces(s);
      if |s| >= 2 && s[0] == '\r' && s[1] == '\n' {
        AllCRLFInPieces(s[2..]);
        AfterCRLF(s);
        UniformCons(Piece("", CRLF), Pieces(s[2..]), CRLF);
      } else if s[0] == '\n' {
        assert ps[0].end == LF && |ps| > 1;
      } else {
        AllCRLFInPieces(s[1..]);
        AfterOther(s);
        GrowEnded(s[0], Pieces(s[1..]));
      }
    }
  }

  lemma {:induction false} AfterCRLF(s: string)
    requires |s| >= 2 && s[0] == '\r' && s[1] == '\n'
    ensures AllCRLF(s) <==> AllCRLF(s[2..])
  {
    assert forall k :: 0 <= k < |s| - 2 ==> s[2..][k] == s[k + 2];
    assert forall k :: 2 <= k < |s| ==> s[k] == s[2..][k - 2];
  }

  lemma {:induction false} AfterOther(s: string)
    requires s != "" && s[0] != '\n' && !(|s| >= 2 && s[0] == '\r' && s[1] == '\n')
    ensures AllCRLF(s) <==> AllCRLF(s[1..])
  {
    assert forall k :: 0 <= k < |s| - 1 ==> s[1..][k] == s[k + 1];
    assert forall k :: 1 <= k < |s| ==> s[k] == s[1..][k - 1];
  }

  lemma {:induction false} UniformCons(p: Piece, ps: seq<Piece>, nl: string)
    requires ps != [] && p.end == nl
    ensures Uniform([p] + ps, nl) <==> Uniform(ps, nl)
  {
    assert forall k :: 0 <= k < |ps| ==> ([p] + ps)[k + 1] == ps[k];
  }

  /** A file has one line ending throughout exactly if it has no CRLF or nothing else. */
  lemma {:induction false} UniformIff(text: string)
    ensures Uniform(Pieces(text), Eol(text)) <==> !HasCRLF(text) || AllCRLF(text)
  {
    PiecesWellEnded(text);
    CRLFInPieces(text);
    AllCRLFInPieces(text);
  }

  /// Joining with one line ending.

  lemma {:induction false} LinesInRest(ps: seq<Piece>)
    requires ps != []
    ensures LinesIn(ps)[1..] == LinesIn(ps[1..])
  {}

  /** Joining with CRLF makes a text longer, unless that is what its lines end with. */
  lemma {:induction false} GlueLength(ps: seq<Piece>)
    requires WellEnded(ps)
    ensures |Glue(ps)| <= |Join(LinesIn(ps), CRLF)|
    ensures |Glue(ps)| == |Join(LinesIn(ps), CRLF)| ==> Uniform(ps, CRLF)
  {
    if |ps| > 1 {
      assert ps == [ps[0]] + ps[1..];
      GlueLength(ps[1..]);
      LinesInRest(ps);
      if ps[0].end == CRLF {
        UniformCons(ps[0], ps[1..], CRLF);
      }
    } else {
      assert ps[1..] == [];
    }
  }

  lemma {:induction false} GlueUniform(ps: seq<Piece>, nl: string)
    requires WellEnded(ps) && Uniform(ps, nl)
    ensures Glue(ps) == Join(LinesIn(ps), nl)
  {
    if |ps| > 1 {
      assert ps == [ps[0]] + ps[1..];
      UniformCons(ps[0], ps[1..], nl);
      GlueUniform(ps[1..], nl);
      LinesInRest(ps);
    } else {
      assert ps[1..] == [];
    }
  }

  lemma {:induction false} GlueIsJoin(ps: seq<Piece>, nl: string)
    requires WellEnded(ps) && (nl == CRLF || Uniform(ps, nl))
    ensures Glue(ps) == Join(LinesIn(ps), nl) <==> Uniform(ps, nl)
  {
    if Uniform(ps, nl) {
      GlueUniform(ps, nl);
    } else {
      GlueLength(ps);
    }
  }

  /** Splitting and joining gives a text back exactly if it does not mix its line endings. */
  lemma {:induction false} UnmixedKept(text: string)
    ensures Join(Lines(text), Eol(text)) == text <==> !HasCRLF(text) || AllCRLF(text)
  {
    GluePieces(text);
    LinesOfPieces(text);
    PiecesWellEnded(text);
    UniformIff(text);
    GlueIsJoin(Pieces(text), Eol(text));
  }

  /// Edits.

  /** The file with lines `i` to `i + n` replaced by `l`, and every byte around them as it was. */
  function Patched(ps: seq<Piece>, i: nat, n: nat, l: string): string
    requires n > 0 && i + n <= |ps|
  {
    Glue(ps[..i]) + (l + ps[i + n - 1].end + Glue(ps[i + n..]))
  }

  /** Outside the lines `i` to `i + n`, and after the last of them, every line ends with `nl`. */
  predicate UniformOutside(ps: seq<Piece>, i: nat, n: nat, nl: string) {
    forall k :: 0 <= k < |ps| - 1 && !(i <= k < i + n - 1) ==> ps[k].end == nl
  }

  function Swapped(ps: seq<Piece>, i: nat, n: nat, l: string): seq<Piece>
    requires n > 0 && i + n <= |ps|
  {
    ps[..i] + [Piece(l, ps[i + n - 1].end)] + ps[i + n..]
  }

  lemma {:induction false} GlueConcat(a: seq<Piece>, b: seq<Piece>)
    ensures Glue(a + b) == Glue(a) + Glue(b)
  {
    if a == [] {
      assert a + b == b;
    } else {
      GlueConcat(a[1..], b);
      GlueCons(a[0], a[1..] + b);
      assert a == [a[0]] + a[1..];
      ConcatAssociates([a[0]], a[1..], b);
      ConcatAssociates(a[0].line + a[0].end, Glue(a[1..]), Glue(b));
    }
  }

  lemma {:induction false} GlueSwapped(ps: seq<Piece>, i: nat, n: nat, l: string)
    requires n > 0 && i + n <= |ps|
    ensures Glue(Swapped(ps, i, n, l)) == Patched(ps, i, n, l)
  {
    var p := Piece(l, ps[i + n - 1].end);
    GlueConcat(ps[..i], [p] + ps[i + n..]);
    assert ([p] + ps[i + n..])[1..] == ps[i + n..];
    assert Swapped(ps, i, n, l) == ps[..i] + ([p] + ps[i + n..]);
  }

  lemma {:induction false} SwappedAt(ps: seq<Piece>, i: nat, n: nat, l: string, k: nat)
    requires n > 0 && i + n <= |ps| && k < |Swapped(ps, i, n, l)|
    ensures Swapped(ps, i, n, l)[k] ==
            if k < i then ps[k] else if k == i then Piece(l, ps[i + n - 1].end) else ps[k + n - 1]
  {}

  lemma {:induction false} SwappedEnds(ps: seq<Piece>, i: nat, n: nat, l: string, nl: string)
    requires WellEnded(ps) && n > 0 && i + n <= |ps|
    ensures WellEnded(Swapped(ps, i, n, l))
    ensures Uniform(Swapped(ps, i, n, l), nl) <==> UniformOutside(ps, i, n, nl)
  {
    var qs := Swapped(ps, i, n, l);
    forall k | 0 <= k < |qs|
      ensures qs[k].end == ps[if k < i then k else k + n - 1].end
    {
      SwappedAt(ps, i, n, l, k);
    }
    forall k | 0 <= k < |ps| - 1 && !(i <= k < i + n - 1)
      ensures ps[k].end == qs[if k < i then k else k - (n - 1)].end
    {
      SwappedAt(ps, i, n, l, if k < i then k else k - (n - 1));
    }
  }

  lemma {:induction false} SwappedLines(ps: seq<Piece>, lines: seq<string>, out: seq<string>, i: nat, n: nat, e: Edit)
    requires LinesIn(ps) == lines && ReplacesSpan(lines, out, i, n, e)
    ensures LinesIn(Swapped(ps, i, n, NewLine(lines[i], e.key, e.literal))) == out
  {
    var qs := Swapped(ps, i, n, NewLine(lines[i], e.key, e.literal));
    forall k | 0 <= k < |qs|
      ensures qs[k].line == out[k]
    {
      SwappedAt(ps, i, n, NewLine(lines[i], e.key, e.literal), k);
    }
  }

  lemma {:induction false} GlueThree(ps: seq<Piece>, i: nat, n: nat)
    requires i + n <= |ps|
    ensures Glue(ps) == Glue(ps[..i]) + (Glue(ps[i..i + n]) + Glue(ps[i + n..]))
  {
    GlueConcat(ps[i..i + n], ps[i + n..]);
    GlueConcat(ps[..i], ps[i..i + n] + ps[i + n..]);
    InThree(ps, i, n);
  }

  lemma {:induction false} InThree(ps: seq<Piece>, i: nat, n: nat)
    requires i + n <= |ps|
    ensures ps == ps[..i] + (ps[i..i + n] + ps[i + n..])
  {}

  /** Where an edit is made in the file's own lines: its place, and as many lines as the value takes. */
  predicate EditedAt(text: string, e: Edit, i: nat, n: nat) {
    var ps := Pieces(text);
    && i == Place(LinesIn(ps), "", e)
    && n > 0 && i + n <= |ps|
    && text == Glue(ps[..i]) + (Glue(ps[i..i + n]) + Glue(ps[i + n..]))
    && Span(LinesIn(ps)[i..], 0) == Some(n)
  }

  /**
   * A successful edit leaves every byte outside the value's lines, line endings included, exactly if
   * the lines around end like the file's first CRLF says; a file that does not mix line endings is
   * such a file.
   */
  lemma {:induction false} EditBytes(text: string, e: Edit) returns (i: nat, n: nat, out: seq<string>)
    requires SetText(text, e.table, e.key, e.literal).Some?
    ensures EditedAt(text, e, i, n)
    ensures ReplacesSpan(Lines(text), out, i, n, e)
    ensures SetText(text, e.table, e.key, e.literal) == Some(Join(out, Eol(text)))
    ensures var ps := Pieces(text);
            SetText(text, e.table, e.key, e.literal) == Some(Patched(ps, i, n, NewLine(ps[i].line, e.key, e.literal)))
            <==> UniformOutside(ps, i, n, Eol(text))
    ensures !HasCRLF(text) || AllCRLF(text) ==> UniformOutside(Pieces(text), i, n, Eol(text))
  {
    var ps, lines, nl := Pieces(text), Lines(text), Eol(text);
    out := SetLines(lines, "", e.table, e.key, e.literal).value;
    i, n := OneSpanReplaced(lines, "", e);
    LinesOfPieces(text);
    PiecesWellEnded(text);
    UniformIff(text);
    GluePieces(text);
    GlueThree(ps, i, n);
    SwappedJoin(ps, lines, out, i, n, e, nl);
    if nl == LF {
      assert Uniform(ps, nl);
    }
  }

  lemma {:induction false} SwappedJoin(ps: seq<Piece>, lines: seq<string>, out: seq<string>, i: nat, n: nat, e: Edit, nl: string)
    requires LinesIn(ps) == lines && WellEnded(ps) && ReplacesSpan(lines, out, i, n, e)
    requires nl == CRLF || Uniform(ps, nl)
    ensures Join(out, nl) == Patched(ps, i, n, NewLine(ps[i].line, e.key, e.literal)) <==> UniformOutside(ps, i, n, nl)
  {
    var l := NewLine(lines[i], e.key, e.literal);
    SwappedLines(ps, lines, out, i, n, e);
    SwappedEnds(ps, i, n, l, nl);
    GlueSwapped(ps, i, n, l);
    GlueIsJoin(Swapped(ps, i, n, l), nl);
  }

  /// A file that is changed elsewhere.

  lemma {:induction false} MixedLines(l: string, m: string)
    requires '\n' !in l && '\n' !in m && !EndsCR(m)
    ensures var text := l + ("\r\n" + (m + ("\n" + "")));
            Lines(text) == [l, m, ""] && Eol(text) == CRLF
  {
    var rest := m + ("\n" + "");
    LFAfter(m, "");
    NormalizeNothing(rest);
    NormalizeLine(l, rest);
    CRLFAfter(l, rest);
    SplitLine(m, "");
    SplitLine(l, rest);
  }

  /** Whatever the two lines are, editing the first one changes the ending of the second one. */
  lemma {:induction false} MixedChanged(l: string, m: string, e: Edit)
    requires '\n' !in l && '\n' !in m && !EndsCR(m)
    requires e.table == "" && TableHeader(l).None? && IsKeyLine(l, e.key) && !NoValue(l) && Delta(l, Plain) <= 0
    ensures SetText(l + ("\r\n" + (m + ("\n" + ""))), e.table, e.key, e.literal) ==
            Some(NewLine(l, e.key, e.literal) + ("\r\n" + (m + ("\r\n" + ""))))
  {
    var lines := [l, m, ""];
    var written := NewLine(l, e.key, e.literal);
    MixedLines(l, m);
    assert lines[1..] == [m, ""];
    assert Span(lines, 0) == Some(1);
    assert SetLines(lines, "", e.table, e.key, e.literal) == Some([written] + [m, ""]);
    JoinMore(written, [m, ""], CRLF);
    JoinMore(m, [""], CRLF);
    assert [m] + [""] == [m, ""];
  }

  lemma {:induction false} ExampleLiteral(v: string)
    requires v == "1" || v == "9"
    ensures BareKey("a") && Literal(v) && NewLine("", "a", v) == "a = " + v
  {
    assert v[1..] == "";
    assert Delta(v, Plain) == 0;
  }

  lemma {:induction false} ExampleTexts()
    ensures "a = 1" + ("\r\n" + ("b = 2" + ("\n" + ""))) == "a = 1\r\nb = 2\n"
    ensures "a = 9" + ("\r\n" + ("b = 2" + ("\r\n" + ""))) == "a = 9\r\nb = 2\r\n"
  {}

  lemma {:induction false} ExampleLines()
    ensures "a = " + "1" == "a = 1" && "a = " + "9" == "a = 9"
  {}

  lemma {:induction false} ExampleEdit()
    ensures SetText("a = 1" + ("\r\n" + ("b = 2" + ("\n" + ""))), "", "a", "9") ==
            Some("a = 9" + ("\r\n" + ("b = 2" + ("\r\n" + ""))))
  {
    ExampleLines();
    ExampleLiteral("1");
    ExampleLiteral("9");
    NewLineEntry("", "a", "1");
    NewLineIndent("", "a", "1", "9");
    MixedChanged("a = 1", "b = 2", Edit("", "a", "9"));
  }

  lemma {:induction false} MixedExample()
    ensures SetText("a = 1\r\nb = 2\n", "", "a", "9") == Some("a = 9\r\nb = 2\r\n")
  {
    ExampleTexts();
    ExampleEdit();
  }
}
