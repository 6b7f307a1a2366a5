/// Splitting a file into lines and joining them again, as `setKeyInTable` does.

module TomlLines {

  const LF := "\n"
  const CRLF := "\r\n"

  /** `strings.Contains(text, "\r\n")`. */
  predicate HasCRLF(s: string) {
    |s| >= 2 && ((s[0] == '\r' && s[1] == '\n') || HasCRLF(s[1..]))
  }

  /** `strings.ReplaceAll(text, "\r\n", "\n")`. */
  function Normalize(s: string): string {
    if s == "" then ""
    else if |s| >= 2 && s[0] == '\r' && s[1] == '\n' then "\n" + Normalize(s[2..])
    else [s[0]] + Normalize(s[1..])
  }

  /** `strings.Split(s, "\n")`. */
  function Split(s: string): (lines: seq<string>)
    ensures lines != []
  {
    if s == "" then [""]
    else
      var rest := Split(s[1..]);
      if s[0] == '\n' then [""] + rest else [[s[0]] + rest[0]] + rest[1..]
  }

  /** `strings.Join(lines, nl)`. */
  function Join(lines: seq<string>, nl: string): string
    requires lines != []
  {
    if |lines| == 1 then lines[0] else lines[0] + nl + Join(lines[1..], nl)
  }

  function Eol(text: string): string {
    if HasCRLF(text) then CRLF else LF
  }

  function Lines(text: string): (lines: seq<string>)
    ensures lines != []
  {
    Split(Normalize(text))
  }

  /** Lines that joining and splitting again does not move. */
  predicate Joinable(lines: seq<string>, nl: string) {
    && lines != []
    && (nl == LF || nl == CRLF)
    && (forall k :: 0 <= k < |lines| ==> '\n' !in lines[k])
    && (nl == LF ==> forall k :: 0 <= k < |lines| - 1 ==> !EndsCR(lines[k]))
  }

  predicate EndsCR(s: string) {
    s != "" && s[|s| - 1] == '\r'
  }

  /// One line and what follows it.

  lemma {:induction false} SplitLine(l: string, rest: string)
    requires '\n' !in l
    ensures Split(l + ("\n" + rest)) == [l] + Split(rest)
  {
    if l == "" {
      assert l + ("\n" + rest) == "\n" + rest;
      assert ("\n" + rest)[1..] == rest;
    } else {
      var t := l + ("\n" + rest);
      assert t[1..] == l[1..] + ("\n" + rest);
      SplitLine(l[1..], rest);
      assert l == [l[0]] + l[1..];
    }
  }

  lemma {:induction false} SplitLast(l: string)
    requires '\n' !in l
    ensures Split(l) == [l]
  {
    if l != "" {
      SplitLast(l[1..]);
      assert l == [l[0]] + l[1..];
    }
  }

  lemma {:induction false} NormalizeLine(l: string, rest: string)
    requires '\n' !in l
    ensures Normalize(l + ("\r\n" + rest)) == l + ("\n" + Normalize(rest))
  {
    var t := l + ("\r\n" + rest);
    if l == "" {
      assert t == "\r\n" + rest;
      assert t[2..] == rest;
    } else {
      assert t[1..] == l[1..] + ("\r\n" + rest);
      assert t[1] == if |l| > 1 then l[1] else '\r';
      NormalizeLine(l[1..], rest);
      Headed(l, "\n" + Normalize(rest));
    }
  }

  lemma {:induction false} Headed(l: string, rest: string)
    requires l != ""
    ensures [l[0]] + (l[1..] + rest) == l + rest
  {}

  lemma {:induction false} NormalizeNothing(s: string)
    requires !HasCRLF(s)
    ensures Normalize(s) == s
  {
    if s != "" {
      if |s| >= 2 {
        NormalizeNothing(s[1..]);
      }
      assert s == [s[0]] + s[1..];
    }
  }

  lemma {:induction false} NoBreakNoCRLF(l: string)
    requires '\n' !in l
    ensures !HasCRLF(l)
  {
    if |l| >= 2 {
      NoBreakNoCRLF(l[1..]);
    }
  }

  lemma {:induction false} CRLFAfter(l: string, rest: string)
    ensures HasCRLF(l + ("\r\n" + rest))
  {
    if l == "" {
      assert l + ("\r\n" + rest) == "\r\n" + rest;
    } else {
      CRLFAfter(l[1..], rest);
      assert (l + ("\r\n" + rest))[1..] == l[1..] + ("\r\n" + rest);
    }
  }

  lemma {:induction false} LFAfter(l: string, rest: string)
    requires '\n' !in l
    ensures HasCRLF(l + ("\n" + rest)) <==> EndsCR(l) || HasCRLF(rest)
  {
    var t := l + ("\n" + rest);
    if l == "" {
      assert t == "\n" + rest;
      assert t[1..] == rest;
    } else {
      LFAfter(l[1..], rest);
      assert t[1..] == l[1..] + ("\n" + rest);
      assert t[1] == if |l| > 1 then l[1] else '\n';
    }
  }

  /// Whole files.

  lemma {:induction false} JoinMore(l: string, rest: seq<string>, nl: string)
    requires rest != []
    ensures Join([l] + rest, nl) == l + (nl + Join(rest, nl))
  {
    assert ([l] + rest)[1..] == rest;
  }

  lemma {:induction false} LinesOfJoinLF(lines: seq<string>)
    requires Joinable(lines, LF)
    ensures !HasCRLF(Join(lines, LF)) && Split(Join(lines, LF)) == lines
  {
    assert lines == [lines[0]] + lines[1..];
    if |lines| == 1 {
      NoBreakNoCRLF(lines[0]);
      SplitLast(lines[0]);
    } else {
      LinesOfJoinLF(lines[1..]);
      JoinMore(lines[0], lines[1..], LF);
      LFAfter(lines[0], Join(lines[1..], LF));
      SplitLine(lines[0], Join(lines[1..], LF));
    }
  }

  lemma {:induction false} LinesOfJoinCRLF(lines: seq<string>)
    requires Joinable(lines, CRLF)
    ensures HasCRLF(Join(lines, CRLF)) <==> |lines| > 1
    ensures Lines(Join(lines, CRLF)) == lines
  {
    assert lines == [lines[0]] + lines[1..];
    if |lines| == 1 {
      NoBreakNoCRLF(lines[0]);
      NormalizeNothing(lines[0]);
      SplitLast(lines[0]);
    } else {
      var rest := Join(lines[1..], CRLF);
      LinesOfJoinCRLF(lines[1..]);
      JoinMore(lines[0], lines[1..], CRLF);
      CRLFAfter(lines[0], rest);
      NormalizeLine(lines[0], rest);
      SplitLine(lines[0], Normalize(rest));
    }
  }

  /**
   * Writing lines and reading them back gives the same lines; the line ending is kept as
   * soon as there is one.
   */
  lemma {:induction false} LinesOfJoin(lines: seq<string>, nl: string)
    requires Joinable(lines, nl)
    ensures Lines(Join(lines, nl)) == lines
    ensures |lines| > 1 ==> Eol(Join(lines, nl)) == nl
  {
    if nl == LF {
      LinesOfJoinLF(lines);
      NormalizeNothing(Join(lines, LF));
    } else {
      LinesOfJoinCRLF(lines);
    }
  }

  lemma {:induction false} SplitNoBreak(s: string)
    ensures forall k :: 0 <= k < |Split(s)| ==> '\n' !in Split(s)[k]
  {
    if s != "" {
      SplitNoBreak(s[1..]);
    }
  }

  lemma {:induction false} JoinOfSplit(s: string)
    ensures Join(Split(s), LF) == s
  {
    if s != "" {
      var rest := Split(s[1..]);
      JoinOfSplit(s[1..]);
      if s[0] == '\n' {
        JoinMore("", rest, LF);
        assert "" + ("\n" + s[1..]) == s;
      } else {
        JoinGrow(s[0], rest, LF);
        assert [s[0]] + s[1..] == s;
      }
    }
  }

  lemma {:induction false} JoinGrow(c: char, lines: seq<string>, nl: string)
    requires lines != []
    ensures Join([[c] + lines[0]] + lines[1..], nl) == [c] + Join(lines, nl)
  {
    var grown := [[c] + lines[0]] + lines[1..];
    assert grown[1..] == lines[1..];
    if |lines| > 1 {
      assert ([c] + lines[0]) + nl + Join(lines[1..], nl) == [c] + (lines[0] + nl + Join(lines[1..], nl));
    }
  }

  lemma {:induction false} NoCRBeforeBreak(lines: seq<string>)
    requires lines != [] && !HasCRLF(Join(lines, LF)) && forall k :: 0 <= k < |lines| ==> '\n' !in lines[k]
    ensures forall k :: 0 <= k < |lines| - 1 ==> !EndsCR(lines[k])
  {
    if |lines| > 1 {
      var rest := lines[1..];
      assert lines == [lines[0]] + rest;
      JoinMore(lines[0], rest, LF);
      LFAfter(lines[0], Join(rest, LF));
      NoCRBeforeBreak(rest);
      forall k | 0 < k < |lines| - 1
        ensures !EndsCR(lines[k])
      {
        assert lines[k] == rest[k - 1];
      }
    }
  }

  /** The lines of any text are joinable with its line ending. */
  lemma {:induction false} TextJoinable(text: string)
    ensures Joinable(Lines(text), Eol(text))
  {
    SplitNoBreak(Normalize(text));
    if !HasCRLF(text) {
      NormalizeNothing(text);
      JoinOfSplit(text);
      NoCRBeforeBreak(Split(text));
    }
  }
}
