/// What the scanner makes of text as TOML spells it: headers, values over several lines, comments
/// and strings that hold brackets. Nothing here is stated through the scanner's own counting.

module TomlShapes {
  import opened GoStrings
  import opened Sequences
  import opened TomlDocument
  import opened TomlEdit
  import opened TomlKeys
  import opened TomlLines
  import opened TomlLiterals
  import opened TomlSearch
  import opened Wrappers

  /// Pieces of a line.

  /** What a line of a value is made of. */
  datatype Token = Words(s: string) | Quoted(s: string) | Raw(s: string) | Open | Close

  predicate WellFormed(t: Token) {
    match t
    case Words(s) => forall k :: 0 <= k < |s| ==> s[k] !in "\"'#[]"
    case Quoted(s) => Escaped(s)
    case Raw(s) => '\'' !in s
    case _ => true
  }

  /** The inside of a basic string: every quote is escaped and no escape is left open. */
  predicate Escaped(s: string)
    decreases |s|
  {
    if s == "" then true
    else if s[0] == '\\' then |s| > 1 && Escaped(s[2..])
    else s[0] != '"' && Escaped(s[1..])
  }

  function Spelled(t: Token): string {
    match t
    case Words(s) => s
    case Quoted(s) => "\"" + s + "\""
    case Raw(s) => "'" + s + "'"
    case Open => "["
    case Close => "]"
  }

  function SpellAll(ts: seq<Token>): string {
    if ts == [] then "" else Spelled(ts[0]) + SpellAll(ts[1..])
  }

  predicate AllWellFormed(ts: seq<Token>) {
    forall k :: 0 <= k < |ts| ==> WellFormed(ts[k])
  }

  /** How many more brackets are opened than closed, strings and words not counting. */
  function Depth(ts: seq<Token>): int {
    if ts == [] then 0
    else Depth(ts[1..]) + if ts[0].Open? then 1 else if ts[0].Close? then -1 else 0
  }

  /** Nothing, or a comment. */
  predicate Comment(c: string) {
    c == "" || c[0] == '#'
  }

  lemma {:induction false} QuotedDelta(s: string, rest: string)
    requires Escaped(s)
    ensures Delta(s + ("\"" + rest), In('"')) == Delta(rest, Plain)
    decreases |s|
  {
    var t := s + ("\"" + rest);
    if s == "" {
      assert t == "\"" + rest && t[1..] == rest;
    } else if s[0] == '\\' {
      assert t[2..] == s[2..] + ("\"" + rest);
      QuotedDelta(s[2..], rest);
    } else {
      assert t[1..] == s[1..] + ("\"" + rest);
      QuotedDelta(s[1..], rest);
    }
  }

  lemma {:induction false} RawDelta(s: string, rest: string)
    requires '\'' !in s
    ensures Delta(s + ("'" + rest), In('\'')) == Delta(rest, Plain)
    decreases |s|
  {
    var t := s + ("'" + rest);
    if s == "" {
      assert t == "'" + rest && t[1..] == rest;
    } else {
      assert t[1..] == s[1..] + ("'" + rest);
      RawDelta(s[1..], rest);
    }
  }

  lemma {:induction false} BasicString(s: string, rest: string)
    requires Escaped(s)
    ensures Delta("\"" + s + "\"" + rest, Plain) == Delta(rest, Plain)
  {
    assert ("\"" + s + "\"" + rest)[1..] == s + ("\"" + rest);
    QuotedDelta(s, rest);
  }

  lemma {:induction false} LiteralString(s: string, rest: string)
    requires '\'' !in s
    ensures Delta("'" + s + "'" + rest, Plain) == Delta(rest, Plain)
  {
    assert ("'" + s + "'" + rest)[1..] == s + ("'" + rest);
    RawDelta(s, rest);
  }

  lemma {:induction false} TokenDelta(t: Token, rest: string)
    requires WellFormed(t)
    ensures Delta(Spelled(t) + rest, Plain) == Delta(rest, Plain) + if t.Open? then 1 else if t.Close? then -1 else 0
  {
    match t {
      case Words(s) =>
        QuietPrefix(s, rest);
      case Quoted(s) =>
        BasicString(s, rest);
      case Raw(s) =>
        LiteralString(s, rest);
      case _ =>
        assert (Spelled(t) + rest)[1..] == rest;
    }
  }

  /** The scanner's count of a line is the balance of the brackets outside strings and comments. */
  lemma {:induction false} CountIsDepth(ts: seq<Token>, c: string)
    requires AllWellFormed(ts) && Comment(c)
    ensures Delta(SpellAll(ts) + c, Plain) == Depth(ts)
  {
    if ts == [] {
      assert "" + c == c;
    } else {
      CountIsDepth(ts[1..], c);
      TokenDelta(ts[0], SpellAll(ts[1..]) + c);
      ConcatAssociates(Spelled(ts[0]), SpellAll(ts[1..]), c);
    }
  }

  /// Values over several lines.

  /** A line of a value and the comment behind it. */
  datatype ValueLine = ValueLine(tokens: seq<Token>, comment: string)

  function TextOf(v: ValueLine): string {
    SpellAll(v.tokens) + v.comment
  }

  function Texts(vs: seq<ValueLine>): (lines: seq<string>)
    ensures |lines| == |vs|
  {
    seq(|vs|, k requires 0 <= k < |vs| => TextOf(vs[k]))
  }

  predicate GoodLine(v: ValueLine) {
    AllWellFormed(v.tokens) && Comment(v.comment)
  }

  predicate GoodLines(vs: seq<ValueLine>) {
    forall k :: 0 <= k < |vs| ==> GoodLine(vs[k])
  }

  /** Brackets stay open, `depth` of them at first, up to the last line, which closes the last one. */
  predicate ClosesAtEnd(vs: seq<ValueLine>, depth: int)
    decreases |vs|
  {
    && vs != []
    && var d := depth + Depth(vs[0].tokens);
       if |vs| == 1 then d <= 0 else d > 0 && ClosesAtEnd(vs[1..], d)
  }

  predicate NeverCloses(vs: seq<ValueLine>, depth: int)
    decreases |vs|
  {
    vs == [] || (depth + Depth(vs[0].tokens) > 0 && NeverCloses(vs[1..], depth + Depth(vs[0].tokens)))
  }

  /** The scanner's step over one line. */
  lemma {:induction false} SpanStep(line: string, rest: seq<string>, depth: int, d: int)
    requires d == depth + Delta(line, Plain)
    ensures Span([line] + rest, depth) ==
            if d <= 0 then Some(1) else match Span(rest, d) case Some(n) => Some(n + 1) case None => None
  {
    assert ([line] + rest)[1..] == rest;
  }

  lemma {:induction false} TextsOpened(vs: seq<ValueLine>, after: seq<string>)
    requires vs != []
    ensures Texts(vs) + after == [TextOf(vs[0])] + (Texts(vs[1..]) + after)
  {}

  /** The value the scanner replaces ends where its brackets close. */
  lemma {:induction false} SpanIsValue(vs: seq<ValueLine>, depth: int, after: seq<string>)
    requires GoodLines(vs) && ClosesAtEnd(vs, depth)
    ensures Span(Texts(vs) + after, depth) == Some(|vs|)
    decreases |vs|
  {
    var d := depth + Depth(vs[0].tokens);
    CountIsDepth(vs[0].tokens, vs[0].comment);
    TextsOpened(vs, after);
    SpanStep(TextOf(vs[0]), Texts(vs[1..]) + after, depth, d);
    if |vs| > 1 {
      SpanIsValue(vs[1..], d, after);
    }
  }

  lemma {:induction false} OpenHasNoSpan(vs: seq<ValueLine>, depth: int)
    requires GoodLines(vs) && NeverCloses(vs, depth)
    ensures Span(Texts(vs), depth) == None
    decreases |vs|
  {
    if vs != [] {
      var d := depth + Depth(vs[0].tokens);
      CountIsDepth(vs[0].tokens, vs[0].comment);
      OpenHasNoSpan(vs[1..], d);
      assert Texts(vs) == [TextOf(vs[0])] + Texts(vs[1..]);
      SpanStep(TextOf(vs[0]), Texts(vs[1..]), depth, d);
    }
  }

  /// Reaching the key.

  /** Blanks and tabs. */
  predicate Margin(s: string) {
    forall k :: 0 <= k < |s| ==> s[k] == ' ' || s[k] == '\t'
  }

  lemma {:induction false} MarginBlank(s: string)
    requires Margin(s)
    ensures Blanks(s)
  {}

  /** The table in force after a line, and after several. */
  function Next(line: string, cur: string): string {
    match TableHeader(line) case Some(name) => name case None => cur
  }

  function Cursor(lines: seq<string>, cur: string): string
    decreases |lines|
  {
    if lines == [] then cur else Cursor(lines[1..], Next(lines[0], cur))
  }

  predicate NoKeyLine(lines: seq<string>, key: string) {
    forall k :: 0 <= k < |lines| ==> !IsKeyLine(lines[k], key)
  }

  /** A step of the search that is not the edit's. */
  lemma {:induction false} StepPast(line: string, rest: seq<string>, cur: string, e: Edit)
    requires !IsKeyLine(line, e.key)
    ensures SetLines([line] + rest, cur, e.table, e.key, e.literal) ==
            Prepend([line], SetLines(rest, Next(line, cur), e.table, e.key, e.literal))
  {
    assert ([line] + rest)[1..] == rest;
  }

  lemma {:induction false} Passed(lines: seq<string>, rest: seq<string>, cur: string, e: Edit)
    requires NoKeyLine(lines, e.key)
    ensures SetLines(lines + rest, cur, e.table, e.key, e.literal) ==
            Prepend(lines, SetLines(rest, Cursor(lines, cur), e.table, e.key, e.literal))
    decreases |lines|
  {
    if lines == [] {
      assert lines + rest == rest;
      PrependNothing(SetLines(rest, cur, e.table, e.key, e.literal));
    } else {
      assert forall k :: 0 <= k < |lines| - 1 ==> lines[1..][k] == lines[k + 1];
      Passed(lines[1..], rest, Next(lines[0], cur), e);
      FirstApart(lines, rest);
      StepPast(lines[0], lines[1..] + rest, cur, e);
      PassedOne(lines, SetLines(rest, Cursor(lines, cur), e.table, e.key, e.literal));
    }
  }

  lemma {:induction false} PassedOne(lines: seq<string>, tail: Option<seq<string>>)
    requires lines != []
    ensures Prepend([lines[0]], Prepend(lines[1..], tail)) == Prepend(lines, tail)
  {
    PrependTwice([lines[0]], lines[1..], tail);
    assert [lines[0]] + lines[1..] == lines;
  }

  /** The first line of a value: margin, key, equals sign, and the value's beginning. */
  function KeyLine(margin: string, key: string, v: string): string {
    margin + key + " = " + v
  }

  lemma {:induction false} KeyLineFacts(margin: string, key: string, v: string, literal: string)
    requires Margin(margin) && BareKey(key) && v != "" && !IsSpace(v[0])
    ensures TableHeader(KeyLine(margin, key, v)).None? && IsKeyLine(KeyLine(margin, key, v), key)
    ensures !NoValue(KeyLine(margin, key, v))
    ensures Delta(KeyLine(margin, key, v), Plain) == Delta(v, Plain)
    ensures NewLine(KeyLine(margin, key, v), key, literal) == KeyLine(margin, key, literal)
  {
    MarginBlank(margin);
    LineForm(margin, key, v);
    NewLineNoHeader(margin, key, v);
    ShapeRead(margin, key, " ", " " + v);
    NewLineValue(margin, key, v);
    NewLineDelta(margin, key, v);
    IndentIs(margin, key, v);
  }

  lemma {:induction false} IndentIs(margin: string, key: string, v: string)
    requires Blanks(margin) && BareKey(key)
    ensures Indent(KeyLine(margin, key, v)) == margin
  {
    var tail := key + " = " + v;
    LineForm(margin, key, v);
    TrimBlanksOff(margin, tail);
    assert BareChar(key[0]) && tail[0] == key[0];
    assert TrimBlanks(tail) == tail;
    assert (margin + tail)[..|margin|] == margin;
  }

  /** Lines in front of the value: whatever they hold, the key is not among them and its table is in force. */
  predicate Leads(before: seq<string>, table: string, key: string) {
    NoKeyLine(before, key) && Cursor(before, "") == table
  }

  /** Once the search is at the key's line, the edit is what becomes of the lines from there on. */
  lemma {:induction false} Reached(text: string, before: seq<string>, line: string, tail: seq<string>, e: Edit)
    requires Leads(before, e.table, e.key) && TableHeader(line).None? && IsKeyLine(line, e.key)
    requires Lines(text) == before + ([line] + tail)
    ensures SetText(text, e.table, e.key, e.literal) ==
            match Replaced([line] + tail, e.key, e.literal)
            case Some(out) => if before + out == [] then None else Some(Join(before + out, Eol(text)))
            case None => None
  {
    Passed(before, [line] + tail, "", e);
  }

  /** The value's brackets close with the last of its lines and no earlier. */
  predicate Closes(first: ValueLine, more: seq<ValueLine>) {
    if more == [] then Depth(first.tokens) <= 0
    else Depth(first.tokens) > 0 && ClosesAtEnd(more, Depth(first.tokens))
  }

  predicate Begun(s: string) {
    s != "" && !IsSpace(s[0])
  }

  lemma {:induction false} KeyLineDelta(margin: string, key: string, first: ValueLine)
    requires Margin(margin) && BareKey(key) && GoodLine(first)
    ensures Delta(KeyLine(margin, key, TextOf(first)), Plain) == Depth(first.tokens)
  {
    MarginBlank(margin);
    NewLineDelta(margin, key, TextOf(first));
    CountIsDepth(first.tokens, first.comment);
  }

  lemma {:induction false} SpanFrom(line: string, d: int, more: seq<ValueLine>, after: seq<string>)
    requires Delta(line, Plain) == d && GoodLines(more)
    requires if more == [] then d <= 0 else d > 0 && ClosesAtEnd(more, d)
    ensures Span([line] + (Texts(more) + after), 0) == Some(1 + |more|)
  {
    SpanStep(line, Texts(more) + after, 0, d);
    if more != [] {
      SpanIsValue(more, d, after);
    }
  }

  lemma {:induction false} ValueSpan(margin: string, key: string, first: ValueLine, more: seq<ValueLine>, after: seq<string>)
    requires Margin(margin) && BareKey(key) && GoodLine(first) && GoodLines(more) && Closes(first, more)
    ensures Span([KeyLine(margin, key, TextOf(first))] + (Texts(more) + after), 0) == Some(1 + |more|)
  {
    KeyLineDelta(margin, key, first);
    SpanFrom(KeyLine(margin, key, TextOf(first)), Depth(first.tokens), more, after);
  }

  /**
   * A value of any number of lines, strings and comments with brackets included, is replaced from its
   * key to the line that closes its last bracket, and nothing else is.
   */
  lemma {:induction false} ValueReplaced(text: string, before: seq<string>, margin: string, first: ValueLine,
                                         more: seq<ValueLine>, after: seq<string>, e: Edit)
    requires Leads(before, e.table, e.key) && Margin(margin) && BareKey(e.key)
    requires GoodLine(first) && GoodLines(more) && Closes(first, more) && Begun(TextOf(first))
    requires Lines(text) == before + ([KeyLine(margin, e.key, TextOf(first))] + (Texts(more) + after))
    ensures SetText(text, e.table, e.key, e.literal) ==
            Some(Join(before + ([KeyLine(margin, e.key, e.literal)] + after), Eol(text)))
  {
    var line, tail := KeyLine(margin, e.key, TextOf(first)), Texts(more) + after;
    KeyLineFacts(margin, e.key, TextOf(first), e.literal);
    ValueSpan(margin, e.key, first, more, after);
    Reached(text, before, line, tail, e);
    ReplacedSpan(line, tail, 1 + |more|, e);
    assert tail[|more|..] == after;
  }

  lemma {:induction false} ReplacedSpan(line: string, tail: seq<string>, n: nat, e: Edit)
    requires Span([line] + tail, 0) == Some(n) && !NoValue(line)
    ensures Replaced([line] + tail, e.key, e.literal) == Some([NewLine(line, e.key, e.literal)] + tail[n - 1..])
  {
    assert ([line] + tail)[n..] == tail[n - 1..];
  }

  /** An array that is never closed makes the edit fail. */
  lemma {:induction false} UnclosedFails(text: string, before: seq<string>, margin: string, first: ValueLine,
                                         more: seq<ValueLine>, e: Edit)
    requires Leads(before, e.table, e.key) && Margin(margin) && BareKey(e.key)
    requires GoodLine(first) && GoodLines(more) && Begun(TextOf(first))
    requires Depth(first.tokens) > 0 && NeverCloses(more, Depth(first.tokens))
    requires Lines(text) == before + ([KeyLine(margin, e.key, TextOf(first))] + Texts(more))
    ensures SetText(text, e.table, e.key, e.literal) == None
  {
    var line := KeyLine(margin, e.key, TextOf(first));
    KeyLineFacts(margin, e.key, TextOf(first), e.literal);
    CountIsDepth(first.tokens, first.comment);
    OpenHasNoSpan(more, Depth(first.tokens));
    SpanStep(line, Texts(more), 0, Depth(first.tokens));
    Reached(text, before, line, Texts(more), e);
  }

  /** So does a value that starts on a later line. */
  lemma {:induction false} ValueOnNextLineFails(text: string, before: seq<string>, margin: string, gap: string,
                                                after: seq<string>, e: Edit)
    requires Leads(before, e.table, e.key) && Margin(margin) && BareKey(e.key) && Margin(gap)
    requires Lines(text) == before + ([margin + e.key + " " + "=" + gap] + after)
    ensures SetText(text, e.table, e.key, e.literal) == None
  {
    var line := margin + e.key + " " + "=" + gap;
    EmptyLineFacts(margin, e.key, gap);
    NothingAfterEquals(margin, e.key, gap);
    Reached(text, before, line, after, e);
    assert ([line] + after)[0] == line;
  }

  lemma {:induction false} EmptyLineFacts(margin: string, key: string, gap: string)
    requires Margin(margin) && BareKey(key)
    ensures TableHeader(margin + key + " " + "=" + gap).None? && IsKeyLine(margin + key + " " + "=" + gap, key)
  {
    MarginBlank(margin);
    ShapeRead(margin, key, " ", gap);
    assert BareChar(key[0]);
    NoHeaderBefore(margin, key + " " + "=" + gap);
    assert margin + key + " " + "=" + gap == margin + (key + " " + "=" + gap);
  }

  lemma {:induction false} AllTrimmed(s: string)
    requires Margin(s)
    ensures TrimSpace(s) == ""
  {
    if s != "" {
      AllTrimmed(s[1..]);
    }
  }

  lemma {:induction false} NothingAfterEquals(margin: string, key: string, gap: string)
    requires Margin(margin) && BareKey(key) && Margin(gap)
    ensures NoValue(margin + key + " " + "=" + gap)
  {
    var u := margin + key + " ";
    forall k | 0 <= k < |u|
      ensures u[k] != '='
    {
      if |margin| <= k < |margin + key| {
        assert BareChar(key[k - |margin|]);
      }
    }
    FirstIndex(u, gap);
    assert (u + "=" + gap)[|u| + 1..] == gap;
    AllTrimmed(gap);
  }

  /// Arrays as they are usually written.

  /** One item of an array on a line of its own, with its margin and what follows the comma. */
  datatype Row = Row(margin: string, item: string, gap: string, comment: string)

  function RowText(r: Row): string {
    r.margin + TomlString(r.item) + "," + r.gap + r.comment
  }

  predicate GoodRow(r: Row) {
    Margin(r.margin) && Margin(r.gap) && Comment(r.comment)
  }

  function RowLine(r: Row): ValueLine {
    ValueLine([Words(r.margin), Quoted(EscapeAll(r.item)), Words("," + r.gap)], r.comment)
  }

  lemma {:induction false} EscapeIsEscaped(s: string)
    ensures Escaped(EscapeAll(s))
  {
    if s != "" {
      EscapeIsEscaped(s[1..]);
      EscapedOne(s[0], EscapeAll(s[1..]));
    }
  }

  lemma {:induction false} EscapedOne(c: char, tail: string)
    requires Escaped(tail)
    ensures Escaped(Escape(c) + tail)
  {
    var e := Escape(c);
    if |e| == 1 {
      assert (e + tail)[1..] == tail;
    } else {
      assert (e + tail)[2..] == tail;
    }
  }

  lemma {:induction false} SpellOne(a: Token)
    ensures SpellAll([a]) == Spelled(a)
    ensures Depth([a]) == if a.Open? then 1 else if a.Close? then -1 else 0
  {
    assert [a][1..] == [];
    assert Spelled(a) + "" == Spelled(a);
  }

  lemma {:induction false} SpellTwo(a: Token, b: Token)
    ensures SpellAll([a, b]) == Spelled(a) + Spelled(b) && Depth([a, b]) == Depth([a]) + Depth([b])
  {
    assert [a, b][1..] == [b];
    SpellOne(a);
    SpellOne(b);
  }

  lemma {:induction false} SpellThree(a: Token, b: Token, c: Token)
    ensures SpellAll([a, b, c]) == Spelled(a) + Spelled(b) + Spelled(c)
    ensures Depth([a, b, c]) == Depth([a]) + Depth([b]) + Depth([c])
  {
    assert [a, b, c][1..] == [b, c];
    SpellOne(a);
    SpellTwo(b, c);
    ConcatAssociates(Spelled(a), Spelled(b), Spelled(c));
  }

  lemma {:induction false} RowIsLine(r: Row)
    requires GoodRow(r)
    ensures TextOf(RowLine(r)) == RowText(r) && AllWellFormed(RowLine(r).tokens) && Depth(RowLine(r).tokens) == 0
  {
    SpellThree(Words(r.margin), Quoted(EscapeAll(r.item)), Words("," + r.gap));
    SpellOne(Words(r.margin));
    SpellOne(Quoted(EscapeAll(r.item)));
    SpellOne(Words("," + r.gap));
    ConcatAssociates(r.margin + TomlString(r.item), ",", r.gap);
    RowWellFormed(r);
  }

  lemma {:induction false} RowWellFormed(r: Row)
    requires GoodRow(r)
    ensures AllWellFormed(RowLine(r).tokens)
  {
    EscapeIsEscaped(r.item);
  }

  function RowLines(rows: seq<Row>): (vs: seq<ValueLine>)
    ensures |vs| == |rows|
  {
    seq(|rows|, k requires 0 <= k < |rows| => RowLine(rows[k]))
  }

  function RowTexts(rows: seq<Row>): (lines: seq<string>)
    ensures |lines| == |rows|
  {
    seq(|rows|, k requires 0 <= k < |rows| => RowText(rows[k]))
  }

  predicate GoodRows(rows: seq<Row>) {
    forall k :: 0 <= k < |rows| ==> GoodRow(rows[k])
  }

  function FirstLine(gap: string, comment: string): ValueLine {
    ValueLine([Open, Words(gap)], comment)
  }

  function LastLine(margin: string, gap: string, comment: string): ValueLine {
    ValueLine([Words(margin), Close, Words(gap)], comment)
  }

  lemma {:induction false} FirstIsLine(gap: string, comment: string)
    requires Margin(gap) && Comment(comment)
    ensures TextOf(FirstLine(gap, comment)) == "[" + gap + comment
    ensures AllWellFormed(FirstLine(gap, comment).tokens) && Depth(FirstLine(gap, comment).tokens) == 1
  {
    SpellTwo(Open, Words(gap));
    SpellOne(Open);
    SpellOne(Words(gap));
  }

  lemma {:induction false} LastIsLine(margin: string, gap: string, comment: string)
    requires Margin(margin) && Margin(gap) && Comment(comment)
    ensures TextOf(LastLine(margin, gap, comment)) == margin + "]" + gap + comment
    ensures AllWellFormed(LastLine(margin, gap, comment).tokens) && Depth(LastLine(margin, gap, comment).tokens) == -1
  {
    SpellThree(Words(margin), Close, Words(gap));
    SpellOne(Words(margin));
    SpellOne(Close);
    SpellOne(Words(gap));
  }

  lemma {:induction false} RowsClose(rows: seq<Row>, last: ValueLine)
    requires GoodRows(rows) && Depth(last.tokens) == -1
    ensures ClosesAtEnd(RowLines(rows) + [last], 1)
  {
    var vs := RowLines(rows) + [last];
    if rows != [] {
      RowIsLine(rows[0]);
      assert vs[0] == RowLine(rows[0]);
      assert vs[1..] == RowLines(rows[1..]) + [last];
      RowsClose(rows[1..], last);
    }
  }

  lemma {:induction false} RowTextsAre(rows: seq<Row>)
    requires GoodRows(rows)
    ensures Texts(RowLines(rows)) == RowTexts(rows) && GoodLines(RowLines(rows))
  {
    forall k | 0 <= k < |rows|
      ensures TextOf(RowLine(rows[k])) == RowText(rows[k]) && AllWellFormed(RowLine(rows[k]).tokens)
    {
      RowIsLine(rows[k]);
    }
  }

  lemma {:induction false} ArrayLines(rows: seq<Row>, last: ValueLine, after: seq<string>)
    requires GoodRows(rows) && GoodLine(last)
    ensures var more := RowLines(rows) + [last];
            GoodLines(more) && Texts(more) + after == RowTexts(rows) + [TextOf(last)] + after
  {
    RowTextsAre(rows);
    assert Texts(RowLines(rows) + [last]) == Texts(RowLines(rows)) + [TextOf(last)];
  }

  /**
   * An array of strings written one item to a line, whatever the strings and the comments hold: the
   * edit replaces exactly its lines, from the key to the closing bracket.
   */
  lemma {:induction false} ArrayReplaced(text: string, before: seq<string>, margin: string, gap: string, comment: string,
                                         rows: seq<Row>, endMargin: string, endGap: string, endComment: string,
                                         after: seq<string>, e: Edit)
    requires Leads(before, e.table, e.key) && Margin(margin) && BareKey(e.key) && GoodRows(rows)
    requires Margin(gap) && Comment(comment) && Margin(endMargin) && Margin(endGap) && Comment(endComment)
    requires Lines(text) == before + ([KeyLine(margin, e.key, "[" + gap + comment)]
                                      + (RowTexts(rows) + [endMargin + "]" + endGap + endComment] + after))
    ensures SetText(text, e.table, e.key, e.literal) ==
            Some(Join(before + ([KeyLine(margin, e.key, e.literal)] + after), Eol(text)))
  {
    var first, last := FirstLine(gap, comment), LastLine(endMargin, endGap, endComment);
    FirstIsLine(gap, comment);
    LastIsLine(endMargin, endGap, endComment);
    RowsClose(rows, last);
    ArrayLines(rows, last, after);
    ValueReplaced(text, before, margin, first, RowLines(rows) + [last], after, e);
  }

  /// Headers.

  /** The name of a table, as a header may hold it. */
  predicate HeaderName(name: string) {
    && name != "" && !IsSpace(name[0]) && !IsSpace(name[|name| - 1])
    && forall k :: 0 <= k < |name| ==> name[k] !in "[]#"
  }

  lemma {:induction false} TrimLeftOff(a: string, x: string)
    requires Margin(a) && x != "" && !IsSpace(x[0])
    ensures TrimLeftSpace(a + x) == x
  {
    if a == "" {
      assert a + x == x;
    } else {
      assert (a + x)[1..] == a[1..] + x;
      TrimLeftOff(a[1..], x);
    }
  }

  lemma {:induction false} TrimRightOff(x: string, b: string)
    requires Margin(b) && x != "" && !IsSpace(x[|x| - 1])
    ensures TrimRightSpace(x + b) == x
  {
    if b == "" {
      assert x + b == x;
    } else {
      assert (x + b)[..|x + b| - 1] == x + b[..|b| - 1];
      TrimRightOff(x, b[..|b| - 1]);
    }
  }

  lemma {:induction false} TrimMargins(a: string, x: string, b: string)
    requires Margin(a) && Margin(b) && x != "" && !IsSpace(x[0]) && !IsSpace(x[|x| - 1])
    ensures TrimSpace(a + (x + b)) == x
  {
    assert (x + b)[0] == x[0];
    TrimLeftOff(a, x + b);
    TrimRightOff(x, b);
  }

  lemma {:induction false} TrimRightInside(x: string, c: string)
    requires c != "" && !IsSpace(c[0])
    ensures TrimRightSpace(c) != "" && TrimRightSpace(c)[0] == c[0]
    ensures TrimRightSpace(x + c) == x + TrimRightSpace(c)
    decreases |c|
  {
    if IsSpace(c[|c| - 1]) {
      assert (x + c)[..|x + c| - 1] == x + c[..|c| - 1];
      TrimRightInside(x, c[..|c| - 1]);
    }
  }

  /** A header without its margins and its comment. */
  lemma {:induction false} CommentCut(a: string, core: string, b: string, c: string)
    requires Margin(a) && Margin(b) && Comment(c)
    requires core != "" && core[0] == '[' && core[|core| - 1] == ']' && '#' !in core
    ensures var s := TrimSpace(a + (core + (b + c)));
            var i := IndexByte(s, '#');
            "[" <= s && (if i >= 0 then TrimSpace(s[..i]) else s) == core
  {
    if c == "" {
      assert b + c == b;
      TrimMargins(a, core, b);
    } else {
      var x := core + b;
      assert core + (b + c) == x + c && (x + c)[0] == '[';
      TrimLeftOff(a, x + c);
      TrimRightInside(x, c);
      var s := x + TrimRightSpace(c);
      assert s[|x|] == '#' && s[..|x|] == x;
      assert '#' !in x;
      FirstAt(s, '#', |x|);
      TrimMargins("", core, b);
      assert "" + (core + b) == x;
    }
  }

  lemma {:induction false} NameInside(u: string, name: string, v: string)
    requires Margin(u) && Margin(v) && HeaderName(name)
    ensures TrimSpace(u + (name + v)) == name
    ensures var n := u + (name + v); n != "" && n[0] != '[' && n[|n| - 1] != ']' && '#' !in n
  {
    TrimMargins(u, name, v);
  }

  lemma {:induction false} Unbracket(n: string)
    requires n != "" && n[0] != '[' && n[|n| - 1] != ']'
    ensures TrimSuffix(TrimSuffix(TrimPrefix(TrimPrefix("[" + n + "]", "[["), "["), "]]"), "]") == n
    ensures TrimSuffix(TrimSuffix(TrimPrefix(TrimPrefix("[[" + n + "]]", "[["), "["), "]]"), "]") == n
  {
    var single, double := "[" + n + "]", "[[" + n + "]]";
    assert single[1] == n[0];
    assert TrimPrefix(single, "[[") == single;
    assert TrimPrefix(single, "[") == n + "]";
    assert (n + "]")[|n| - 1] == n[|n| - 1];
    assert (n + "]")[|n + "]"| - 2..][0] == n[|n| - 1];
    assert TrimSuffix(n + "]", "]]") == n + "]";
    assert TrimSuffix(n + "]", "]") == n;
    assert TrimPrefix(double, "[[") == n + "]]";
    assert (n + "]]")[0] == n[0];
    assert TrimPrefix(n + "]]", "[") == n + "]]";
    assert TrimSuffix(n + "]]", "]]") == n;
    assert n[|n| - 1..][0] == n[|n| - 1];
  }

  /** A header names its table, with margins inside and outside the brackets and a comment behind it. */
  lemma {:induction false} HeaderRead(a: string, u: string, name: string, v: string, b: string, c: string)
    requires Margin(a) && Margin(u) && Margin(v) && Margin(b) && Comment(c) && HeaderName(name)
    ensures TableHeader(a + (("[" + (u + (name + v)) + "]") + (b + c))) == Some(name)
    ensures TableHeader(a + (("[[" + (u + (name + v)) + "]]") + (b + c))) == Some(name)
  {
    var n := u + (name + v);
    NameInside(u, name, v);
    CommentCut(a, "[" + n + "]", b, c);
    CommentCut(a, "[[" + n + "]]", b, c);
    Unbracket(n);
  }

  /** A line that begins with anything but a bracket is no header. */
  lemma {:induction false} NoHeaderBefore(margin: string, x: string)
    requires Margin(margin) && x != "" && !IsSpace(x[0]) && x[0] != '['
    ensures TableHeader(margin + x).None?
  {
    MarginBlank(margin);
    TrimSpaceOff(margin, x);
  }

  /** The lines in front of a value lead to its table if the last header among them is the table's. */
  lemma {:induction false} HeaderLeads(earlier: seq<string>, header: string, between: seq<string>, table: string, key: string)
    requires NoKeyLine(earlier, key) && NoKeyLine(between, key) && !IsKeyLine(header, key)
    requires TableHeader(header) == Some(table)
    requires forall k :: 0 <= k < |between| ==> TableHeader(between[k]).None?
    ensures Leads(earlier + ([header] + between), table, key)
  {
    CursorConcat(earlier, [header] + between, "");
    assert ([header] + between)[1..] == between;
    CursorStays(between, table);
  }

  lemma {:induction false} CursorConcat(a: seq<string>, b: seq<string>, cur: string)
    ensures Cursor(a + b, cur) == Cursor(b, Cursor(a, cur))
    decreases |a|
  {
    if a == [] {
      assert a + b == b;
    } else {
      assert (a + b)[1..] == a[1..] + b;
      CursorConcat(a[1..], b, Next(a[0], cur));
    }
  }

  lemma {:induction false} CursorStays(lines: seq<string>, cur: string)
    requires forall k :: 0 <= k < |lines| ==> TableHeader(lines[k]).None?
    ensures Cursor(lines, cur) == cur
    decreases |lines|
  {
    if lines != [] {
      assert forall k :: 0 <= k < |lines| - 1 ==> lines[1..][k] == lines[k + 1];
      CursorStays(lines[1..], cur);
    }
  }
}
