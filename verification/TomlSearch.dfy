/// The line the editor writes, and the editor's search seen as an operation on items.

module TomlSearch {
  import opened GoStrings
  import opened TomlLiterals
  import opened TomlLines
  import opened TomlEdit
  import opened TomlDocument
  import opened TomlKeys
  import opened Wrappers

  /// The new line.

  lemma {:induction false} TrimRightKeepsHead(s: string)
    requires s != "" && !IsSpace(s[0])
    ensures TrimRightSpace(s) != "" && TrimRightSpace(s)[0] == s[0]
  {
    if IsSpace(s[|s| - 1]) {
      TrimRightKeepsHead(s[..|s| - 1]);
    }
  }

  lemma {:induction false} TrimSpaceOff(b: string, s: string)
    requires Blanks(b) && s != "" && !IsSpace(s[0])
    ensures TrimSpace(b + s) != "" && TrimSpace(b + s)[0] == s[0]
    decreases |b|
  {
    if b == "" {
      assert b + s == s;
      TrimRightKeepsHead(s);
    } else {
      assert (b + s)[1..] == b[1..] + s;
      assert IsBlank(b[0]);
      TrimSpaceOff(b[1..], s);
    }
  }

  predicate Quiet(c: char) {
    c != '"' && c != '\'' && c != '#' && c != '[' && c != ']'
  }

  lemma {:induction false} QuietPrefix(p: string, rest: string)
    requires forall k :: 0 <= k < |p| ==> Quiet(p[k])
    ensures Delta(p + rest, Plain) == Delta(rest, Plain)
  {
    if p == "" {
      assert p + rest == rest;
    } else {
      assert (p + rest)[1..] == p[1..] + rest;
      assert Quiet(p[0]);
      QuietPrefix(p[1..], rest);
    }
  }

  lemma {:induction false} IndentBlank(line: string)
    ensures Blanks(Indent(line))
  {
    TrimBlanksApart(line);
  }

  lemma {:induction false} LineForm(a: string, key: string, v: string)
    ensures a + key + " = " + v == a + key + " " + "=" + (" " + v)
    ensures a + key + " = " + v == a + (key + " = " + v)
    ensures a + key + " = " + v == (a + key + " = ") + v
  {}

  /** The new line is an entry of its own with the key sought: no header, closed, with a value. */
  lemma {:induction false} NewLineEntry(line: string, key: string, v: string)
    requires BareKey(key) && Literal(v)
    ensures var written := NewLine(line, key, v);
            && TableHeader(written).None? && KeyOf(written) == Some(key) && IsKeyLine(written, key)
            && Delta(written, Plain) == 0 && !NoValue(written)
  {
    var a := Indent(line);
    IndentBlank(line);
    LineForm(a, key, v);
    ShapeRead(a, key, " ", " " + v);
    NewLineNoHeader(a, key, v);
    NewLineDelta(a, key, v);
    NewLineValue(a, key, v);
  }

  lemma {:induction false} NewLineNoHeader(a: string, key: string, v: string)
    requires Blanks(a) && BareKey(key)
    ensures TableHeader(a + key + " = " + v).None?
  {
    LineForm(a, key, v);
    assert BareChar(key[0]) && (key + " = " + v)[0] == key[0];
    TrimSpaceOff(a, key + " = " + v);
  }

  lemma {:induction false} NewLineDelta(a: string, key: string, v: string)
    requires Blanks(a) && BareKey(key)
    ensures Delta(a + key + " = " + v, Plain) == Delta(v, Plain)
  {
    LineForm(a, key, v);
    var p := a + key + " = ";
    forall k | 0 <= k < |p|
      ensures Quiet(p[k])
    {
      if k < |a| {
        assert IsBlank(a[k]);
      } else if k < |a + key| {
        assert BareChar(key[k - |a|]);
      }
    }
    QuietPrefix(p, v);
  }

  lemma {:induction false} NewLineValue(a: string, key: string, v: string)
    requires Blanks(a) && BareKey(key) && v != "" && !IsSpace(v[0])
    ensures !NoValue(a + key + " = " + v)
  {
    LineForm(a, key, v);
    var u := a + key + " ";
    var line := a + key + " = " + v;
    forall k | 0 <= k < |u|
      ensures u[k] != '='
    {
      if k < |a| {
        assert IsBlank(a[k]);
      } else if k < |a + key| {
        assert BareChar(key[k - |a|]);
      }
    }
    FirstIndex(u, " " + v);
    assert line[|u| + 1..] == " " + v;
    TrimSpaceOff(" ", v);
  }

  /** The new line keeps the old line's indentation, so writing again writes at the same column. */
  lemma {:induction false} NewLineIndent(line: string, key: string, v: string, w: string)
    requires BareKey(key)
    ensures NewLine(NewLine(line, key, v), key, w) == NewLine(line, key, w)
  {
    var a := Indent(line);
    var tail := key + " = " + v;
    IndentBlank(line);
    LineForm(a, key, v);
    TrimBlanksOff(a, tail);
    assert BareChar(key[0]) && tail[0] == key[0];
    assert TrimBlanks(a + tail) == tail;
    assert (a + tail)[..|a|] == a;
  }

  lemma {:induction false} NewLineBreaks(line: string, key: string, v: string)
    requires BareKey(key) && Literal(v) && '\n' !in line
    ensures '\n' !in NewLine(line, key, v) && !EndsCR(NewLine(line, key, v))
  {
    var l := NewLine(line, key, v);
    assert forall k :: 0 <= k < |key| ==> BareChar(key[k]);
    assert l[|l| - 1] == v[|v| - 1];
    assert v[|v| - 1] in v;
  }

  /// The search.

  /** Lines inside a value that look like nothing sought are passed over. */
  lemma {:induction false} PassOver(lines: seq<string>, n: nat, cur: string, e: Edit)
    requires n <= |lines|
    requires forall k :: 0 <= k < n ==> TableHeader(lines[k]).None? && (cur != e.table || !IsKeyLine(lines[k], e.key))
    ensures SetLines(lines, cur, e.table, e.key, e.literal) ==
            Prepend(lines[..n], SetLines(lines[n..], cur, e.table, e.key, e.literal))
    decreases n
  {
    var tail := SetLines(lines[n..], cur, e.table, e.key, e.literal);
    if n == 0 {
      PrependNothing(tail);
      assert lines[0..] == lines;
    } else {
      PassOver(lines[1..], n - 1, cur, e);
      PrependTwice([lines[0]], lines[1..][..n - 1], tail);
      assert lines[1..][n - 1..] == lines[n..];
      assert lines[..n] == [lines[0]] + lines[1..][..n - 1];
    }
  }

  /** The outcome on lines that an outcome on items stands for. */
  function Shown(r: Option<seq<Item>>): Option<seq<string>> {
    match r
    case Some(items) => Some(Flatten(items))
    case None => None
  }

  lemma {:induction false} ShownCons(item: Item, r: Option<seq<Item>>)
    ensures Shown(Cons(item, r)) == Prepend(LinesOf(item), Shown(r))
  {
    if r.Some? {
      FlattenCons(item, r.value);
    }
  }

  lemma {:induction false} PlainRest(lines: seq<string>, key: string)
    requires lines != [] && PlainItems(Parse(lines), key)
    ensures PlainItem(FirstItem(lines), key)
    ensures PlainItems(Parse(lines[|LinesOf(FirstItem(lines))|..]), key)
  {
    var items := Parse(lines);
    var rest := Parse(lines[|LinesOf(FirstItem(lines))|..]);
    assert items == [FirstItem(lines)] + rest;
    TailPlain(FirstItem(lines), rest, key);
  }

  lemma {:induction false} TailPlain(item: Item, rest: seq<Item>, key: string)
    requires PlainItems([item] + rest, key)
    ensures PlainItem(item, key) && PlainItems(rest, key)
  {
    var items := [item] + rest;
    assert items[0] == item && forall k :: 0 <= k < |rest| ==> items[k + 1] == rest[k];
  }

  /**
   * The editor's search, which looks at every line, and the reader's, which looks at items only,
   * come to the same edit.
   */
  lemma {:induction false} EditorSeesItems(lines: seq<string>, cur: string, e: Edit)
    requires BareKey(e.key) && PlainItems(Parse(lines), e.key)
    ensures SetLines(lines, cur, e.table, e.key, e.literal) == Shown(SetItems(Parse(lines), cur, e))
    decreases |lines|
  {
    if lines != [] {
      var item := FirstItem(lines);
      var n := |LinesOf(item)|;
      FirstItemLines(lines);
      PlainRest(lines, e.key);
      KeyTests(lines[0], e.key);
      assert Parse(lines)[1..] == Parse(lines[n..]);
      match item {
        case Header(name, line) =>
          EditorSeesItems(lines[1..], name, e);
          ShownCons(item, SetItems(Parse(lines[1..]), name, e));
        case Other(line) =>
          EditorSeesItems(lines[1..], cur, e);
          ShownCons(item, SetItems(Parse(lines[1..]), cur, e));
        case Entry(key, ls) =>
          if cur == e.table && key == e.key {
            EditorReplaces(lines, cur, e);
          } else {
            EditorSeesItems(lines[n..], cur, e);
            PassEntry(lines, cur, e);
            ShownCons(item, SetItems(Parse(lines[n..]), cur, e));
          }
      }
    }
  }

  lemma {:induction false} EditorReplaces(lines: seq<string>, cur: string, e: Edit)
    requires lines != [] && FirstItem(lines).Entry? && cur == e.table && FirstItem(lines).key == e.key
    requires IsKeyLine(lines[0], e.key)
    ensures SetLines(lines, cur, e.table, e.key, e.literal) == Shown(SetItems(Parse(lines), cur, e))
  {
    var item := FirstItem(lines);
    var n := |LinesOf(item)|;
    var l := NewLine(lines[0], e.key, e.literal);
    FirstItemLines(lines);
    assert item.lines[0] == lines[0];
    if Span(lines, 0).Some? {
      SpanTake(lines, 0);
      FlattenParse(lines[n..]);
      FlattenCons(Entry(e.key, [l]), Parse(lines[n..]));
    }
  }

  lemma {:induction false} PassEntry(lines: seq<string>, cur: string, e: Edit)
    requires lines != [] && FirstItem(lines).Entry? && PlainItem(FirstItem(lines), e.key)
    requires cur != e.table || !IsKeyLine(lines[0], e.key)
    ensures var n := |LinesOf(FirstItem(lines))|;
            SetLines(lines, cur, e.table, e.key, e.literal) ==
            Prepend(lines[..n], SetLines(lines[n..], cur, e.table, e.key, e.literal))
  {
    var item := FirstItem(lines);
    FirstItemLines(lines);
    forall k | 0 <= k < |item.lines|
      ensures TableHeader(lines[k]).None? && (cur != e.table || !IsKeyLine(lines[k], e.key))
    {
      assert item.lines[k] == lines[k];
    }
    PassOver(lines, |item.lines|, cur, e);
  }
}
