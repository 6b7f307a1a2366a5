/// A reference reader of the edited file.
///
/// The reader takes the file apart into items - table headers, entries with all the lines of
/// their value, and everything else - and never looks inside a value. It has its own key test and
/// its own walk; what a header is and where brackets close it decides like the editor. The editor's
/// search is proved to be a replacement of the first entry with the sought name.

module TomlDocument {
  import opened GoStrings
  import opened TomlLiterals
  import opened TomlEdit
  import opened Wrappers

  datatype Item =
    | Header(name: string, line: string)
    | Entry(key: string, lines: seq<string>)
    | Other(line: string)

  function TrimRightBlanks(s: string): string {
    if s != "" && IsBlank(s[|s| - 1]) then TrimRightBlanks(s[..|s| - 1]) else s
  }

  predicate IsComment(line: string) {
    "#" <= TrimBlanks(line)
  }

  /** What is written before the first equals sign of a line that is no comment. */
  function KeyOf(line: string): Option<string> {
    var eq := IndexByte(line, '=');
    if eq < 0 || IsComment(line) then None else Some(TrimRightBlanks(TrimBlanks(line[..eq])))
  }

  /** The first item of a file: its value ends where its brackets close, or with the file. */
  function FirstItem(lines: seq<string>): Item
    requires lines != []
  {
    match TableHeader(lines[0])
    case Some(name) => Header(name, lines[0])
    case None =>
      match KeyOf(lines[0])
      case Some(key) =>
        (match Span(lines, 0)
         case Some(n) => Entry(key, lines[..n])
         case None => Entry(key, lines))
      case None => Other(lines[0])
  }

  function LinesOf(item: Item): seq<string> {
    match item
    case Header(_, line) => [line]
    case Entry(_, lines) => lines
    case Other(line) => [line]
  }

  function Parse(lines: seq<string>): seq<Item>
    decreases |lines|
  {
    if lines == [] then []
    else
      var item := FirstItem(lines);
      [item] + Parse(lines[|LinesOf(item)|..])
  }

  function Flatten(items: seq<Item>): seq<string> {
    if items == [] then [] else LinesOf(items[0]) + Flatten(items[1..])
  }

  /// Reading and editing items.

  predicate Ends(item: Item) {
    item.Entry? ==> item.lines != [] && Span(item.lines, 0) == Some(|item.lines|)
  }

  /** The lines of the first entry `key` in `table`, when `cur` is the table in force. */
  function Read(items: seq<Item>, cur: string, table: string, key: string): Option<seq<string>> {
    if items == [] then None
    else
      match items[0]
      case Header(name, _) => Read(items[1..], name, table, key)
      case Entry(k, lines) => if cur == table && k == key then Some(lines) else Read(items[1..], cur, table, key)
      case Other(_) => Read(items[1..], cur, table, key)
  }

  function Cons(item: Item, rest: Option<seq<Item>>): Option<seq<Item>> {
    match rest
    case Some(items) => Some([item] + items)
    case None => None
  }

  /** The edit on items: the first entry with the sought name gets the literal as its value. */
  function SetItems(items: seq<Item>, cur: string, e: Edit): Option<seq<Item>> {
    if items == [] then None
    else
      match items[0]
      case Header(name, _) => Cons(items[0], SetItems(items[1..], name, e))
      case Entry(k, lines) =>
        if cur == e.table && k == e.key then
          if lines == [] || NoValue(lines[0]) || !Ends(items[0]) then None
          else Some([Entry(k, [NewLine(lines[0], e.key, e.literal)])] + items[1..])
        else Cons(items[0], SetItems(items[1..], cur, e))
      case Other(_) => Cons(items[0], SetItems(items[1..], cur, e))
  }

  /// What is asked of keys, literals and files.

  /** A bare key (TOML v1.0.0, "Keys"). */
  predicate BareKey(key: string) {
    key != "" && forall k :: 0 <= k < |key| ==> BareChar(key[k])
  }

  predicate BareChar(c: char) {
    'A' <= c <= 'Z' || 'a' <= c <= 'z' || '0' <= c <= '9' || c == '_' || c == '-'
  }

  /** A value on one line that the scanner sees as closed; what the encoders emit is one. */
  predicate Literal(v: string) {
    v != "" && !IsSpace(v[0]) && !IsSpace(v[|v| - 1]) && NoBreak(v) && Delta(v, Plain) == 0
  }

  /** No line inside a value looks like a header or like the line of a sought key. */
  predicate PlainItem(item: Item, key: string) {
    item.Entry? ==>
      forall k :: 0 < k < |item.lines| ==> TableHeader(item.lines[k]).None? && !IsKeyLine(item.lines[k], key)
  }

  predicate PlainItems(items: seq<Item>, key: string) {
    forall k :: 0 <= k < |items| ==> PlainItem(items[k], key)
  }

  /// Items and lines.

  lemma {:induction false} FirstItemLines(lines: seq<string>)
    requires lines != []
    ensures var n := |LinesOf(FirstItem(lines))|; 0 < n <= |lines| && LinesOf(FirstItem(lines)) == lines[..n]
  {}

  lemma {:induction false} FlattenCons(item: Item, rest: seq<Item>)
    ensures Flatten([item] + rest) == LinesOf(item) + Flatten(rest)
  {
    assert ([item] + rest)[1..] == rest;
  }

  lemma {:induction false} Cut(lines: seq<string>, n: nat)
    requires n <= |lines|
    ensures lines == lines[..n] + lines[n..]
  {}

  /** Taking a file apart loses nothing. */
  lemma {:induction false} FlattenParse(lines: seq<string>)
    ensures Flatten(Parse(lines)) == lines
    decreases |lines|
  {
    if lines != [] {
      var item := FirstItem(lines);
      var n := |LinesOf(item)|;
      FirstItemLines(lines);
      FlattenParse(lines[n..]);
      FlattenCons(item, Parse(lines[n..]));
      Cut(lines, n);
    }
  }

  lemma {:induction false} SpanLocal(lines: seq<string>, more: seq<string>, depth: int)
    requires Span(lines, depth) == Some(|lines|)
    ensures Span(lines + more, depth) == Some(|lines|)
    decreases |lines|
  {
    assert (lines + more)[1..] == lines[1..] + more;
    if depth + Delta(lines[0], Plain) > 0 {
      SpanLocal(lines[1..], more, depth + Delta(lines[0], Plain));
    }
  }

  lemma {:induction false} SpanTake(lines: seq<string>, depth: int)
    requires Span(lines, depth).Some?
    ensures var n := Span(lines, depth).value; Span(lines[..n], depth) == Some(n)
    decreases |lines|
  {
    var n := Span(lines, depth).value;
    if depth + Delta(lines[0], Plain) > 0 {
      SpanTake(lines[1..], depth + Delta(lines[0], Plain));
      assert lines[..n][1..] == lines[1..][..n - 1];
    }
  }

  /** An item that ends is read the same whatever follows it. */
  lemma {:induction false} ItemLocal(item: Item, more: seq<string>)
    requires LinesOf(item) != [] && FirstItem(LinesOf(item)) == item && Ends(item)
    ensures FirstItem(LinesOf(item) + more) == item
    ensures Parse(LinesOf(item) + more) == [item] + Parse(more)
  {
    var lines := LinesOf(item);
    if item.Entry? {
      SpanLocal(lines, more, 0);
      assert (lines + more)[..|lines|] == lines;
    }
    assert (lines + more)[|lines|..] == more;
  }

  lemma {:induction false} FirstItemAlone(lines: seq<string>)
    requires lines != [] && Ends(FirstItem(lines))
    ensures FirstItem(LinesOf(FirstItem(lines))) == FirstItem(lines)
  {
    var item := FirstItem(lines);
    if item.Entry? {
      if Span(lines, 0).Some? {
        SpanTake(lines, 0);
        assert lines[..Span(lines, 0).value][0] == lines[0];
      }
    }
  }
}
