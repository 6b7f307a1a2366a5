/// The surgical editor of `internal/exec`: one key of one table is replaced, line by line.

module TomlEdit {
  import opened GoStrings
  import opened TomlLiterals
  import opened TomlLines
  import opened Wrappers

  /// Looking at one line.

  predicate IsBlank(c: char) {
    c == ' ' || c == '\t'
  }

  /** `strings.TrimLeft(s, " \t")`. */
  function TrimBlanks(s: string): string {
    if s != "" && IsBlank(s[0]) then TrimBlanks(s[1..]) else s
  }

  function TrimPrefix(s: string, p: string): string {
    if p <= s then s[|p|..] else s
  }

  function TrimSuffix(s: string, p: string): string {
    if |p| <= |s| && s[|s| - |p|..] == p then s[..|s| - |p|] else s
  }

  /** The table named by a `[table]` or `[[table]]` header. */
  function TableHeader(line: string): Option<string> {
    var s := TrimSpace(line);
    if !("[" <= s) then None
    else
      var i := IndexByte(s, '#');
      var t := if i >= 0 then TrimSpace(s[..i]) else s;
      var name := TrimSpace(TrimSuffix(TrimSuffix(TrimPrefix(TrimPrefix(t, "[["), "["), "]]"), "]"));
      if name != "" then Some(name) else None
  }

  predicate IsKeyLine(line: string, key: string) {
    var s := TrimBlanks(line);
    key <= s && "=" <= TrimBlanks(s[|key|..])
  }

  /** No value follows the equals sign on this line. */
  predicate NoValue(line: string) {
    var eq := IndexByte(line, '=');
    eq < 0 || TrimSpace(line[eq + 1..]) == ""
  }

  function Indent(line: string): string {
    TrimBlanksShrinks(line);
    line[..|line| - |TrimBlanks(line)|]
  }

  lemma {:induction false} TrimBlanksShrinks(s: string)
    ensures |TrimBlanks(s)| <= |s| && TrimBlanks(s) == s[|s| - |TrimBlanks(s)|..]
  {
    if s != "" && IsBlank(s[0]) {
      TrimBlanksShrinks(s[1..]);
    }
  }

  function NewLine(line: string, key: string, literal: string): string {
    Indent(line) + key + " = " + literal
  }

  /// Looking at the file.

  /**
   * How many lines the value on the first of `lines` takes, when `depth` brackets are open
   * before it; none if it never closes.
   */
  function Span(lines: seq<string>, depth: int): (n: Option<nat>)
    ensures n.Some? ==> 1 <= n.value <= |lines|
    decreases |lines|
  {
    if lines == [] then None
    else
      var d := depth + Delta(lines[0], Plain);
      if d <= 0 then Some(1)
      else
        match Span(lines[1..], d)
        case Some(n) => Some(n + 1)
        case None => None
  }

  function Prepend(head: seq<string>, tail: Option<seq<string>>): Option<seq<string>> {
    match tail
    case Some(lines) => Some(head + lines)
    case None => None
  }

  /** The edit at its place: the value's lines become one line, if there is a value and it ends. */
  function Replaced(lines: seq<string>, key: string, literal: string): Option<seq<string>>
    requires lines != []
  {
    if NoValue(lines[0]) then None
    else
      match Span(lines, 0)
      case Some(n) => Some([NewLine(lines[0], key, literal)] + lines[n..])
      case None => None
  }

  /** The search from the first of `lines` on, inside table `cur`. */
  function SetLines(lines: seq<string>, cur: string, table: string, key: string, literal: string): Option<seq<string>>
    decreases |lines|
  {
    if lines == [] then None
    else
      match TableHeader(lines[0])
      case Some(name) => Prepend([lines[0]], SetLines(lines[1..], name, table, key, literal))
      case None =>
        if cur == table && IsKeyLine(lines[0], key) then Replaced(lines, key, literal)
        else Prepend([lines[0]], SetLines(lines[1..], cur, table, key, literal))
  }

  /** The text with the edit made, or none if the caller has to fall back. */
  function SetText(text: string, table: string, key: string, literal: string): Option<string> {
    match SetLines(Lines(text), "", table, key, literal)
    case Some(out) =>
      if out == [] then None else Some(Join(out, Eol(text)))
    case None => None
  }

  lemma {:induction false} SetNonempty(lines: seq<string>, cur: string, table: string, key: string, literal: string)
    ensures SetLines(lines, cur, table, key, literal) != Some([])
    decreases |lines|
  {
    if lines != [] && TableHeader(lines[0]).Some? {
      SetNonempty(lines[1..], TableHeader(lines[0]).value, table, key, literal);
    } else if lines != [] {
      SetNonempty(lines[1..], cur, table, key, literal);
    }
  }

  /// The source's loops.

  method SpanEnd(lines: seq<string>, i: nat) returns (ok: bool, end: nat)
    requires i < |lines|
    ensures Span(lines[i..], 0) == if ok then Some(end + 1 - i) else None
    ensures ok ==> i <= end < |lines|
  {
    end := i;
    var depth := BracketDelta(lines[i]);
    ghost var before := 0;
    while depth > 0
      invariant i <= end < |lines|
      invariant depth == before + Delta(lines[end], Plain)
      invariant Span(lines[i..], 0) == Shifted(Span(lines[end..], before), end - i)
      decreases |lines| - end
    {
      assert lines[end..][1..] == lines[end + 1..];
      if end + 1 >= |lines| {
        return false, end;
      }
      before := depth;
      end := end + 1;
      var d := BracketDelta(lines[end]);
      depth := depth + d;
    }
    return true, end;
  }

  function Shifted(n: Option<nat>, k: nat): Option<nat> {
    match n
    case Some(m) => Some(m + k)
    case None => None
  }

  lemma {:induction false} PrependTwice(a: seq<string>, b: seq<string>, tail: Option<seq<string>>)
    ensures Prepend(a, Prepend(b, tail)) == Prepend(a + b, tail)
  {
    if tail.Some? {
      assert a + (b + tail.value) == a + b + tail.value;
    }
  }

  lemma {:induction false} PrependNothing(tail: Option<seq<string>>)
    ensures Prepend([], tail) == tail
  {
    if tail.Some? {
      assert [] + tail.value == tail.value;
    }
  }

  /** One turn of the search that does not find the key: the line is passed, perhaps into a new table. */
  lemma {:induction false} SearchNext(lines: seq<string>, i: nat, cur: string, next: string,
                                      table: string, key: string, literal: string)
    requires i < |lines|
    requires match TableHeader(lines[i])
             case Some(name) => next == name
             case None => next == cur && !(cur == table && IsKeyLine(lines[i], key))
    ensures Prepend(lines[..i], SetLines(lines[i..], cur, table, key, literal)) ==
            Prepend(lines[..i + 1], SetLines(lines[i + 1..], next, table, key, literal))
  {
    assert lines[i..][1..] == lines[i + 1..] && lines[..i + 1] == lines[..i] + [lines[i]];
    PrependTwice(lines[..i], [lines[i]], SetLines(lines[i + 1..], next, table, key, literal));
  }

  method SetKeyInTable(text: string, table: string, key: string, literal: string) returns (r: Option<string>)
    ensures r == SetText(text, table, key, literal)
  {
    var nl := if HasCRLF(text) then CRLF else LF;
    var lines := Split(Normalize(text));
    SetNonempty(lines, "", table, key, literal);
    var cur := "";
    var i := 0;
    PrependNothing(SetLines(lines, "", table, key, literal));
    assert lines[..0] == [] && lines[0..] == lines;
    while i < |lines|
      invariant 0 <= i <= |lines|
      invariant SetLines(lines, "", table, key, literal) ==
                Prepend(lines[..i], SetLines(lines[i..], cur, table, key, literal))
      decreases |lines| - i
    {
      match TableHeader(lines[i]) {
        case Some(name) =>
          SearchNext(lines, i, cur, name, table, key, literal);
          cur := name;
        case None =>
          if cur == table && IsKeyLine(lines[i], key) {
            r := ReplaceAt(lines, i, key, literal, nl);
            return;
          }
          SearchNext(lines, i, cur, cur, table, key, literal);
      }
      i := i + 1;
    }
    return None;
  }

  /** The body of the search once the key's line is found. */
  method ReplaceAt(lines: seq<string>, i: nat, key: string, literal: string, nl: string) returns (r: Option<string>)
    requires i < |lines|
    ensures match Prepend(lines[..i], Replaced(lines[i..], key, literal))
            case Some(out) => out != [] && r == Some(Join(out, nl))
            case None => r == None
  {
    if NoValue(lines[i]) {
      return None;
    }
    var ok, end := SpanEnd(lines, i);
    if !ok {
      return None;
    }
    var out := lines[..i] + [NewLine(lines[i], key, literal)] + lines[end + 1..];
    assert lines[i..][end + 1 - i..] == lines[end + 1..];
    assert out == lines[..i] + ([NewLine(lines[i], key, literal)] + lines[end + 1..]);
    return Some(Join(out, nl));
  }

  /// Batches.

  datatype Edit = Edit(table: string, key: string, literal: string)

  /** The edits in order; one that cannot be made sends the caller to the fallback. */
  function Batch(text: string, edits: seq<Edit>): Option<string>
    decreases |edits|
  {
    if edits == [] then Some(text)
    else
      match SetText(text, edits[0].table, edits[0].key, edits[0].literal)
      case Some(next) => Batch(next, edits[1..])
      case None => None
  }

  method SurgicalEdit(text0: string, edits: seq<Edit>) returns (r: Option<string>)
    ensures r == Batch(text0, edits)
  {
    var text := text0;
    for i := 0 to |edits|
      invariant Batch(text, edits[i..]) == Batch(text0, edits)
    {
      var next := SetKeyInTable(text, edits[i].table, edits[i].key, edits[i].literal);
      assert edits[i..][1..] == edits[i + 1..];
      if next.None? {
        return None;
      }
      text := next.value;
    }
    return Some(text);
  }
}
