/// TOML literals: the encoders of `internal/exec` (TOML v1.0.0, "String" and "Array") and the
/// bracket counter that has to see through what they emit.

module TomlLiterals {
  import opened Sequences
  import opened Wrappers

  /// Encoding.

  /** What the replacer emits for one character. */
  function Escape(c: char): string {
    match c
    case '\\' => "\\\\"
    case '"' => "\\\""
    case '\n' => "\\n"
    case '\r' => "\\r"
    case '\t' => "\\t"
    case _ => [c]
  }

  function EscapeAll(s: string): string {
    if s == "" then "" else Escape(s[0]) + EscapeAll(s[1..])
  }

  function TomlString(s: string): string {
    "\"" + EscapeAll(s) + "\""
  }

  /** The encoded items joined with a comma and a blank. */
  function Elements(items: seq<string>): string {
    if items == [] then ""
    else if |items| == 1 then TomlString(items[0])
    else TomlString(items[0]) + ", " + Elements(items[1..])
  }

  function TomlStringArray(items: seq<string>): string {
    "[" + Elements(items) + "]"
  }

  /** Characters without a special meaning are written as they are. */
  lemma {:induction false} PlainKept(s: string)
    requires forall k :: 0 <= k < |s| ==> s[k] !in "\\\"\n\r\t"
    ensures EscapeAll(s) == s
  {
    if s != "" {
      PlainKept(s[1..]);
    }
  }

  /** The spelling of the others, and of lists. */
  lemma {:induction false} Spelling()
    ensures TomlString("\"\\") == "\"\\\"\\\\\"" && TomlString("\n\r\t") == "\"\\n\\r\\t\""
    ensures TomlStringArray([]) == "[]" && TomlStringArray(["a"]) == "[\"a\"]"
    ensures TomlStringArray(["a", "b"]) == "[\"a\", \"b\"]"
  {
    assert EscapeAll("\\") == "\\\\" && EscapeAll("\t") == "\\t" && EscapeAll("\r\t") == "\\r\\t";
    PlainKept("a");
    PlainKept("b");
    assert ["a", "b"][1..] == ["b"];
  }

  /// Counting brackets.

  /** Outside strings, or inside one that ends at `quote`. */
  datatype Mode = Plain | In(quote: char)

  /** The net count of brackets opened by `s`, when scanning it starts in `mode`. */
  function Delta(s: string, mode: Mode): int
    decreases |s|
  {
    if s == "" then 0
    else
      match mode
      case In(quote) =>
        if s[0] == '\\' && quote == '"' then if |s| == 1 then 0 else Delta(s[2..], mode)
        else if s[0] == quote then Delta(s[1..], Plain)
        else Delta(s[1..], mode)
      case Plain =>
        match s[0]
        case '"' => Delta(s[1..], In('"'))
        case '\'' => Delta(s[1..], In('\''))
        case '#' => 0
        case '[' => 1 + Delta(s[1..], Plain)
        case ']' => Delta(s[1..], Plain) - 1
        case _ => Delta(s[1..], Plain)
  }

  /** What is left of `s` from position `i`, which an escape at the end may have passed. */
  function From(s: string, i: nat): string {
    if i <= |s| then s[i..] else ""
  }

  method BracketDelta(line: string) returns (depth: int)
    ensures depth == Delta(line, Plain)
  {
    depth := 0;
    var inStr := Plain;
    var i: nat := 0;
    while i < |line|
      invariant depth + Delta(From(line, i), inStr) == Delta(line, Plain)
    {
      var c := line[i];
      assert From(line, i)[1..] == From(line, i + 1);
      assert i + 2 <= |line| ==> From(line, i)[2..] == From(line, i + 2);
      match inStr {
        case In(quote) =>
          if c == '\\' && quote == '"' {
            i := i + 1;
          } else if c == quote {
            inStr := Plain;
          }
        case Plain =>
          if c == '"' || c == '\'' {
            inStr := In(c);
          } else if c == '#' {
            return depth;
          } else if c == '[' {
            depth := depth + 1;
          } else if c == ']' {
            depth := depth - 1;
          }
      }
      i := i + 1;
    }
  }

  /// The counter sees an encoded value as balanced, whatever it holds.

  lemma {:induction false} EscapedDelta(s: string, rest: string)
    ensures Delta(EscapeAll(s) + "\"" + rest, In('"')) == Delta(rest, Plain)
  {
    if s == "" {
      assert ("\"" + rest)[1..] == rest;
      assert EscapeAll(s) + "\"" + rest == "\"" + rest;
    } else {
      var tail := EscapeAll(s[1..]) + "\"" + rest;
      EscapedDelta(s[1..], rest);
      assert EscapeAll(s) + "\"" + rest == Escape(s[0]) + tail;
      EscapedChar(s[0], tail);
    }
  }

  lemma {:induction false} EscapedChar(c: char, tail: string)
    ensures Delta(Escape(c) + tail, In('"')) == Delta(tail, In('"'))
  {
    var e := Escape(c);
    if |e| == 1 {
      assert (e + tail)[1..] == tail;
    } else {
      assert (e + tail)[2..] == tail;
    }
  }

  lemma {:induction false} StringDelta(s: string, rest: string)
    ensures Delta(TomlString(s) + rest, Plain) == Delta(rest, Plain)
  {
    var t := EscapeAll(s) + "\"" + rest;
    assert TomlString(s) + rest == ['"'] + t;
    assert (['"'] + t)[1..] == t;
    EscapedDelta(s, rest);
  }

  lemma {:induction false} NextDelta(s: string, tail: string)
    ensures Delta(TomlString(s) + (", " + tail), Plain) == Delta(tail, Plain)
  {
    StringDelta(s, ", " + tail);
    assert (", " + tail)[1..] == " " + tail && (" " + tail)[1..] == tail;
  }

  lemma {:induction false} ElementsDelta(items: seq<string>, rest: string)
    ensures Delta(Elements(items) + rest, Plain) == Delta(rest, Plain)
  {
    if items == [] {
      assert "" + rest == rest;
    } else if |items| == 1 {
      StringDelta(items[0], rest);
    } else {
      ElementsDelta(items[1..], rest);
      NextDelta(items[0], Elements(items[1..]) + rest);
      ConcatFour(TomlString(items[0]), ", ", Elements(items[1..]), rest);
    }
  }

  lemma {:induction false} ArrayDelta(items: seq<string>, rest: string)
    ensures Delta(TomlStringArray(items) + rest, Plain) == Delta(rest, Plain)
  {
    var t := Elements(items) + ("]" + rest);
    assert TomlStringArray(items) + rest == ['['] + t;
    assert (['['] + t)[1..] == t;
    ElementsDelta(items, "]" + rest);
    assert ("]" + rest)[1..] == rest;
  }

  predicate NoBreak(s: string) {
    '\n' !in s && '\r' !in s
  }

  lemma {:induction false} NoBreakString(s: string)
    ensures NoBreak(EscapeAll(s)) && NoBreak(TomlString(s))
  {
    if s != "" {
      NoBreakString(s[1..]);
    }
  }

  lemma {:induction false} NoBreakElements(items: seq<string>)
    ensures NoBreak(Elements(items)) && NoBreak(TomlStringArray(items))
  {
    if items != [] {
      NoBreakString(items[0]);
      NoBreakElements(items[1..]);
    }
  }

  /// What the encoder leaves to TOML.

  /** A character that a TOML basic string may hold unescaped (TOML v1.0.0, "String"). */
  predicate Unescaped(c: char) {
    c == '\t' || (' ' <= c && c != '"' && c != '\\' && c != '\U{7F}')
  }

  predicate EscapeLetter(c: char) {
    c == 'b' || c == 't' || c == 'n' || c == 'f' || c == 'r' || c == '"' || c == '\\'
  }

  /** The rest of a basic string, from inside it to its closing quote. */
  predicate BasicTail(t: string)
    decreases |t|
  {
    if t == "" then false
    else if t[0] == '"' then |t| == 1
    else if t[0] == '\\' then |t| > 1 && EscapeLetter(t[1]) && BasicTail(t[2..])
    else Unescaped(t[0]) && BasicTail(t[1..])
  }

  predicate BasicString(t: string) {
    t != "" && t[0] == '"' && BasicTail(t[1..])
  }

  /** A control character without an escape of its own in the replacer. */
  predicate RawControl(c: char) {
    (c < ' ' && c != '\t' && c != '\n' && c != '\r') || c == '\U{7F}'
  }

  lemma {:induction false} TailChar(c: char, tail: string)
    ensures BasicTail(Escape(c) + tail) <==> !RawControl(c) && BasicTail(tail)
  {
    var e := Escape(c);
    if |e| == 1 {
      assert (e + tail)[1..] == tail;
    } else {
      assert (e + tail)[2..] == tail;
    }
  }

  lemma {:induction false} TailLegal(s: string)
    ensures BasicTail(EscapeAll(s) + "\"") <==> forall k :: 0 <= k < |s| ==> !RawControl(s[k])
  {
    if s == "" {
      assert EscapeAll(s) + "\"" == "\"";
    } else {
      TailLegal(s[1..]);
      TailChar(s[0], EscapeAll(s[1..]) + "\"");
      assert EscapeAll(s) + "\"" == Escape(s[0]) + (EscapeAll(s[1..]) + "\"");
      assert s == [s[0]] + s[1..];
    }
  }

  /**
   * The encoded string is a TOML basic string exactly if the value holds no control characters but
   * tab, line feed and carriage return: TOML wants the others escaped and the replacer is silent.
   */
  lemma {:induction false} LegalString(s: string)
    ensures BasicString(TomlString(s)) <==> forall k :: 0 <= k < |s| ==> !RawControl(s[k])
  {
    TailLegal(s);
    assert TomlString(s)[1..] == EscapeAll(s) + "\"";
  }

  /** A value with a control character, U+0001, is written as it is and is no basic string then. */
  lemma {:induction false} ControlRefused()
    ensures TomlString("\U{1}") == "\"\U{1}\"" && !BasicString(TomlString("\U{1}"))
  {
    LegalString("\U{1}");
    assert RawControl("\U{1}"[0]);
  }

  /// Decoding what the encoders emit.

  /** The string up to the closing quote, and what follows it. */
  function ReadBasic(t: string): Option<(string, string)>
    decreases |t|
  {
    if t == "" then None
    else if t[0] == '"' then Some(("", t[1..]))
    else if t[0] != '\\' then PutBack(t[0], ReadBasic(t[1..]))
    else if |t| == 1 then None
    else
      match t[1]
      case '\\' => PutBack('\\', ReadBasic(t[2..]))
      case '"' => PutBack('"', ReadBasic(t[2..]))
      case 'n' => PutBack('\n', ReadBasic(t[2..]))
      case 'r' => PutBack('\r', ReadBasic(t[2..]))
      case 't' => PutBack('\t', ReadBasic(t[2..]))
      case _ => None
  }

  function PutBack(c: char, r: Option<(string, string)>): Option<(string, string)> {
    match r
    case Some((s, rest)) => Some(([c] + s, rest))
    case None => None
  }

  /** A quoted string at the start of `t`, and what follows it. */
  function ReadString(t: string): (r: Option<(string, string)>)
    ensures r.Some? ==> |r.value.1| < |t|
  {
    if t == "" || t[0] != '"' then None
    else
      ShorterRest(t[1..]);
      ReadBasic(t[1..])
  }

  lemma {:induction false} ShorterRest(t: string)
    ensures var r := ReadBasic(t); r.Some? ==> |r.value.1| < |t|
    decreases |t|
  {
    if t != "" && t[0] != '"' {
      if t[0] != '\\' {
        ShorterRest(t[1..]);
      } else if |t| > 1 {
        ShorterRest(t[2..]);
      }
    }
  }

  /** Strings separated by a comma and a blank, up to the closing bracket. */
  function ReadItems(t: string): Option<(seq<string>, string)>
    decreases |t|
  {
    match ReadString(t)
    case None => None
    case Some((s, rest)) =>
      if rest != "" && rest[0] == ']' then Some(([s], rest[1..]))
      else if |rest| >= 2 && rest[0] == ',' && rest[1] == ' ' then
        match ReadItems(rest[2..])
        case Some((more, end)) => Some(([s] + more, end))
        case None => None
      else None
  }

  function DecodeString(t: string): Option<string> {
    match ReadString(t)
    case Some((s, rest)) => if rest == "" then Some(s) else None
    case None => None
  }

  function DecodeArray(t: string): Option<seq<string>> {
    if t == "" || t[0] != '[' then None
    else if t[1..] == "]" then Some([])
    else
      match ReadItems(t[1..])
      case Some((items, rest)) => if rest == "" then Some(items) else None
      case None => None
  }

  lemma {:induction false} ReadEscaped(s: string, rest: string)
    ensures ReadBasic(EscapeAll(s) + "\"" + rest) == Some((s, rest))
  {
    if s == "" {
      assert EscapeAll(s) + "\"" + rest == ['"'] + rest;
      assert (['"'] + rest)[1..] == rest;
    } else {
      var tail := EscapeAll(s[1..]) + "\"" + rest;
      ReadEscaped(s[1..], rest);
      assert EscapeAll(s) + "\"" + rest == Escape(s[0]) + tail;
      ReadChar(s[0], tail);
      assert [s[0]] + s[1..] == s;
    }
  }

  lemma {:induction false} ReadChar(c: char, tail: string)
    ensures ReadBasic(Escape(c) + tail) == PutBack(c, ReadBasic(tail))
  {
    var e := Escape(c);
    if |e| == 1 {
      assert (e + tail)[1..] == tail;
    } else {
      assert (e + tail)[2..] == tail;
    }
  }

  lemma {:induction false} ReadEncoded(s: string, rest: string)
    ensures ReadString(TomlString(s) + rest) == Some((s, rest))
  {
    var t := EscapeAll(s) + "\"" + rest;
    assert TomlString(s) + rest == ['"'] + t;
    assert (['"'] + t)[1..] == t;
    ReadEscaped(s, rest);
  }

  /** Decoding an encoded string returns it. */
  lemma {:induction false} StringRoundTrip(s: string)
    ensures DecodeString(TomlString(s)) == Some(s)
  {
    ReadEncoded(s, "");
    assert TomlString(s) + "" == TomlString(s);
  }

  lemma {:induction false} ReadNext(s: string, tail: string, more: seq<string>)
    requires ReadItems(tail) == Some((more, ""))
    ensures ReadItems(TomlString(s) + (", " + tail)) == Some(([s] + more, ""))
  {
    ReadEncoded(s, ", " + tail);
    assert (", " + tail)[2..] == tail;
  }

  lemma {:induction false} ReadLast(s: string)
    ensures ReadItems(TomlString(s) + "]") == Some(([s], ""))
  {
    ReadEncoded(s, "]");
    assert "]"[1..] == "";
  }

  lemma {:induction false} ReadElements(items: seq<string>)
    requires items != []
    ensures ReadItems(Elements(items) + "]") == Some((items, ""))
  {
    if |items| == 1 {
      ReadLast(items[0]);
      assert items == [items[0]];
    } else {
      var tail := Elements(items[1..]) + "]";
      ReadElements(items[1..]);
      ReadNext(items[0], tail, items[1..]);
      ConcatFour(TomlString(items[0]), ", ", Elements(items[1..]), "]");
      assert [items[0]] + items[1..] == items;
    }
  }

  /** Decoding an encoded list of strings returns it. */
  lemma {:induction false} ArrayRoundTrip(items: seq<string>)
    ensures DecodeArray(TomlStringArray(items)) == Some(items)
  {
    var t := TomlStringArray(items);
    assert t[1..] == Elements(items) + "]";
    if items == [] {
      assert t[1..] == "]";
    } else {
      ElementsLong(items);
      ReadElements(items);
    }
  }

  lemma {:induction false} ElementsLong(items: seq<string>)
    requires items != []
    ensures |Elements(items)| >= 2
  {}
}
