/// What the surgical editor promises about whole files, line endings included.

module TomlFile {
  import opened GoStrings
  import opened TomlLines
  import opened TomlEdit
  import opened TomlDocument
  import opened TomlKeys
  import opened TomlSearch
  import opened TomlLaws
  import opened Wrappers

  function Items(text: string): seq<Item> {
    Parse(Lines(text))
  }

  /** The file has no line inside a value that the editor could take for a header or an edited key. */
  predicate Editable(text: string, edits: seq<Edit>) {
    forall k :: 0 <= k < |edits| ==> PlainItems(Items(text), edits[k].key)
  }

  /// Line endings.

  lemma {:induction false} JoinableRest(lines: seq<string>, nl: string)
    requires Joinable(lines, nl) && |lines| > 1
    ensures Joinable(lines[1..], nl) && '\n' !in lines[0] && (nl == LF ==> !EndsCR(lines[0]))
  {}

  lemma {:induction false} JoinableDrop(lines: seq<string>, n: nat, nl: string)
    requires Joinable(lines, nl) && n < |lines|
    ensures Joinable(lines[n..], nl)
  {}

  lemma {:induction false} JoinableCons(l: string, rest: seq<string>, nl: string)
    requires '\n' !in l && (nl == LF && rest != [] ==> !EndsCR(l)) && (nl == LF || nl == CRLF)
    requires rest == [] || Joinable(rest, nl)
    ensures Joinable([l] + rest, nl)
  {}

  /** The lines after an edit split and join like the lines before it, and there are no more of them. */
  lemma {:induction false} SetJoinable(lines: seq<string>, nl: string, cur: string, e: Edit)
    requires Proper(e) && Joinable(lines, nl) && SetLines(lines, cur, e.table, e.key, e.literal).Some?
    ensures var out := SetLines(lines, cur, e.table, e.key, e.literal).value;
            Joinable(out, nl) && |out| <= |lines|
    decreases |lines|
  {
    var out := SetLines(lines, cur, e.table, e.key, e.literal).value;
    if TableHeader(lines[0]).None? && cur == e.table && IsKeyLine(lines[0], e.key) {
      var n := Span(lines, 0).value;
      NewLineBreaks(lines[0], e.key, e.literal);
      if n < |lines| {
        JoinableDrop(lines, n, nl);
      }
      JoinableCons(NewLine(lines[0], e.key, e.literal), lines[n..], nl);
    } else {
      var next := match TableHeader(lines[0]) case Some(name) => name case None => cur;
      var rest := SetLines(lines[1..], next, e.table, e.key, e.literal).value;
      assert |lines| > 1;
      JoinableRest(lines, nl);
      SetJoinable(lines[1..], nl, next, e);
      assert out == [lines[0]] + rest;
      JoinableCons(lines[0], rest, nl);
    }
  }

  /// One edit of a file.

  function Written(r: Option<seq<Item>>, nl: string): Option<string> {
    match r
    case Some(items) => if Flatten(items) == [] then None else Some(Join(Flatten(items), nl))
    case None => None
  }

  /** The editor makes the edit on the file's items and keeps the file's line ending. */
  lemma {:induction false} EditText(text: string, e: Edit)
    requires BareKey(e.key) && PlainItems(Items(text), e.key)
    ensures SetText(text, e.table, e.key, e.literal) == Written(SetItems(Items(text), "", e), Eol(text))
  {
    EditorSeesItems(Lines(text), "", e);
    SetNonempty(Lines(text), "", e.table, e.key, e.literal);
  }

  lemma {:induction false} EditedItems(text: string, e: Edit)
    requires Proper(e) && PlainItems(Items(text), e.key) && SetText(text, e.table, e.key, e.literal).Some?
    ensures var t := SetText(text, e.table, e.key, e.literal).value;
            && SetItems(Items(text), "", e) == Some(Items(t))
            && t == Join(Lines(t), Eol(text))
            && (|Lines(t)| > 1 ==> Eol(t) == Eol(text))
            && |Lines(t)| <= |Lines(text)|
  {
    var lines, nl := Lines(text), Eol(text);
    EditorSeesItems(lines, "", e);
    TextJoinable(text);
    SetJoinable(lines, nl, "", e);
    SetStable(lines, "", e);
    LinesOfJoin(SetLines(lines, "", e.table, e.key, e.literal).value, nl);
  }

  /** The lines of the entry `key` of `table`, as the reference reader finds them. */
  function ReadEntry(text: string, table: string, key: string): Option<seq<string>> {
    Read(Items(text), "", table, key)
  }

  /** The value of an entry that is written on one line. */
  function ValueOf(entry: Option<seq<string>>): Option<string> {
    match entry
    case Some(lines) =>
      if |lines| == 1 && IndexByte(lines[0], '=') >= 0 then Some(TrimSpace(lines[0][IndexByte(lines[0], '=') + 1..]))
      else None
    case None => None
  }

  function ReadValue(text: string, table: string, key: string): Option<string> {
    ValueOf(ReadEntry(text, table, key))
  }

  lemma {:induction false} TrimLiteral(v: string)
    requires Literal(v)
    ensures TrimSpace(" " + v) == v
  {
    assert (" " + v)[1..] == v && IsSpace((" " + v)[0]);
    assert TrimLeftSpace(" " + v) == TrimLeftSpace(v) == v;
  }

  lemma {:induction false} NewLineReads(line: string, e: Edit)
    requires Proper(e)
    ensures var l := NewLine(line, e.key, e.literal);
            IndexByte(l, '=') >= 0 && TrimSpace(l[IndexByte(l, '=') + 1..]) == e.literal
  {
    var a := Indent(line);
    IndentBlank(line);
    var u := a + e.key + " ";
    forall k | 0 <= k < |u|
      ensures u[k] != '='
    {
      if k < |a| {
        assert IsBlank(a[k]);
      } else if k < |a + e.key| {
        assert BareChar(e.key[k - |a|]);
      }
    }
    LineForm(a, e.key, e.literal);
    FirstIndex(u, " " + e.literal);
    TrimLiteral(e.literal);
    assert NewLine(line, e.key, e.literal)[|u| + 1..] == " " + e.literal;
  }

  /** When an edit succeeds: the reader finds the entry, with a value on its line, and it ends. */
  lemma {:induction false} EditSucceeds(text: string, e: Edit)
    requires BareKey(e.key) && PlainItems(Items(text), e.key)
    ensures SetText(text, e.table, e.key, e.literal).Some? <==>
            match ReadEntry(text, e.table, e.key)
            case Some(lines) => lines != [] && !NoValue(lines[0]) && Ends(Entry(e.key, lines))
            case None => false
  {
    EditText(text, e);
    SetSucceeds(Items(text), "", e);
    EditorSeesItems(Lines(text), "", e);
    SetNonempty(Lines(text), "", e.table, e.key, e.literal);
  }

  /** After an edit the entry reads as the literal. */
  lemma {:induction false} EditReadBack(text: string, e: Edit)
    requires Proper(e) && PlainItems(Items(text), e.key) && SetText(text, e.table, e.key, e.literal).Some?
    ensures ReadValue(SetText(text, e.table, e.key, e.literal).value, e.table, e.key) == Some(e.literal)
  {
    var l := EditedEntry(text, e);
    EntryReads(SetText(text, e.table, e.key, e.literal).value, l, e);
  }

  lemma {:induction false} EntryReads(text: string, l: string, e: Edit)
    requires Proper(e) && ReadEntry(text, e.table, e.key) == Some([NewLine(l, e.key, e.literal)])
    ensures ReadValue(text, e.table, e.key) == Some(e.literal)
  {
    NewLineReads(l, e);
    OneLineValue(text, e.table, e.key, NewLine(l, e.key, e.literal));
  }

  lemma {:induction false} OneLineValue(text: string, table: string, key: string, l: string)
    requires ReadEntry(text, table, key) == Some([l]) && IndexByte(l, '=') >= 0
    ensures ReadValue(text, table, key) == Some(TrimSpace(l[IndexByte(l, '=') + 1..]))
  {}

  lemma {:induction false} EditedEntry(text: string, e: Edit) returns (l: string)
    requires Proper(e) && PlainItems(Items(text), e.key) && SetText(text, e.table, e.key, e.literal).Some?
    ensures ReadEntry(SetText(text, e.table, e.key, e.literal).value, e.table, e.key) ==
            Some([NewLine(l, e.key, e.literal)])
  {
    EditedItems(text, e);
    SetReads(Items(text), "", e, e.table, e.key);
    l := Read(Items(text), "", e.table, e.key).value[0];
  }

  /** After an edit every other entry reads as before. */
  lemma {:induction false} EditFrame(text: string, e: Edit, table: string, key: string)
    requires Proper(e) && PlainItems(Items(text), e.key) && SetText(text, e.table, e.key, e.literal).Some?
    requires table != e.table || key != e.key
    ensures ReadEntry(SetText(text, e.table, e.key, e.literal).value, table, key) == ReadEntry(text, table, key)
  {
    EditedItems(text, e);
    SetReads(Items(text), "", e, table, key);
  }

  /// The shape of an edit, for every file.

  /** `out` is `lines` with the closed value that starts at `i` replaced by the new line. */
  predicate ReplacesSpan(lines: seq<string>, out: seq<string>, i: nat, n: nat, e: Edit) {
    && n > 0 && i + n <= |lines|
    && IsKeyLine(lines[i], e.key) && Span(lines[i..], 0) == Some(n)
    && out == lines[..i] + [NewLine(lines[i], e.key, e.literal)] + lines[i + n..]
  }

  lemma {:induction false} SpanDeeper(l: string, lines: seq<string>, out: seq<string>, i: nat, n: nat, e: Edit)
    requires ReplacesSpan(lines, out, i, n, e)
    ensures ReplacesSpan([l] + lines, [l] + out, i + 1, n, e)
  {
    var more := [l] + lines;
    assert more[i + 1..] == lines[i..] && more[i + 1 + n..] == lines[i + n..];
    assert more[..i + 1] == [l] + lines[..i];
  }

  lemma {:induction false} SpanHere(lines: seq<string>, e: Edit)
    requires lines != [] && IsKeyLine(lines[0], e.key) && Replaced(lines, e.key, e.literal).Some?
    ensures ReplacesSpan(lines, Replaced(lines, e.key, e.literal).value, 0, Span(lines, 0).value, e)
  {
    assert lines[0..] == lines && lines[..0] == [];
  }

  /** The place of the edit: the first line with the key in its table, as the table cursor sees it. */
  function Place(lines: seq<string>, cur: string, e: Edit): nat
    decreases |lines|
  {
    if lines == [] then 0
    else
      match TableHeader(lines[0])
      case Some(name) => 1 + Place(lines[1..], name, e)
      case None => if cur == e.table && IsKeyLine(lines[0], e.key) then 0 else 1 + Place(lines[1..], cur, e)
  }

  lemma {:induction false} OneSpanReplaced(lines: seq<string>, cur: string, e: Edit) returns (i: nat, n: nat)
    requires SetLines(lines, cur, e.table, e.key, e.literal).Some?
    ensures i == Place(lines, cur, e)
    ensures ReplacesSpan(lines, SetLines(lines, cur, e.table, e.key, e.literal).value, i, n, e)
    decreases |lines|
  {
    if TableHeader(lines[0]).None? && cur == e.table && IsKeyLine(lines[0], e.key) {
      i, n := 0, Span(lines, 0).value;
      SpanHere(lines, e);
    } else {
      var next := SearchOn(lines, cur, e);
      var k, m := OneSpanReplaced(lines[1..], next, e);
      i, n := k + 1, m;
      SpanDeeper(lines[0], lines[1..], SetLines(lines[1..], next, e.table, e.key, e.literal).value, k, m, e);
    }
  }

  /** A line that is not the sought one is kept and the search goes on in its table. */
  lemma {:induction false} SearchOn(lines: seq<string>, cur: string, e: Edit) returns (next: string)
    requires SetLines(lines, cur, e.table, e.key, e.literal).Some?
    requires !(TableHeader(lines[0]).None? && cur == e.table && IsKeyLine(lines[0], e.key))
    ensures SetLines(lines[1..], next, e.table, e.key, e.literal).Some?
    ensures SetLines(lines, cur, e.table, e.key, e.literal).value ==
            [lines[0]] + SetLines(lines[1..], next, e.table, e.key, e.literal).value
    ensures lines == [lines[0]] + lines[1..]
    ensures Place(lines, cur, e) == Place(lines[1..], next, e) + 1
  {
    next := match TableHeader(lines[0]) case Some(name) => name case None => cur;
  }

  /** In every file, the new lines are the old ones with one closed value replaced by one line. */
  lemma {:induction false} EditShape(text: string, e: Edit)
    requires SetText(text, e.table, e.key, e.literal).Some?
    ensures exists i, n, out ::
              ReplacesSpan(Lines(text), out, i, n, e)
              && SetText(text, e.table, e.key, e.literal) == Some(Join(out, Eol(text)))
  {
    var i, n := OneSpanReplaced(Lines(text), "", e);
  }

  /// Batches.

  lemma {:induction false} EditKeepsEditable(text: string, e: Edit, edits: seq<Edit>)
    requires Proper(e) && PlainItems(Items(text), e.key) && SetText(text, e.table, e.key, e.literal).Some?
    requires Editable(text, edits)
    ensures Editable(SetText(text, e.table, e.key, e.literal).value, edits)
  {
    EditedItems(text, e);
    forall k | 0 <= k < |edits|
      ensures PlainItems(Items(SetText(text, e.table, e.key, e.literal).value), edits[k].key)
    {
      SetPlain(Items(text), "", e, edits[k].key);
    }
  }

  /** What a successful batch leaves: the edited items, in the file's own line ending. */
  predicate BatchLeaves(text: string, edits: seq<Edit>, t: string) {
    && BatchItems(Items(text), edits) == Some(Items(t))
    && t == Join(Lines(t), Eol(text))
    && (|Lines(t)| > 1 ==> Eol(t) == Eol(text))
    && |Lines(t)| <= |Lines(text)|
  }

  lemma {:induction false} FirstEdit(text: string, edits: seq<Edit>)
    requires AllProper(edits) && Editable(text, edits) && edits != []
    ensures var e := edits[0];
            var r := SetText(text, e.table, e.key, e.literal);
            && Proper(e) && PlainItems(Items(text), e.key)
            && (r.None? ==> SetItems(Items(text), "", e) == None)
            && (r.Some? ==> BatchLeaves(text, [e], r.value) && Editable(r.value, edits[1..]))
  {
    var e := edits[0];
    assert Proper(e) && PlainItems(Items(text), e.key);
    if SetText(text, e.table, e.key, e.literal).Some? {
      EditedItems(text, e);
      OneItem(Items(text), e);
      assert Editable(text, edits[1..]) by {
        assert forall k :: 0 <= k < |edits| - 1 ==> edits[1..][k] == edits[k + 1];
      }
      EditKeepsEditable(text, e, edits[1..]);
    } else {
      EditorSeesItems(Lines(text), "", e);
      SetNonempty(Lines(text), "", e.table, e.key, e.literal);
    }
  }

  lemma {:induction false} OneItem(items: seq<Item>, e: Edit)
    ensures BatchItems(items, [e]) == SetItems(items, "", e)
  {
    assert [e][1..] == [];
    if SetItems(items, "", e).Some? {
      assert BatchItems(SetItems(items, "", e).value, []) == SetItems(items, "", e);
    }
  }

  /** Batches on the text are batches on its items. */
  lemma {:induction false} BatchText(text: string, edits: seq<Edit>)
    requires AllProper(edits) && Editable(text, edits) && edits != []
    ensures match Batch(text, edits)
            case Some(t) => BatchLeaves(text, edits, t)
            case None => BatchItems(Items(text), edits) == None
    decreases |edits|
  {
    var e, rest := edits[0], edits[1..];
    var r := SetText(text, e.table, e.key, e.literal);
    FirstEdit(text, edits);
    OneItem(Items(text), e);
    if r.None? {
      assert BatchItems(Items(text), edits) == None;
    } else {
      assert BatchItems(Items(text), edits) == BatchItems(Items(r.value), rest);
      assert Batch(text, edits) == Batch(r.value, rest);
      if rest == [] {
        assert edits == [e];
      } else {
        AllProperRest(edits);
        BatchText(r.value, rest);
        if Batch(r.value, rest).Some? {
          LeavesTwice(text, e, r.value, rest, Batch(r.value, rest).value);
        }
      }
    }
  }

  lemma {:induction false} AllProperRest(edits: seq<Edit>)
    requires edits != [] && AllProper(edits)
    ensures AllProper(edits[1..])
  {
    assert forall k :: 0 <= k < |edits| - 1 ==> edits[1..][k] == edits[k + 1];
  }

  lemma {:induction false} LeavesTwice(text: string, e: Edit, t: string, rest: seq<Edit>, u: string)
    requires BatchLeaves(text, [e], t) && BatchLeaves(t, rest, u)
    ensures u == Join(Lines(u), Eol(text))
    ensures |Lines(u)| > 1 ==> Eol(u) == Eol(text)
    ensures |Lines(u)| <= |Lines(text)|
  {
    JoinOne(Lines(u), Eol(t), Eol(text));
  }

  lemma {:induction false} BatchKeepsEditable(text: string, part: seq<Edit>, edits: seq<Edit>)
    requires AllProper(part) && Editable(text, part) && Editable(text, edits) && Batch(text, part).Some?
    ensures Editable(Batch(text, part).value, edits)
    decreases |part|
  {
    if part != [] {
      var e, rest := part[0], part[1..];
      assert Proper(e) && PlainItems(Items(text), e.key);
      EditKeepsEditable(text, e, part);
      EditKeepsEditable(text, e, edits);
      assert forall k :: 0 <= k < |rest| ==> rest[k] == part[k + 1];
      BatchKeepsEditable(SetText(text, e.table, e.key, e.literal).value, rest, edits);
    }
  }

  lemma {:induction false} SameText(a: string, b: string, nl: string)
    requires Items(a) == Items(b)
    ensures Lines(a) == Lines(b) && Join(Lines(a), nl) == Join(Lines(b), nl)
  {
    FlattenParse(Lines(a));
    FlattenParse(Lines(b));
  }

  lemma {:induction false} JoinOne(lines: seq<string>, nl: string, ml: string)
    requires lines != [] && (|lines| > 1 ==> nl == ml)
    ensures Join(lines, nl) == Join(lines, ml)
  {}

  /** Applying a batch of edits twice gives the text of applying it once. */
  lemma {:induction false} BatchIdempotent(text: string, edits: seq<Edit>)
    requires AllProper(edits) && Editable(text, edits) && Batch(text, edits).Some?
    ensures Batch(Batch(text, edits).value, edits) == Batch(text, edits)
  {
    if edits != [] {
      var t := Batch(text, edits).value;
      BatchText(text, edits);
      BatchKeepsEditable(text, edits, edits);
      BatchText(t, edits);
      BatchTwice(Items(text), edits);
      var u := Batch(t, edits).value;
      SameText(u, t, Eol(t));
      JoinOne(Lines(t), Eol(t), Eol(text));
    }
  }

  /** Edits of different names give the same text in either order. */
  lemma {:induction false} EditsCommute(text: string, e: Edit, f: Edit)
    requires Proper(e) && Proper(f) && !SameName(e, f) && Editable(text, [e, f])
    ensures Batch(text, [e, f]) == Batch(text, [f, e])
  {
    assert [e, f][0] == e && [e, f][1] == f;
    assert Editable(text, [f, e]);
    BatchText(text, [e, f]);
    BatchText(text, [f, e]);
    TwoItems(Items(text), e, f);
    TwoItems(Items(text), f, e);
    if SetItems(Items(text), "", e).Some? {
      Commutes(Items(text), "", e, f);
    }
    if SetItems(Items(text), "", f).Some? {
      Commutes(Items(text), "", f, e);
    }
    if Batch(text, [e, f]).Some? && Batch(text, [f, e]).Some? {
      SameText(Batch(text, [e, f]).value, Batch(text, [f, e]).value, Eol(text));
    }
  }

  lemma {:induction false} TwoItems(items: seq<Item>, e: Edit, f: Edit)
    ensures BatchItems(items, [e, f]) == Then(SetItems(items, "", e), "", f)
  {
    assert [e, f][1..] == [f];
    if SetItems(items, "", e).Some? {
      OneItem(SetItems(items, "", e).value, f);
    }
  }

  /** Of two edits of one name the later one wins: the file is as if the first had not been made. */
  lemma {:induction false} LaterWins(text: string, e: Edit, f: Edit)
    requires Proper(e) && Proper(f) && SameName(e, f) && Editable(text, [e, f])
    ensures Batch(text, [e, f]) == Batch(text, [f])
  {
    assert [e, f][0] == e && [e, f][1] == f && [f][0] == f;
    assert PlainItems(Items(text), f.key);
    BatchText(text, [e, f]);
    BatchText(text, [f]);
    SameItems(Items(text), e, f);
    if Batch(text, [e, f]).Some? && Batch(text, [f]).Some? {
      SameText(Batch(text, [e, f]).value, Batch(text, [f]).value, Eol(text));
    }
  }

  lemma {:induction false} SameItems(items: seq<Item>, e: Edit, f: Edit)
    requires Proper(e) && SameName(e, f)
    ensures BatchItems(items, [e, f]) == BatchItems(items, [f])
  {
    TwoItems(items, e, f);
    OneItem(items, f);
    SetSucceeds(items, "", e);
    SetSucceeds(items, "", f);
    if SetItems(items, "", e).Some? {
      Overwrites(items, "", e, f);
    }
  }

  /// Edits made again.

  lemma {:induction false} UnchangedText(text: string, e: Edit, nl: string)
    requires BareKey(e.key) && PlainItems(Items(text), e.key) && SetItems(Items(text), "", e) == Some(Items(text))
    requires text == Join(Lines(text), nl) && (|Lines(text)| > 1 ==> Eol(text) == nl)
    ensures SetText(text, e.table, e.key, e.literal) == Some(text)
  {
    EditText(text, e);
    FlattenParse(Lines(text));
    JoinOne(Lines(text), Eol(text), nl);
  }

  lemma {:induction false} SurvivorProper(edits: seq<Edit>, e: Edit)
    requires AllProper(edits) && Survives(edits, e)
    ensures Proper(e) && exists k :: 0 <= k < |edits| && edits[k] == e
  {}

  lemma {:induction false} SurvivorPlain(text: string, edits: seq<Edit>, e: Edit)
    requires Editable(text, edits) && Survives(edits, e)
    ensures PlainItems(Items(text), e.key)
  {
    var k :| 0 <= k < |edits| && edits[k] == e && forall j :: k < j < |edits| ==> !SameName(edits[j], e);
    assert PlainItems(Items(text), edits[k].key);
  }

  /** After a batch, an edit of it that no later edit overwrites changes nothing when made again. */
  lemma {:induction false} EditAgain(text: string, edits: seq<Edit>, e: Edit)
    requires AllProper(edits) && Editable(text, edits) && Batch(text, edits).Some? && Survives(edits, e)
    ensures SetText(Batch(text, edits).value, e.table, e.key, e.literal) == Batch(text, edits)
  {
    var t := Batch(text, edits).value;
    BatchText(text, edits);
    ItemsAgain(Items(text), edits, e);
    BatchKeepsEditable(text, edits, edits);
    SurvivorProper(edits, e);
    SurvivorPlain(t, edits, e);
    UnchangedText(t, e, Eol(text));
  }

  /** So does any batch of such edits, in any order and number. */
  lemma {:induction false} BatchAgain(text: string, edits: seq<Edit>, again: seq<Edit>)
    requires AllProper(edits) && Editable(text, edits) && Batch(text, edits).Some?
    requires forall k :: 0 <= k < |again| ==> Survives(edits, again[k])
    ensures Batch(Batch(text, edits).value, again) == Batch(text, edits)
    decreases |again|
  {
    if again != [] {
      assert Survives(edits, again[0]);
      EditAgain(text, edits, again[0]);
      assert forall k :: 0 <= k < |again| - 1 ==> again[1..][k] == again[k + 1];
      BatchAgain(text, edits, again[1..]);
    }
  }

  /** Two batches one after the other are one batch. */
  lemma {:induction false} BatchConcat(text: string, first: seq<Edit>, second: seq<Edit>)
    ensures Batch(text, first + second) ==
            match Batch(text, first) case Some(mid) => Batch(mid, second) case None => None
    decreases |first|
  {
    if first == [] {
      assert first + second == second;
    } else {
      assert (first + second)[1..] == first[1..] + second;
      var r := SetText(text, first[0].table, first[0].key, first[0].literal);
      if r.Some? {
        BatchConcat(r.value, first[1..], second);
      }
    }
  }
}
