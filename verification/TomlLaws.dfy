/// The algebra of edits on items: what is read afterwards, which edits absorb each other and
/// which commute, and that a batch applied twice is a batch applied once.

module TomlLaws {
  import opened TomlEdit
  import opened TomlDocument
  import opened TomlSearch
  import opened Wrappers

  /** An edit of a bare key with a literal the encoders could have emitted. */
  predicate Proper(e: Edit) {
    BareKey(e.key) && Literal(e.literal)
  }

  predicate SameName(e: Edit, f: Edit) {
    e.table == f.table && e.key == f.key
  }

  /// The edited items are what the reader finds in the edited lines.

  lemma {:induction false} EndsIfMore(lines: seq<string>)
    requires lines != [] && |LinesOf(FirstItem(lines))| < |lines|
    ensures Ends(FirstItem(lines))
  {
    if FirstItem(lines).Entry? {
      SpanTake(lines, 0);
    }
  }

  lemma {:induction false} NewEntry(line: string, e: Edit)
    requires Proper(e)
    ensures var item := Entry(e.key, [NewLine(line, e.key, e.literal)]);
            FirstItem(LinesOf(item)) == item && Ends(item)
  {
    NewLineEntry(line, e.key, e.literal);
    var lines := [NewLine(line, e.key, e.literal)];
    assert Span(lines, 0) == Some(1) && lines[..1] == lines;
  }

  lemma {:induction false} SetNone(cur: string, e: Edit)
    ensures SetItems([], cur, e) == None
  {}

  lemma {:induction false} StableCons(lines: seq<string>, it: seq<Item>)
    requires lines != [] && Ends(FirstItem(lines)) && Parse(Flatten(it)) == it
    ensures Parse(Flatten([FirstItem(lines)] + it)) == [FirstItem(lines)] + it
  {
    var item := FirstItem(lines);
    FirstItemLines(lines);
    FirstItemAlone(lines);
    ItemLocal(item, Flatten(it));
    FlattenCons(item, it);
  }

  /** Reading the edited lines gives the edited items. */
  lemma {:induction false} SetStable(lines: seq<string>, cur: string, e: Edit)
    requires Proper(e) && SetItems(Parse(lines), cur, e).Some?
    ensures var it := SetItems(Parse(lines), cur, e).value; Parse(Flatten(it)) == it
    decreases |lines|
  {
    var item := FirstItem(lines);
    var n := |LinesOf(item)|;
    var rest := Parse(lines[n..]);
    FirstItemLines(lines);
    assert Parse(lines)[1..] == rest;
    if item.Entry? && cur == e.table && item.key == e.key {
      NewEntry(item.lines[0], e);
      ItemLocal(Entry(e.key, [NewLine(item.lines[0], e.key, e.literal)]), lines[n..]);
      FlattenParse(lines[n..]);
      FlattenCons(Entry(e.key, [NewLine(item.lines[0], e.key, e.literal)]), rest);
    } else {
      var next := if item.Header? then item.name else cur;
      if n == |lines| {
        assert lines[n..] == [];
        SetNone(next, e);
        assert false;
      }
      EndsIfMore(lines);
      SetStable(lines[n..], next, e);
      StableCons(lines, SetItems(rest, next, e).value);
    }
  }

  /// What an edit changes.

  /** An edit succeeds exactly if the reader finds the entry, on one line or closed, with a value. */
  lemma {:induction false} SetSucceeds(items: seq<Item>, cur: string, e: Edit)
    ensures SetItems(items, cur, e).Some? <==>
            match Read(items, cur, e.table, e.key)
            case Some(lines) => lines != [] && !NoValue(lines[0]) && Ends(Entry(e.key, lines))
            case None => false
    decreases |items|
  {
    if items != [] {
      SetSucceeds(items[1..], if items[0].Header? then items[0].name else cur, e);
    }
  }

  /** Afterwards the sought entry is the new line and every other entry is what it was. */
  lemma {:induction false} SetReads(items: seq<Item>, cur: string, e: Edit, table: string, key: string)
    requires SetItems(items, cur, e).Some?
    ensures var it := SetItems(items, cur, e).value;
            var before := Read(items, cur, e.table, e.key);
            && before.Some? && before.value != []
            && Read(it, cur, table, key) ==
               if table == e.table && key == e.key then Some([NewLine(before.value[0], e.key, e.literal)])
               else Read(items, cur, table, key)
    decreases |items|
  {
    if !(items[0].Entry? && cur == e.table && items[0].key == e.key) {
      SetReads(items[1..], if items[0].Header? then items[0].name else cur, e, table, key);
    }
  }

  lemma {:induction false} SetPlain(items: seq<Item>, cur: string, e: Edit, key: string)
    requires SetItems(items, cur, e).Some? && PlainItems(items, key)
    ensures PlainItems(SetItems(items, cur, e).value, key)
    decreases |items|
  {
    var it := SetItems(items, cur, e).value;
    assert PlainItem(items[0], key);
    assert PlainItems(items[1..], key) by {
      assert forall k :: 0 <= k < |items| - 1 ==> items[1..][k] == items[k + 1];
    }
    if items[0].Entry? && cur == e.table && items[0].key == e.key {
      PlainCons(it[0], items[1..], key);
    } else {
      var next := if items[0].Header? then items[0].name else cur;
      SetPlain(items[1..], next, e, key);
      PlainCons(items[0], SetItems(items[1..], next, e).value, key);
    }
  }

  lemma {:induction false} PlainCons(item: Item, rest: seq<Item>, key: string)
    requires PlainItem(item, key) && PlainItems(rest, key)
    ensures PlainItems([item] + rest, key)
  {}

  /// Two edits.

  /** A later edit of the same name undoes the earlier one. */
  lemma {:induction false} Overwrites(items: seq<Item>, cur: string, e: Edit, f: Edit)
    requires Proper(e) && SameName(e, f) && SetItems(items, cur, e).Some?
    ensures SetItems(SetItems(items, cur, e).value, cur, f) == SetItems(items, cur, f)
    decreases |items|
  {
    var x := SetItems(items, cur, e).value;
    assert x[1..] == if items[0].Entry? && cur == e.table && items[0].key == e.key then items[1..]
                     else SetItems(items[1..], if items[0].Header? then items[0].name else cur, e).value;
    if items[0].Entry? && cur == e.table && items[0].key == e.key {
      var l := items[0].lines[0];
      NewEntry(l, e);
      NewLineEntry(l, e.key, e.literal);
      NewLineIndent(l, e.key, e.literal, f.literal);
    } else {
      Overwrites(items[1..], if items[0].Header? then items[0].name else cur, e, f);
    }
  }

  function Then(r: Option<seq<Item>>, cur: string, e: Edit): Option<seq<Item>> {
    match r
    case Some(items) => SetItems(items, cur, e)
    case None => None
  }

  /** Edits of different names can be exchanged; neither makes the other fail or succeed. */
  lemma {:induction false} Commutes(items: seq<Item>, cur: string, e: Edit, f: Edit)
    requires !SameName(e, f) && SetItems(items, cur, e).Some?
    ensures SetItems(SetItems(items, cur, e).value, cur, f) == Then(SetItems(items, cur, f), cur, e)
    ensures SetItems(items, cur, f).Some? ==> Then(SetItems(items, cur, f), cur, e).Some?
    decreases |items|
  {
    var x := SetItems(items, cur, e).value;
    var next := if items[0].Header? then items[0].name else cur;
    if items[0].Entry? && cur == e.table && items[0].key == e.key {
      assert x[1..] == items[1..];
      if SetItems(items, cur, f).Some? {
        assert SetItems(items, cur, f).value[1..] == SetItems(items[1..], cur, f).value;
      }
    } else if items[0].Entry? && cur == f.table && items[0].key == f.key {
      assert x[1..] == SetItems(items[1..], next, e).value;
      if SetItems(items, cur, f).Some? {
        assert SetItems(items, cur, f).value[1..] == items[1..];
      }
    } else {
      assert x[1..] == SetItems(items[1..], next, e).value;
      Commutes(items[1..], next, e, f);
      if SetItems(items, cur, f).Some? {
        assert SetItems(items, cur, f).value[1..] == SetItems(items[1..], next, f).value;
      }
    }
  }

  /// Batches.

  function BatchItems(items: seq<Item>, edits: seq<Edit>): Option<seq<Item>>
    decreases |edits|
  {
    if edits == [] then Some(items)
    else
      match SetItems(items, "", edits[0])
      case Some(next) => BatchItems(next, edits[1..])
      case None => None
  }

  predicate AllProper(edits: seq<Edit>) {
    forall k :: 0 <= k < |edits| ==> Proper(edits[k])
  }

  predicate Names(edits: seq<Edit>, e: Edit) {
    exists k :: 0 <= k < |edits| && SameName(edits[k], e)
  }

  /** An edit before a batch that edits the same name leaves no trace. */
  lemma {:induction false} BatchAbsorbs(items: seq<Item>, e: Edit, edits: seq<Edit>)
    requires Proper(e) && AllProper(edits) && Names(edits, e) && SetItems(items, "", e).Some?
    ensures BatchItems(SetItems(items, "", e).value, edits) == BatchItems(items, edits)
    decreases |edits|
  {
    var f := edits[0];
    if SameName(e, f) {
      Overwrites(items, "", e, f);
    } else {
      Commutes(items, "", e, f);
      if SetItems(items, "", f).Some? {
        var k :| 0 <= k < |edits| && SameName(edits[k], e);
        assert edits[1..][k - 1] == edits[k];
        BatchAbsorbs(SetItems(items, "", f).value, e, edits[1..]);
      }
    }
  }

  lemma {:induction false} BatchAfterPart(items: seq<Item>, part: seq<Edit>, edits: seq<Edit>)
    requires AllProper(edits) && AllProper(part) && forall k :: 0 <= k < |part| ==> Names(edits, part[k])
    requires BatchItems(items, part).Some?
    ensures BatchItems(BatchItems(items, part).value, edits) == BatchItems(items, edits)
    decreases |part|
  {
    if part != [] {
      BatchAbsorbs(items, part[0], edits);
      assert forall k :: 0 <= k < |part| - 1 ==> part[1..][k] == part[k + 1];
      BatchAfterPart(SetItems(items, "", part[0]).value, part[1..], edits);
    }
  }

  /** A batch applied to its own result changes nothing. */
  lemma {:induction false} BatchTwice(items: seq<Item>, edits: seq<Edit>)
    requires AllProper(edits) && BatchItems(items, edits).Some?
    ensures BatchItems(BatchItems(items, edits).value, edits) == BatchItems(items, edits)
  {
    assert forall k :: 0 <= k < |edits| ==> SameName(edits[k], edits[k]);
    BatchAfterPart(items, edits, edits);
  }

  /** The batch holds the edit, and nothing later in it overwrites that. */
  predicate Survives(edits: seq<Edit>, e: Edit) {
    exists k :: 0 <= k < |edits| && edits[k] == e && forall j :: k < j < |edits| ==> !SameName(edits[j], e)
  }

  /** An edit that changes nothing changes nothing after edits of other names. */
  lemma {:induction false} Settled(items: seq<Item>, e: Edit, rest: seq<Edit>)
    requires SetItems(items, "", e) == Some(items) && BatchItems(items, rest).Some?
    requires forall k :: 0 <= k < |rest| ==> !SameName(rest[k], e)
    ensures SetItems(BatchItems(items, rest).value, "", e) == BatchItems(items, rest)
    decreases |rest|
  {
    if rest != [] {
      var f := rest[0];
      assert !SameName(f, e);
      Commutes(items, "", f, e);
      assert forall k :: 0 <= k < |rest| - 1 ==> rest[1..][k] == rest[k + 1];
      Settled(SetItems(items, "", f).value, e, rest[1..]);
    }
  }

  lemma {:induction false} SurvivesCons(edits: seq<Edit>, e: Edit)
    requires edits != [] && Survives(edits, e)
    ensures Survives(edits[1..], e) || (edits[0] == e && forall k :: 0 <= k < |edits| - 1 ==> !SameName(edits[1..][k], e))
  {
    var k :| 0 <= k < |edits| && edits[k] == e && forall j :: k < j < |edits| ==> !SameName(edits[j], e);
    if k > 0 {
      assert edits[1..][k - 1] == e;
      assert forall j :: k - 1 < j < |edits| - 1 ==> edits[1..][j] == edits[j + 1];
    } else {
      assert forall j :: 0 <= j < |edits| - 1 ==> edits[1..][j] == edits[j + 1];
    }
  }

  /** After a batch, an edit of it that survived changes nothing when made again. */
  lemma {:induction false} ItemsAgain(items: seq<Item>, edits: seq<Edit>, e: Edit)
    requires AllProper(edits) && BatchItems(items, edits).Some? && Survives(edits, e)
    ensures SetItems(BatchItems(items, edits).value, "", e) == BatchItems(items, edits)
    decreases |edits|
  {
    var next := SetItems(items, "", edits[0]).value;
    SurvivesCons(edits, e);
    assert Proper(edits[0]);
    if Survives(edits[1..], e) {
      assert forall k :: 0 <= k < |edits| - 1 ==> edits[1..][k] == edits[k + 1];
      ItemsAgain(next, edits[1..], e);
    } else {
      Overwrites(items, "", e, e);
      Settled(next, e, edits[1..]);
    }
  }
}
