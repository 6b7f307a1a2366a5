/// The configuration commands: prices, RPC addresses, moniker and oracle.

module ConfigEdits {
  import opened TomlLiterals
  import opened TomlEdit
  import opened TomlDocument
  import opened TomlLaws
  import opened TomlFile
  import opened Wrappers

  function PriceEdits(gigabyte: string, hourly: string): seq<Edit> {
    [Edit("node", "gigabyte_prices", TomlString(gigabyte)), Edit("node", "hourly_prices", TomlString(hourly))]
  }

  function RpcEdits(addrs: seq<string>): seq<Edit> {
    [Edit("rpc", "addrs", TomlStringArray(addrs))]
  }

  function MonikerEdits(moniker: string): seq<Edit> {
    [Edit("node", "moniker", TomlString(moniker))]
  }

  /** What is set beside the name: the default endpoint `lcd`, if `EditOracle` decides for it. */
  function Endpoint(setDefault: bool, lcd: string): Option<string> {
    if setDefault then Some(lcd) else None
  }

  function OracleEdits(name: string, endpoint: Option<string>): seq<Edit> {
    match endpoint
    case Some(lcd) => [Edit("oracle", "name", TomlString(name)), Edit("oracle.osmosis", "api_addr", TomlString(lcd))]
    case None => [Edit("oracle", "name", TomlString(name))]
  }

  /// What the encoders emit can be edited in.

  lemma {:induction false} StringLiteral(s: string)
    ensures Literal(TomlString(s))
  {
    NoBreakString(s);
    StringDelta(s, "");
    assert TomlString(s) + "" == TomlString(s);
    assert TomlString(s)[|TomlString(s)| - 1] == '"';
  }

  lemma {:induction false} ArrayLiteral(items: seq<string>)
    ensures Literal(TomlStringArray(items))
  {
    NoBreakElements(items);
    ArrayDelta(items, "");
    assert TomlStringArray(items) + "" == TomlStringArray(items);
    assert TomlStringArray(items)[|TomlStringArray(items)| - 1] == ']';
  }

  lemma {:induction false} KeysAreBare()
    ensures BareKey("gigabyte_prices") && BareKey("hourly_prices") && BareKey("addrs")
    ensures BareKey("moniker") && BareKey("name") && BareKey("api_addr")
  {}

  lemma {:induction false} ProperString(table: string, key: string, s: string)
    requires BareKey(key)
    ensures Proper(Edit(table, key, TomlString(s)))
  {
    StringLiteral(s);
  }

  lemma {:induction false} PricesProper(gigabyte: string, hourly: string)
    ensures AllProper(PriceEdits(gigabyte, hourly))
  {
    KeysAreBare();
    ProperString("node", "gigabyte_prices", gigabyte);
    ProperString("node", "hourly_prices", hourly);
  }

  lemma {:induction false} AddressesProper(addrs: seq<string>)
    ensures AllProper(RpcEdits(addrs))
  {
    KeysAreBare();
    ArrayLiteral(addrs);
  }

  lemma {:induction false} OracleProper(name: string, endpoint: Option<string>)
    ensures AllProper(OracleEdits(name, endpoint))
  {
    KeysAreBare();
    ProperString("oracle", "name", name);
    if endpoint.Some? {
      ProperString("oracle.osmosis", "api_addr", endpoint.value);
    }
  }

  /// Reading a batch back.

  lemma {:induction false} BatchOne(text: string, e: Edit)
    ensures Batch(text, [e]) == SetText(text, e.table, e.key, e.literal)
  {
    assert [e][1..] == [];
    if SetText(text, e.table, e.key, e.literal).Some? {
      assert Batch(SetText(text, e.table, e.key, e.literal).value, []) == SetText(text, e.table, e.key, e.literal);
    }
  }

  lemma {:induction false} PairSplit(text: string, e: Edit, f: Edit) returns (mid: string)
    requires Proper(e) && Proper(f) && Editable(text, [e, f]) && Batch(text, [e, f]).Some?
    ensures PlainItems(Items(text), e.key) && SetText(text, e.table, e.key, e.literal) == Some(mid)
    ensures PlainItems(Items(mid), f.key) && Batch(text, [e, f]) == SetText(mid, f.table, f.key, f.literal)
  {
    assert [e, f][1..] == [f];
    FirstEdit(text, [e, f]);
    mid := SetText(text, e.table, e.key, e.literal).value;
    assert [f][0] == f;
    BatchOne(mid, f);
  }

  /** One edit and then another of a different name: both values are there afterwards. */
  lemma {:induction false} PairReadBack(text: string, e: Edit, f: Edit)
    requires Proper(e) && Proper(f) && !SameName(e, f) && Editable(text, [e, f]) && Batch(text, [e, f]).Some?
    ensures ReadValue(Batch(text, [e, f]).value, e.table, e.key) == Some(e.literal)
    ensures ReadValue(Batch(text, [e, f]).value, f.table, f.key) == Some(f.literal)
  {
    var mid := PairSplit(text, e, f);
    EditReadBack(text, e);
    EditReadBack(mid, f);
    EditFrame(mid, f, e.table, e.key);
  }

  /** Entries of other names are as they were. */
  lemma {:induction false} PairFrame(text: string, e: Edit, f: Edit, table: string, key: string)
    requires Proper(e) && Proper(f) && Editable(text, [e, f]) && Batch(text, [e, f]).Some?
    requires (table != e.table || key != e.key) && (table != f.table || key != f.key)
    ensures ReadEntry(Batch(text, [e, f]).value, table, key) == ReadEntry(text, table, key)
  {
    var mid := PairSplit(text, e, f);
    EditFrame(text, e, table, key);
    EditFrame(mid, f, table, key);
  }

  /** The prices written are the prices read, for all strings, and nothing else in the file changes. */
  lemma {:induction false} PricesReadBack(text: string, gigabyte: string, hourly: string, table: string, key: string)
    requires Editable(text, PriceEdits(gigabyte, hourly)) && Batch(text, PriceEdits(gigabyte, hourly)).Some?
    ensures var t := Batch(text, PriceEdits(gigabyte, hourly)).value;
            && Decoded(ReadValue(t, "node", "gigabyte_prices")) == Some(gigabyte)
            && Decoded(ReadValue(t, "node", "hourly_prices")) == Some(hourly)
            && (table != "node" || (key != "gigabyte_prices" && key != "hourly_prices") ==>
                  ReadEntry(t, table, key) == ReadEntry(text, table, key))
  {
    var e := Edit("node", "gigabyte_prices", TomlString(gigabyte));
    var f := Edit("node", "hourly_prices", TomlString(hourly));
    KeysAreBare();
    ProperString("node", "gigabyte_prices", gigabyte);
    ProperString("node", "hourly_prices", hourly);
    PairReadBack(text, e, f);
    if table != "node" || (key != "gigabyte_prices" && key != "hourly_prices") {
      PairFrame(text, e, f, table, key);
    }
    StringRoundTrip(gigabyte);
    StringRoundTrip(hourly);
  }

  function Decoded(v: Option<string>): Option<string> {
    match v
    case Some(lit) => DecodeString(lit)
    case None => None
  }

  /** The addresses written are the addresses read, for every list of strings. */
  lemma {:induction false} AddressesReadBack(text: string, addrs: seq<string>)
    requires Editable(text, RpcEdits(addrs)) && Batch(text, RpcEdits(addrs)).Some?
    ensures var v := ReadValue(Batch(text, RpcEdits(addrs)).value, "rpc", "addrs");
            v.Some? && DecodeArray(v.value) == Some(addrs)
  {
    var e := Edit("rpc", "addrs", TomlStringArray(addrs));
    AddressesProper(addrs);
    assert e == RpcEdits(addrs)[0];
    BatchOne(text, e);
    EditReadBack(text, e);
    ArrayRoundTrip(addrs);
  }

  /** The moniker written is the moniker read. */
  lemma {:induction false} MonikerReadBack(text: string, moniker: string)
    requires Editable(text, MonikerEdits(moniker)) && Batch(text, MonikerEdits(moniker)).Some?
    ensures Decoded(ReadValue(Batch(text, MonikerEdits(moniker)).value, "node", "moniker")) == Some(moniker)
  {
    var e := Edit("node", "moniker", TomlString(moniker));
    KeysAreBare();
    assert e == MonikerEdits(moniker)[0];
    OneStringReadBack(text, e, moniker);
  }

  lemma {:induction false} OneStringReadBack(text: string, e: Edit, s: string)
    requires BareKey(e.key) && e.literal == TomlString(s) && PlainItems(Items(text), e.key) && Batch(text, [e]).Some?
    ensures Decoded(ReadValue(Batch(text, [e]).value, e.table, e.key)) == Some(s)
  {
    StringLiteral(s);
    BatchOne(text, e);
    EditReadBack(text, e);
    StringRoundTrip(s);
  }

  /** The oracle written is the oracle read; the endpoint is the one set, or else as it was. */
  lemma {:induction false} OracleReadBack(text: string, name: string, endpoint: Option<string>)
    requires Editable(text, OracleEdits(name, endpoint)) && Batch(text, OracleEdits(name, endpoint)).Some?
    ensures var t := Batch(text, OracleEdits(name, endpoint)).value;
            && Decoded(ReadValue(t, "oracle", "name")) == Some(name)
            && (if endpoint.Some? then Decoded(ReadValue(t, "oracle.osmosis", "api_addr")) == endpoint
                else ReadEntry(t, "oracle.osmosis", "api_addr") == ReadEntry(text, "oracle.osmosis", "api_addr"))
  {
    var e := Edit("oracle", "name", TomlString(name));
    KeysAreBare();
    ProperString("oracle", "name", name);
    assert OracleEdits(name, endpoint)[0] == e;
    if endpoint.Some? {
      var f := Edit("oracle.osmosis", "api_addr", TomlString(endpoint.value));
      ProperString("oracle.osmosis", "api_addr", endpoint.value);
      PairReadBack(text, e, f);
      StringRoundTrip(name);
      StringRoundTrip(endpoint.value);
    } else {
      OneStringReadBack(text, e, name);
      BatchOne(text, e);
      EditFrame(text, e, "oracle.osmosis", "api_addr");
    }
  }

  /// Commands sent again.

  /**
   * `EditOracle`: whether the default endpoint is set depends on the name and on the entry the
   * endpoint has in the file; `decide` is any such decision.
   */
  function OracleUpdate(text: string, name: string, decide: (string, Option<seq<string>>) -> bool, lcd: string): Option<string> {
    Batch(text, OracleEdits(name, Endpoint(decide(name, ReadEntry(text, "oracle.osmosis", "api_addr")), lcd)))
  }

  datatype Command =
    | PriceUpdate(gigabyte: string, hourly: string, oracle: Option<string>)
    | RpcUpdate(addrs: seq<string>)
    | MonikerUpdate(moniker: string)

  /** `applyConfig`: the file after the command, if all its edits can be made. */
  function Applied(text: string, c: Command, decide: (string, Option<seq<string>>) -> bool, lcd: string): Option<string> {
    match c
    case PriceUpdate(gigabyte, hourly, oracle) =>
      (match Batch(text, PriceEdits(gigabyte, hourly))
       case None => None
       case Some(mid) => if oracle.None? then Some(mid) else OracleUpdate(mid, oracle.value, decide, lcd))
    case RpcUpdate(addrs) => if addrs == [] then None else Batch(text, RpcEdits(addrs))
    case MonikerUpdate(moniker) => Batch(text, MonikerEdits(moniker))
  }

  /** Every edit the command may make. */
  function EditsOf(c: Command, lcd: string): seq<Edit> {
    match c
    case PriceUpdate(gigabyte, hourly, oracle) =>
      PriceEdits(gigabyte, hourly) + if oracle.Some? then OracleEdits(oracle.value, Some(lcd)) else []
    case RpcUpdate(addrs) => RpcEdits(addrs)
    case MonikerUpdate(moniker) => MonikerEdits(moniker)
  }

  lemma {:induction false} MonikerProper(moniker: string)
    ensures AllProper(MonikerEdits(moniker))
  {
    KeysAreBare();
    ProperString("node", "moniker", moniker);
  }

  predicate DistinctNames(edits: seq<Edit>) {
    forall j, k :: 0 <= j < k < |edits| ==> !SameName(edits[k], edits[j])
  }

  lemma {:induction false} AllSurvive(edits: seq<Edit>, part: seq<Edit>)
    requires DistinctNames(edits) && forall e :: e in part ==> e in edits
    ensures forall k :: 0 <= k < |part| ==> Survives(edits, part[k])
  {
    forall k | 0 <= k < |part|
      ensures Survives(edits, part[k])
    {
      assert part[k] in part;
      var j :| 0 <= j < |edits| && edits[j] == part[k];
    }
  }

  /** A batch of edits of different names leaves a text in which making any of them again changes nothing. */
  lemma {:induction false} PartAgain(text: string, edits: seq<Edit>, part: seq<Edit>)
    requires AllProper(edits) && DistinctNames(edits) && Editable(text, edits) && Batch(text, edits).Some?
    requires forall e :: e in part ==> e in edits
    ensures Batch(Batch(text, edits).value, part) == Batch(text, edits)
  {
    AllSurvive(edits, part);
    BatchAgain(text, edits, part);
  }

  lemma {:induction false} NamesDiffer(gigabyte: string, hourly: string, name: string, endpoint: Option<string>)
    ensures DistinctNames(PriceEdits(gigabyte, hourly) + OracleEdits(name, endpoint))
    ensures DistinctNames(OracleEdits(name, endpoint))
  {
    assert |"gigabyte_prices"| != |"hourly_prices"| && |"node"| != |"oracle"| && |"node"| != |"oracle.osmosis"|
        && |"oracle"| != |"oracle.osmosis"|;
  }

  lemma {:induction false} ProperConcat(a: seq<Edit>, b: seq<Edit>)
    requires AllProper(a) && AllProper(b)
    ensures AllProper(a + b)
  {
    forall k | 0 <= k < |a + b|
      ensures Proper((a + b)[k])
    {
      assert (a + b)[k] == if k < |a| then a[k] else b[k - |a|];
    }
  }

  lemma {:induction false} EditableSplit(text: string, a: seq<Edit>, b: seq<Edit>)
    requires Editable(text, a + b)
    ensures Editable(text, a) && Editable(text, b)
  {
    forall k | 0 <= k < |a|
      ensures PlainItems(Items(text), a[k].key)
    {
      assert (a + b)[k] == a[k];
    }
    forall k | 0 <= k < |b|
      ensures PlainItems(Items(text), b[k].key)
    {
      assert (a + b)[|a| + k] == b[k];
    }
  }

  lemma {:induction false} EditableJoin(text: string, a: seq<Edit>, b: seq<Edit>)
    requires Editable(text, a) && Editable(text, b)
    ensures Editable(text, a + b)
  {
    forall k | 0 <= k < |a + b|
      ensures PlainItems(Items(text), (a + b)[k].key)
    {
      assert (a + b)[k] == if k < |a| then a[k] else b[k - |a|];
    }
  }

  lemma {:induction false} OracleEditable(text: string, name: string, endpoint: Option<string>, lcd: string)
    requires Editable(text, OracleEdits(name, Some(lcd)))
    ensures Editable(text, OracleEdits(name, endpoint))
  {
    var all, part := OracleEdits(name, Some(lcd)), OracleEdits(name, endpoint);
    forall k | 0 <= k < |part|
      ensures PlainItems(Items(text), part[k].key)
    {
      assert all[k].key == part[k].key;
    }
  }

  /** The decision the second time: the endpoint's entry is as it was, unless it has been set. */
  lemma {:induction false} DecisionKept(mid: string, name: string, endpoint: Option<string>)
    requires Editable(mid, OracleEdits(name, endpoint)) && Batch(mid, OracleEdits(name, endpoint)).Some?
    requires endpoint.None?
    ensures ReadEntry(Batch(mid, OracleEdits(name, endpoint)).value, "oracle.osmosis", "api_addr") ==
            ReadEntry(mid, "oracle.osmosis", "api_addr")
  {
    var e := Edit("oracle", "name", TomlString(name));
    KeysAreBare();
    ProperString("oracle", "name", name);
    assert OracleEdits(name, endpoint)[0] == e;
    BatchOne(mid, e);
    EditFrame(mid, e, "oracle.osmosis", "api_addr");
  }

  lemma {:induction false} SameEndpoint(name: string, lcd: string, d1: bool, d2: bool)
    requires d1 || !d2
    ensures forall e :: e in OracleEdits(name, Endpoint(d2, lcd)) ==> e in OracleEdits(name, Endpoint(d1, lcd))
  {}

  /** A price update with an oracle, sent again: the first time the endpoint may be set, the second time not. */
  lemma {:induction false} PricesTwice(text: string, c: Command, decide: (string, Option<seq<string>>) -> bool, lcd: string)
    requires c.PriceUpdate? && c.oracle.Some?
    requires Editable(text, EditsOf(c, lcd)) && Applied(text, c, decide, lcd).Some?
    ensures Applied(Applied(text, c, decide, lcd).value, c, decide, lcd) == Applied(text, c, decide, lcd)
  {
    var p, name := PriceEdits(c.gigabyte, c.hourly), c.oracle.value;
    var mid := Batch(text, p).value;
    var d1 := decide(name, ReadEntry(mid, "oracle.osmosis", "api_addr"));
    var o1 := OracleEdits(name, Endpoint(d1, lcd));
    var t := Batch(mid, o1).value;
    EditableSplit(text, p, OracleEdits(name, Some(lcd)));
    OracleEditable(text, name, Endpoint(d1, lcd), lcd);
    EditableJoin(text, p, o1);
    PricesProper(c.gigabyte, c.hourly);
    BatchKeepsEditable(text, p, o1);
    BothBatches(text, c.gigabyte, c.hourly, name, Endpoint(d1, lcd));
    PartAgain(text, p + o1, p);
    if !d1 {
      DecisionKept(mid, name, Endpoint(d1, lcd));
    }
    var d2 := decide(name, ReadEntry(t, "oracle.osmosis", "api_addr"));
    SameEndpoint(name, lcd, d1, d2);
    PartAgain(text, p + o1, OracleEdits(name, Endpoint(d2, lcd)));
  }

  lemma {:induction false} BothBatches(text: string, gigabyte: string, hourly: string, name: string, endpoint: Option<string>)
    ensures var p := PriceEdits(gigabyte, hourly);
            var o := OracleEdits(name, endpoint);
            && AllProper(p + o) && DistinctNames(p + o)
            && Batch(text, p + o) == match Batch(text, p) case Some(mid) => Batch(mid, o) case None => None
  {
    PricesProper(gigabyte, hourly);
    OracleProper(name, endpoint);
    ProperConcat(PriceEdits(gigabyte, hourly), OracleEdits(name, endpoint));
    NamesDiffer(gigabyte, hourly, name, endpoint);
    BatchConcat(text, PriceEdits(gigabyte, hourly), OracleEdits(name, endpoint));
  }

  /**
   * A configuration command carried out twice leaves the file of carrying it out once: prices with and
   * without an oracle, whatever is decided about its endpoint, addresses and moniker, for all values.
   */
  lemma {:induction false} CommandTwice(text: string, c: Command, decide: (string, Option<seq<string>>) -> bool, lcd: string)
    requires Editable(text, EditsOf(c, lcd)) && Applied(text, c, decide, lcd).Some?
    ensures Applied(Applied(text, c, decide, lcd).value, c, decide, lcd) == Applied(text, c, decide, lcd)
  {
    match c {
      case PriceUpdate(gigabyte, hourly, oracle) =>
        if oracle.Some? {
          PricesTwice(text, c, decide, lcd);
        } else {
          PricesProper(gigabyte, hourly);
          assert EditsOf(c, lcd) == PriceEdits(gigabyte, hourly);
          BatchIdempotent(text, PriceEdits(gigabyte, hourly));
        }
      case RpcUpdate(addrs) =>
        AddressesProper(addrs);
        BatchIdempotent(text, RpcEdits(addrs));
      case MonikerUpdate(moniker) =>
        MonikerProper(moniker);
        BatchIdempotent(text, MonikerEdits(moniker));
    }
  }

  /// What the commands leave in the file.

  /** A price update that is carried out leaves exactly the prices sent, each under its own key, and the oracle's name. */
  lemma {:induction false} PriceUpdateReads(text: string, gigabyte: string, hourly: string, oracle: Option<string>,
                                            decide: (string, Option<seq<string>>) -> bool, lcd: string)
    requires var c := PriceUpdate(gigabyte, hourly, oracle);
             Editable(text, EditsOf(c, lcd)) && Applied(text, c, decide, lcd).Some?
    ensures var t := Applied(text, PriceUpdate(gigabyte, hourly, oracle), decide, lcd).value;
            && Decoded(ReadValue(t, "node", "gigabyte_prices")) == Some(gigabyte)
            && Decoded(ReadValue(t, "node", "hourly_prices")) == Some(hourly)
            && (oracle.Some? ==> Decoded(ReadValue(t, "oracle", "name")) == oracle)
  {
    var p := PriceEdits(gigabyte, hourly);
    var mid := Batch(text, p).value;
    if oracle.None? {
      assert EditsOf(PriceUpdate(gigabyte, hourly, oracle), lcd) == p;
      PricesReadBack(text, gigabyte, hourly, "", "");
    } else {
      var name := oracle.value;
      var endpoint := Endpoint(decide(name, ReadEntry(mid, "oracle.osmosis", "api_addr")), lcd);
      EditableSplit(text, p, OracleEdits(name, Some(lcd)));
      PricesReadBack(text, gigabyte, hourly, "", "");
      OracleEditable(text, name, endpoint, lcd);
      PricesProper(gigabyte, hourly);
      BatchKeepsEditable(text, p, OracleEdits(name, endpoint));
      OracleReadBack(mid, name, endpoint);
      OracleFrame(mid, name, endpoint, "node", "gigabyte_prices");
      OracleFrame(mid, name, endpoint, "node", "hourly_prices");
    }
  }

  lemma {:induction false} OracleFrame(text: string, name: string, endpoint: Option<string>, table: string, key: string)
    requires Editable(text, OracleEdits(name, endpoint)) && Batch(text, OracleEdits(name, endpoint)).Some?
    requires |table| != |"oracle"| && |table| != |"oracle.osmosis"|
    ensures ReadEntry(Batch(text, OracleEdits(name, endpoint)).value, table, key) == ReadEntry(text, table, key)
  {
    var e := Edit("oracle", "name", TomlString(name));
    KeysAreBare();
    ProperString("oracle", "name", name);
    assert OracleEdits(name, endpoint)[0] == e;
    if endpoint.Some? {
      var f := Edit("oracle.osmosis", "api_addr", TomlString(endpoint.value));
      ProperString("oracle.osmosis", "api_addr", endpoint.value);
      PairFrame(text, e, f, table, key);
    } else {
      BatchOne(text, e);
      EditFrame(text, e, table, key);
    }
  }

  /** The other commands: addresses, unless the list is empty, and moniker. */
  lemma {:induction false} OtherCommandsRead(text: string, addrs: seq<string>, moniker: string,
                                             decide: (string, Option<seq<string>>) -> bool, lcd: string)
    ensures addrs == [] ==> Applied(text, RpcUpdate(addrs), decide, lcd) == None
    ensures Editable(text, RpcEdits(addrs)) && Applied(text, RpcUpdate(addrs), decide, lcd).Some? ==>
              var v := ReadValue(Applied(text, RpcUpdate(addrs), decide, lcd).value, "rpc", "addrs");
              v.Some? && DecodeArray(v.value) == Some(addrs)
    ensures Editable(text, MonikerEdits(moniker)) && Applied(text, MonikerUpdate(moniker), decide, lcd).Some? ==>
              Decoded(ReadValue(Applied(text, MonikerUpdate(moniker), decide, lcd).value, "node", "moniker")) == Some(moniker)
  {
    if Editable(text, RpcEdits(addrs)) && Applied(text, RpcUpdate(addrs), decide, lcd).Some? {
      AddressesReadBack(text, addrs);
    }
    if Editable(text, MonikerEdits(moniker)) && Applied(text, MonikerUpdate(moniker), decide, lcd).Some? {
      MonikerReadBack(text, moniker);
    }
  }

  /** A default endpoint is set exactly if the decision is for it, and then it is `lcd`. */
  lemma {:induction false} EndpointSet(text: string, name: string, decide: (string, Option<seq<string>>) -> bool, lcd: string)
    requires Editable(text, OracleEdits(name, Some(lcd))) && OracleUpdate(text, name, decide, lcd).Some?
    ensures var t := OracleUpdate(text, name, decide, lcd).value;
            && Decoded(ReadValue(t, "oracle", "name")) == Some(name)
            && (if decide(name, ReadEntry(text, "oracle.osmosis", "api_addr"))
                then Decoded(ReadValue(t, "oracle.osmosis", "api_addr")) == Some(lcd)
                else ReadEntry(t, "oracle.osmosis", "api_addr") == ReadEntry(text, "oracle.osmosis", "api_addr"))
  {
    var endpoint := Endpoint(decide(name, ReadEntry(text, "oracle.osmosis", "api_addr")), lcd);
    OracleEditable(text, name, endpoint, lcd);
    OracleReadBack(text, name, endpoint);
  }

  /// When a command can be carried out.

  /** The file has the entry, with a value on its line, and the value ends. */
  predicate Replaceable(text: string, table: string, key: string) {
    match ReadEntry(text, table, key)
    case Some(lines) => lines != [] && !NoValue(lines[0]) && Ends(Entry(key, lines))
    case None => false
  }

  lemma {:induction false} OneSucceeds(text: string, e: Edit)
    requires Proper(e) && Editable(text, [e])
    ensures Batch(text, [e]).Some? <==> Replaceable(text, e.table, e.key)
  {
    assert [e][0] == e;
    BatchOne(text, e);
    EditSucceeds(text, e);
  }

  lemma {:induction false} PairSucceeds(text: string, e: Edit, f: Edit)
    requires Proper(e) && Proper(f) && !SameName(e, f) && Editable(text, [e, f])
    ensures Batch(text, [e, f]).Some? <==> Replaceable(text, e.table, e.key) && Replaceable(text, f.table, f.key)
  {
    assert [e, f][0] == e && [e, f][1..] == [f];
    FirstEdit(text, [e, f]);
    EditSucceeds(text, e);
    if SetText(text, e.table, e.key, e.literal).Some? {
      var mid := SetText(text, e.table, e.key, e.literal).value;
      EditFrame(text, e, f.table, f.key);
      OneSucceeds(mid, f);
    }
  }

  lemma {:induction false} PricesSucceed(text: string, gigabyte: string, hourly: string)
    requires Editable(text, PriceEdits(gigabyte, hourly))
    ensures Batch(text, PriceEdits(gigabyte, hourly)).Some? <==>
            Replaceable(text, "node", "gigabyte_prices") && Replaceable(text, "node", "hourly_prices")
  {
    KeysAreBare();
    ProperString("node", "gigabyte_prices", gigabyte);
    ProperString("node", "hourly_prices", hourly);
    PairSucceeds(text, Edit("node", "gigabyte_prices", TomlString(gigabyte)), Edit("node", "hourly_prices", TomlString(hourly)));
  }

  lemma {:induction false} OracleSucceeds(text: string, name: string, endpoint: Option<string>)
    requires Editable(text, OracleEdits(name, endpoint))
    ensures Batch(text, OracleEdits(name, endpoint)).Some? <==>
            Replaceable(text, "oracle", "name") && (endpoint.Some? ==> Replaceable(text, "oracle.osmosis", "api_addr"))
  {
    var e := Edit("oracle", "name", TomlString(name));
    KeysAreBare();
    ProperString("oracle", "name", name);
    if endpoint.Some? {
      ProperString("oracle.osmosis", "api_addr", endpoint.value);
      PairSucceeds(text, e, Edit("oracle.osmosis", "api_addr", TomlString(endpoint.value)));
    } else {
      OneSucceeds(text, e);
    }
  }

  /** What the oracle's entries are when the prices have been written: what they were. */
  lemma {:induction false} OracleUntouched(text: string, gigabyte: string, hourly: string, key: string, table: string)
    requires Editable(text, PriceEdits(gigabyte, hourly)) && Batch(text, PriceEdits(gigabyte, hourly)).Some?
    requires |table| != |"node"|
    ensures ReadEntry(Batch(text, PriceEdits(gigabyte, hourly)).value, table, key) == ReadEntry(text, table, key)
  {
    PricesReadBack(text, gigabyte, hourly, table, key);
  }

  /** A price update is carried out exactly if all entries it names can be replaced; the decision is made on the file as sent. */
  lemma {:induction false} PriceUpdateSucceeds(text: string, gigabyte: string, hourly: string, oracle: Option<string>,
                                               decide: (string, Option<seq<string>>) -> bool, lcd: string)
    requires Editable(text, EditsOf(PriceUpdate(gigabyte, hourly, oracle), lcd))
    ensures Applied(text, PriceUpdate(gigabyte, hourly, oracle), decide, lcd).Some? <==>
            && Replaceable(text, "node", "gigabyte_prices") && Replaceable(text, "node", "hourly_prices")
            && (oracle.Some? ==> Replaceable(text, "oracle", "name"))
            && (oracle.Some? && decide(oracle.value, ReadEntry(text, "oracle.osmosis", "api_addr")) ==>
                  Replaceable(text, "oracle.osmosis", "api_addr"))
  {
    var p := PriceEdits(gigabyte, hourly);
    if oracle.None? {
      assert EditsOf(PriceUpdate(gigabyte, hourly, oracle), lcd) == p;
      PricesSucceed(text, gigabyte, hourly);
    } else {
      EditableSplit(text, p, OracleEdits(oracle.value, Some(lcd)));
      PricesSucceed(text, gigabyte, hourly);
      if Batch(text, p).Some? {
        OraclePart(text, gigabyte, hourly, oracle.value, decide, lcd);
      }
    }
  }

  lemma {:induction false} OraclePart(text: string, gigabyte: string, hourly: string, name: string,
                                      decide: (string, Option<seq<string>>) -> bool, lcd: string)
    requires Editable(text, PriceEdits(gigabyte, hourly)) && Batch(text, PriceEdits(gigabyte, hourly)).Some?
    requires Editable(text, OracleEdits(name, Some(lcd)))
    ensures OracleUpdate(Batch(text, PriceEdits(gigabyte, hourly)).value, name, decide, lcd).Some? <==>
            && Replaceable(text, "oracle", "name")
            && (decide(name, ReadEntry(text, "oracle.osmosis", "api_addr")) ==> Replaceable(text, "oracle.osmosis", "api_addr"))
  {
    var mid := Batch(text, PriceEdits(gigabyte, hourly)).value;
    var endpoint := Endpoint(decide(name, ReadEntry(mid, "oracle.osmosis", "api_addr")), lcd);
    OracleUntouched(text, gigabyte, hourly, "name", "oracle");
    OracleUntouched(text, gigabyte, hourly, "api_addr", "oracle.osmosis");
    PricesProper(gigabyte, hourly);
    OracleEditable(text, name, endpoint, lcd);
    BatchKeepsEditable(text, PriceEdits(gigabyte, hourly), OracleEdits(name, endpoint));
    OracleSucceeds(mid, name, endpoint);
  }

  /** So are the other commands. */
  lemma {:induction false} OtherCommandsSucceed(text: string, addrs: seq<string>, moniker: string,
                                                decide: (string, Option<seq<string>>) -> bool, lcd: string)
    requires Editable(text, RpcEdits(addrs)) && Editable(text, MonikerEdits(moniker))
    ensures Applied(text, RpcUpdate(addrs), decide, lcd).Some? <==> addrs != [] && Replaceable(text, "rpc", "addrs")
    ensures Applied(text, MonikerUpdate(moniker), decide, lcd).Some? <==> Replaceable(text, "node", "moniker")
  {
    KeysAreBare();
    ArrayLiteral(addrs);
    ProperString("node", "moniker", moniker);
    OneSucceeds(text, Edit("rpc", "addrs", TomlStringArray(addrs)));
    OneSucceeds(text, Edit("node", "moniker", TomlString(moniker)));
  }
}
