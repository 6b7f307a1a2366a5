/// The withdrawal log: one line "id hash" per recorded withdrawal, read with `strings.Fields`.

module IdempotencyLog {
  import opened GoStrings
  import opened Sequences
  import opened TomlLines

  /** How many characters of `s` come before its first white space. */
  function WordLength(s: string): (n: nat)
    ensures n <= |s|
    ensures forall k :: 0 <= k < n ==> !IsSpace(s[k])
    ensures n < |s| ==> IsSpace(s[n])
  {
    if s == "" || IsSpace(s[0]) then 0 else WordLength(s[1..]) + 1
  }

  lemma {:induction false} WordEnds(s: string, n: nat)
    requires n <= |s| && (forall k :: 0 <= k < n ==> !IsSpace(s[k])) && (n < |s| ==> IsSpace(s[n]))
    ensures WordLength(s) == n
  {
    if n > 0 {
      WordEnds(s[1..], n - 1);
    }
  }

  /** `strings.Fields`. */
  function Fields(s: string): seq<string>
    decreases |s|
  {
    TrimLeftShrinks(s);
    var t := TrimLeftSpace(s);
    if t == "" then [] else [t[..WordLength(t)]] + Fields(t[WordLength(t)..])
  }

  lemma {:induction false} TrimLeftShrinks(s: string)
    ensures |TrimLeftSpace(s)| <= |s|
    ensures TrimLeftSpace(s) != "" ==> !IsSpace(TrimLeftSpace(s)[0])
  {
    if s != "" && IsSpace(s[0]) {
      TrimLeftShrinks(s[1..]);
    }
  }

  /** Non-empty and free of white space. */
  predicate Word(s: string) {
    s != "" && forall k :: 0 <= k < |s| ==> !IsSpace(s[k])
  }

  function LineHash(line: string, key: string): string {
    var f := Fields(line);
    if |f| >= 2 && f[0] == key then f[1] else ""
  }

  function LookupLines(lines: seq<string>, key: string): string {
    if lines == [] then ""
    else if LineHash(lines[0], key) != "" then LineHash(lines[0], key)
    else LookupLines(lines[1..], key)
  }

  /** The hash recorded for `key`, or "" - also when the file cannot be read. */
  function Lookup(file: string, key: string): string {
    LookupLines(Split(file), key)
  }

  lemma {:induction false} FieldsAreWords(s: string)
    ensures forall k :: 0 <= k < |Fields(s)| ==> Word(Fields(s)[k])
    decreases |s|
  {
    TrimLeftShrinks(s);
    var t := TrimLeftSpace(s);
    if t != "" {
      FieldsAreWords(t[WordLength(t)..]);
    }
  }

  /** The source's loop over the lines of the file. */
  method LookupWithdraw(file: string, key: string) returns (hash: string)
    ensures hash == Lookup(file, key)
  {
    var lines := Split(file);
    for i := 0 to |lines|
      invariant Lookup(file, key) == LookupLines(lines[i..], key)
    {
      var f := Fields(lines[i]);
      FieldsAreWords(lines[i]);
      assert lines[i..][1..] == lines[i + 1..];
      if |f| >= 2 && f[0] == key {
        return f[1];
      }
    }
    return "";
  }

  lemma {:induction false} WordLengthBefore(a: string, b: string)
    ensures WordLength(a + " " + b) == WordLength(a)
  {
    WordEnds(a + " " + b, WordLength(a));
  }

  lemma {:induction false} FieldsConcat(a: string, b: string)
    ensures Fields(a + " " + b) == Fields(a) + Fields(b)
    decreases |a|
  {
    var t := a + " " + b;
    if a == "" {
      assert t == " " + b;
      assert (" " + b)[1..] == b;
      assert TrimLeftSpace(" " + b) == TrimLeftSpace(b);
    } else if IsSpace(a[0]) {
      assert t[1..] == a[1..] + " " + b;
      FieldsConcat(a[1..], b);
    } else {
      var n := WordLength(a);
      assert n > 0;
      FieldsConcat(a[n..], b);
      FirstWord(a, b);
      ConcatAssociates([a[..n]], Fields(a[n..]), Fields(b));
    }
  }

  lemma {:induction false} FirstWord(a: string, b: string)
    requires a != "" && !IsSpace(a[0])
    ensures Fields(a) == [a[..WordLength(a)]] + Fields(a[WordLength(a)..])
    ensures Fields(a + " " + b) == [a[..WordLength(a)]] + Fields(a[WordLength(a)..] + " " + b)
  {
    var t, n := a + " " + b, WordLength(a);
    WordLengthBefore(a, b);
    assert t[..n] == a[..n] && t[n..] == a[n..] + " " + b;
  }

  /// Appending to the log.

  function Prefix(s: string, n: nat): string {
    if n <= |s| then s[..n] else s
  }

  function Line(key: string, hash: string): string {
    key + " " + hash + "\n"
  }

  /** A record is written whole, or only its first `n` characters are; none are if the file cannot be opened. */
  datatype Append = Whole | Torn(n: nat)

  /** What reaches the file. */
  function Written(key: string, hash: string, record: Append): string {
    match record
    case Whole => Line(key, hash)
    case Torn(n) => Prefix(Line(key, hash), n)
  }

  /** Empty, or its last line is complete. */
  predicate Closed(file: string) {
    file == "" || file[|file| - 1] == '\n'
  }

  lemma {:induction false} SplitConcat(a: string, b: string)
    ensures Split(a + ("\n" + b)) == Split(a) + Split(b)
  {
    var t := a + ("\n" + b);
    if a == "" {
      assert t == "\n" + b;
      assert t[1..] == b;
    } else {
      assert t[1..] == a[1..] + ("\n" + b);
      SplitConcat(a[1..], b);
      GrowFirst(a[0], Split(a[1..]), Split(b));
    }
  }

  lemma {:induction false} GrowFirst(c: char, x: seq<string>, y: seq<string>)
    requires x != []
    ensures [[c] + (x + y)[0]] + (x + y)[1..] == [[c] + x[0]] + x[1..] + y
    ensures [""] + (x + y) == [""] + x + y
  {
    assert (x + y)[1..] == x[1..] + y;
  }

  lemma {:induction false} LookupConcat(xs: seq<string>, ys: seq<string>, key: string)
    ensures LookupLines(xs + ys, key) ==
            if LookupLines(xs, key) != "" then LookupLines(xs, key) else LookupLines(ys, key)
  {
    if xs == [] {
      assert xs + ys == ys;
    } else {
      LookupConcat(xs[1..], ys, key);
      assert (xs + ys)[1..] == xs[1..] + ys;
    }
  }

  lemma {:induction false} LookupEmpty(key: string)
    ensures LookupLines([""], key) == ""
  {
    assert Fields("") == [];
  }

  /** What is looked up in a closed log with something appended. */
  lemma {:induction false} LookupAppended(file: string, more: string, key: string)
    requires Closed(file)
    ensures Lookup(file + more, key) == if Lookup(file, key) != "" then Lookup(file, key) else Lookup(more, key)
  {
    LookupEmpty(key);
    if file == "" {
      assert file + more == more;
    } else {
      var a := file[..|file| - 1];
      assert file == a + ("\n" + "");
      assert file + more == a + ("\n" + more);
      SplitConcat(a, "");
      SplitConcat(a, more);
      LookupConcat(Split(a), Split(""), key);
      LookupConcat(Split(a), Split(more), key);
    }
  }

  /** A recorded hash is never lost or replaced, whatever is appended afterwards. */
  lemma {:induction false} LookupKept(file: string, more: string, key: string)
    requires Closed(file) && Lookup(file, key) != ""
    ensures Lookup(file + more, key) == Lookup(file, key)
  {
    LookupAppended(file, more, key);
  }

  lemma {:induction false} FieldsOfWord(w: string)
    requires Word(w)
    ensures Fields(w) == [w]
  {
    assert TrimLeftSpace(w) == w;
    WordEnds(w, |w|);
    assert w[..|w|] == w && Fields(w[|w|..]) == [];
  }

  lemma {:induction false} FieldsOfTwo(a: string, b: string)
    requires Word(a) && Word(b)
    ensures Fields(a + " " + b) == [a, b]
  {
    FieldsConcat(a, b);
    FieldsOfWord(a);
    FieldsOfWord(b);
  }

  lemma {:induction false} FieldsOfPart(w: string, n: nat)
    requires Word(w)
    ensures Fields(Prefix(w, n)) == if n == 0 then [] else [Prefix(w, n)]
  {
    if n == 0 {
      assert Prefix(w, 0) == "";
    } else {
      FieldsOfWord(Prefix(w, n));
    }
  }

  lemma {:induction false} NoBreakInWord(w: string)
    requires Word(w)
    ensures '\n' !in w
  {}

  /** Only a word can be looked up. */
  lemma {:induction false} OnlyWordsFound(lines: seq<string>, key: string)
    requires !Word(key)
    ensures LookupLines(lines, key) == ""
  {
    if lines != [] {
      FieldsAreWords(lines[0]);
      OnlyWordsFound(lines[1..], key);
    }
  }

  /// The last line of a log, which a torn record leaves incomplete.

  /** Everything up to the last line break. */
  function Complete(file: string): string {
    file[..LastIndexByte(file, '\n') + 1]
  }

  /** What follows the last line break. */
  function Tail(file: string): string {
    file[LastIndexByte(file, '\n') + 1..]
  }

  lemma {:induction false} TailParts(file: string)
    ensures file == Complete(file) + Tail(file) && Closed(Complete(file)) && '\n' !in Tail(file)
    ensures Closed(file) <==> Tail(file) == ""
  {
    var i := LastIndexByte(file, '\n');
    if i < 0 {
      assert Complete(file) == "" && Tail(file) == file;
    } else {
      assert Complete(file)[i] == '\n';
    }
  }

  lemma {:induction false} LastBreakGrows(file: string, more: string)
    ensures LastIndexByte(file + more, '\n') >= LastIndexByte(file, '\n')
  {
    var i := LastIndexByte(file, '\n');
    if i >= 0 {
      assert (file + more)[i] == '\n';
    }
  }

  lemma {:induction false} LastBreaks(file: string, more: string) returns (i: nat, j: nat)
    ensures i <= j && i <= |file| && j <= |file + more|
    ensures Complete(file) == file[..i] && Complete(file + more) == (file + more)[..j]
  {
    LastBreakGrows(file, more);
    i, j := LastIndexByte(file, '\n') + 1, LastIndexByte(file + more, '\n') + 1;
  }

  lemma {:induction false} LongerHead(s: string, t: string, i: nat, j: nat) returns (next: string)
    requires i <= j && i <= |s| && j <= |s + t|
    ensures (s + t)[..j] == s[..i] + next
  {
    next := (s + t)[i..j];
  }

  /** Complete lines stay as they are. */
  lemma {:induction false} CompleteGrows(file: string, more: string) returns (next: string)
    ensures Complete(file + more) == Complete(file) + next
  {
    var i, j := LastBreaks(file, more);
    next := LongerHead(file, more, i, j);
  }

  lemma {:induction false} SplitHead(t: string, more: string)
    requires '\n' !in t
    ensures Split(t + more) == [t + Split(more)[0]] + Split(more)[1..]
  {
    if t == "" {
      assert t + more == more && "" + Split(more)[0] == Split(more)[0];
      assert Split(more) == [Split(more)[0]] + Split(more)[1..];
    } else {
      assert (t + more)[1..] == t[1..] + more;
      SplitHead(t[1..], more);
      assert t == [t[0]] + t[1..];
      ConcatAssociates([t[0]], t[1..], Split(more)[0]);
    }
  }

  /** What is looked up in any log with something appended. */
  lemma {:induction false} LookupAnyAppended(file: string, more: string, key: string)
    ensures Lookup(file + more, key) ==
            if Lookup(Complete(file), key) != "" then Lookup(Complete(file), key)
            else LookupLines(Split(Tail(file) + more), key)
  {
    TailParts(file);
    LookupAppended(Complete(file), Tail(file) + more, key);
    ConcatAssociates(Complete(file), Tail(file), more);
  }

  lemma {:induction false} LookupAny(file: string, key: string)
    ensures Lookup(file, key) ==
            if Lookup(Complete(file), key) != "" then Lookup(Complete(file), key) else LineHash(Tail(file), key)
  {
    LookupAnyAppended(file, "", key);
    TailParts(file);
    SplitLast(Tail(file));
    assert file + "" == file && Tail(file) + "" == Tail(file);
  }

  lemma {:induction false} TrimLeftExtend(t: string, x: string)
    requires TrimLeftSpace(t) != ""
    ensures TrimLeftSpace(t + x) == TrimLeftSpace(t) + x
  {
    if IsSpace(t[0]) {
      assert (t + x)[1..] == t[1..] + x;
      TrimLeftExtend(t[1..], x);
    }
  }

  lemma {:induction false} WordExtend(t: string, x: string)
    ensures WordLength(t + x) >= WordLength(t)
    ensures WordLength(t) < |t| ==> WordLength(t + x) == WordLength(t)
  {
    if t != "" && !IsSpace(t[0]) {
      assert (t + x)[1..] == t[1..] + x;
      WordExtend(t[1..], x);
    }
  }

  /** The first field grows with the text, and does not if another one follows. */
  lemma {:induction false} FirstFieldExtend(t: string, x: string)
    requires Fields(t) != []
    ensures Fields(t + x) != [] && Fields(t)[0] <= Fields(t + x)[0]
    ensures |Fields(t)| > 1 ==> Fields(t + x)[0] == Fields(t)[0]
  {
    TrimLeftShrinks(t);
    var u := TrimLeftSpace(t);
    TrimLeftExtend(t, x);
    WordExtend(u, x);
    if WordLength(u) == |u| {
      assert u[WordLength(u)..] == "" && Fields("") == [];
    }
  }

  lemma {:induction false} OneField(t: string, u: string)
    requires u == TrimLeftSpace(t) && WordLength(u) == |u|
    ensures |Fields(t)| <= 1
  {
    assert u[|u|..] == "" && Fields("") == [];
  }

  /** Two fields stay the first two when a line is continued: the second one may grow. */
  lemma {:induction false} TwoFieldsExtend(t: string, x: string)
    requires |Fields(t)| > 1
    ensures |Fields(t + x)| > 1 && Fields(t + x)[0] == Fields(t)[0] && Fields(t)[1] <= Fields(t + x)[1]
  {
    TrimLeftShrinks(t);
    var u := TrimLeftSpace(t);
    var n := WordLength(u);
    TrimLeftExtend(t, x);
    if n == |u| {
      OneField(t, u);
    }
    WordExtend(u, x);
    FirstFieldExtend(u[n..], x);
    AfterFirst(t, u, n);
    AfterFirst(t + x, u + x, n);
    assert (u + x)[n..] == u[n..] + x && (u + x)[..n] == u[..n];
  }

  lemma {:induction false} AfterFirst(t: string, u: string, n: nat)
    requires u == TrimLeftSpace(t) && u != "" && n == WordLength(u)
    ensures Fields(t) == [u[..n]] + Fields(u[n..])
  {}

  lemma {:induction false} HashExtend(t: string, x: string, key: string)
    requires LineHash(t, key) != ""
    ensures LineHash(t, key) <= LineHash(t + x, key) && LineHash(t + x, key) != ""
  {
    TwoFieldsExtend(t, x);
  }

  /**
   * An id that is found stays found, in any log and whatever is appended; its hash stays too if its
   * line is complete, and otherwise it may be continued.
   */
  lemma {:induction false} FoundStays(file: string, more: string, key: string)
    requires Lookup(file, key) != ""
    ensures Lookup(file + more, key) != "" && Lookup(file, key) <= Lookup(file + more, key)
    ensures Lookup(Complete(file), key) != "" ==> Lookup(file + more, key) == Lookup(file, key)
  {
    LookupAny(file, key);
    LookupAnyAppended(file, more, key);
    if Lookup(Complete(file), key) == "" {
      TailParts(file);
      SplitHead(Tail(file), more);
      HashExtend(Tail(file), Split(more)[0], key);
    }
  }

  /// Which records are found again.

  /** The hash that is read back for `key` if `part` is what follows the key and a blank. */
  function HashRead(key: string, part: string): string {
    var first := Fields(Split(part)[0]);
    if first != [] then first[0] else LookupLines(Split(part)[1..], key)
  }

  /** What was written of the hash. */
  function HashPart(key: string, hash: string, record: Append): string {
    match record
    case Whole => hash
    case Torn(n) => if n <= |key| then "" else Prefix(hash, n - |key| - 1)
  }

  lemma {:induction false} FirstFieldWord(s: string)
    requires Fields(s) != []
    ensures Word(Fields(s)[0])
  {
    FieldsAreWords(s);
  }

  lemma {:induction false} KeyLineHash(key: string, h: string)
    requires Word(key)
    ensures LineHash(key + " " + h, key) == if Fields(h) != [] then Fields(h)[0] else ""
  {
    FieldsConcat(key, h);
    FieldsOfWord(key);
  }

  lemma {:induction false} FoundInPart(key: string, part: string)
    requires Word(key)
    ensures LookupLines(Split(key + " " + part), key) == HashRead(key, part)
  {
    NoBreakInWord(key);
    SplitHead(key + " ", part);
    KeyLineHash(key, Split(part)[0]);
    if Fields(Split(part)[0]) != [] {
      FirstFieldWord(Split(part)[0]);
    }
    assert ([key + " " + Split(part)[0]] + Split(part)[1..])[1..] == Split(part)[1..];
  }

  lemma {:induction false} BreakFindsNothing(text: string, key: string)
    ensures LookupLines(Split(text + "\n"), key) == LookupLines(Split(text), key)
  {
    assert text + "\n" == text + ("\n" + "");
    SplitConcat(text, "");
    LookupConcat(Split(text), Split(""), key);
    LookupEmpty(key);
  }

  lemma {:induction false} NothingOfHash(key: string)
    ensures HashRead(key, "") == ""
  {
    assert Split("") == [""] && Fields("") == [];
    assert [""][1..] == [];
  }

  lemma {:induction false} TornForms(key: string, hash: string, n: nat)
    ensures n <= |key| ==> Prefix(Line(key, hash), n) == Prefix(key, n)
    ensures |key| < n < |Line(key, hash)| ==>
              Prefix(Line(key, hash), n) == key + " " + Prefix(hash, n - |key| - 1)
    ensures n >= |Line(key, hash)| ==>
              Prefix(Line(key, hash), n) == Line(key, hash) && n > |key| && Prefix(hash, n - |key| - 1) == hash
  {}

  lemma {:induction false} ShortFound(key: string, n: nat)
    requires Word(key)
    ensures LookupLines(Split(Prefix(key, n)), key) == ""
  {
    NoBreakInWord(key);
    FieldsOfPart(key, n);
    SplitLast(Prefix(key, n));
  }

  lemma {:induction false} LongWritten(key: string, hash: string, record: Append)
    requires record.Torn? ==> record.n > |key|
    ensures var l := key + " " + HashPart(key, hash, record);
            Written(key, hash, record) == l || Written(key, hash, record) == l + "\n"
  {
    if record.Torn? {
      TornForms(key, hash, record.n);
    }
  }

  /** Of a record in a line of its own exactly this is found. */
  lemma {:induction false} WrittenFound(key: string, hash: string, record: Append)
    requires Word(key)
    ensures LookupLines(Split(Written(key, hash, record)), key) == HashRead(key, HashPart(key, hash, record))
  {
    if record.Torn? && record.n <= |key| {
      TornForms(key, hash, record.n);
      ShortFound(key, record.n);
      NothingOfHash(key);
    } else {
      LongWritten(key, hash, record);
      FoundInPart(key, HashPart(key, hash, record));
      BreakFindsNothing(key + " " + HashPart(key, hash, record), key);
    }
  }

  /** Recording in a closed log makes the lookup succeed for exactly these ids, hashes and cuts. */
  lemma {:induction false} RecordedFound(file: string, key: string, hash: string, record: Append)
    requires Closed(file) && Lookup(file, key) == ""
    ensures Lookup(file + Written(key, hash, record), key) ==
            if Word(key) then HashRead(key, HashPart(key, hash, record)) else ""
  {
    LookupAppended(file, Written(key, hash, record), key);
    if Word(key) {
      WrittenFound(key, hash, record);
    } else {
      OnlyWordsFound(Split(Written(key, hash, record)), key);
    }
  }

  /** A record behind what a log ends with can be found again. */
  predicate Recalls(tail: string, id: string, hash: string, record: Append) {
    LookupLines(Split(tail + Written(id, hash, record)), id) != ""
  }

  /** The id is a word and some of the hash is read back after it. */
  predicate Findable(id: string, hash: string, record: Append) {
    Word(id) && HashRead(id, HashPart(id, hash, record)) != ""
  }

  /** For hashes without line breaks: exactly if something of the hash other than white space is written. */
  lemma {:induction false} FindableIff(id: string, hash: string, record: Append)
    requires '\n' !in hash
    ensures Findable(id, hash, record) <==> Word(id) && Fields(HashPart(id, hash, record)) != []
  {
    var part := HashPart(id, hash, record);
    SplitLast(part);
    assert Split(part)[1..] == [];
    if Fields(part) != [] {
      FirstFieldWord(part);
    }
  }

  lemma {:induction false} NotInComplete(file: string, id: string)
    requires Lookup(file, id) == ""
    ensures Lookup(Complete(file), id) == ""
  {
    LookupAny(file, id);
  }

  /** What is found for an id that was not, in any log. */
  lemma {:induction false} FoundAfter(file: string, id: string, hash: string, record: Append)
    requires Lookup(file, id) == ""
    ensures Lookup(file + Written(id, hash, record), id) != "" <==> Recalls(Tail(file), id, hash, record)
  {
    NotInComplete(file, id);
    LookupAnyAppended(file, Written(id, hash, record), id);
  }

  lemma {:induction false} LineCloses(file: string, key: string, hash: string)
    ensures Closed(file + Line(key, hash))
  {
    var l := file + Line(key, hash);
    assert l[|l| - 1] == '\n';
  }

  lemma {:induction false} HashReadWord(key: string, hash: string)
    requires Word(hash)
    ensures HashRead(key, hash) == hash
  {
    NoBreakInWord(hash);
    SplitLast(hash);
    FieldsOfWord(hash);
  }

  /// The record after a torn one.

  lemma {:induction false} WordJoined(p: string, w: string)
    requires Word(w) && forall k :: 0 <= k < |p| ==> !IsSpace(p[k])
    ensures Word(p + w)
  {}

  lemma {:induction false} FieldsBeforeWord(p: string, w: string)
    requires Word(w)
    ensures Fields(p + w) != []
    decreases |p|
  {
    if p == "" {
      assert p + w == w;
      FieldsOfWord(w);
    } else if IsSpace(p[0]) {
      assert (p + w)[1..] == p[1..] + w;
      FieldsBeforeWord(p[1..], w);
    }
  }

  /** The line that a torn record and the record after it make together. */
  lemma {:induction false} GluedLine(w: string, h: string, m: nat, key: string, hash: string)
    requires Word(w) && Word(key) && Word(hash) && 0 < m < |Line(w, h)|
    ensures LineHash(Prefix(Line(w, h), m) + (key + " " + hash), key) != "" <==> m > |w| && key == w
  {
    TornForms(w, h, m);
    if m <= |w| {
      var p := Prefix(w, m);
      WordJoined(p, key);
      FieldsOfTwo(p + key, hash);
      assert p + (key + " " + hash) == (p + key) + " " + hash;
    } else {
      var p := Prefix(h, m - |w| - 1);
      var rest := (p + key) + " " + hash;
      assert (w + " " + p) + (key + " " + hash) == w + " " + rest;
      FieldsConcat(w, rest);
      FieldsOfWord(w);
      FieldsConcat(p + key, hash);
      FieldsBeforeWord(p, key);
      FieldsAreWords(w + " " + rest);
    }
  }

  /**
   * After a torn record exactly the next one is lost, unless it is for the same id and the tear came
   * after that id: the log is closed again, and what was found before is found.
   */
  lemma {:induction false} NextLost(file: string, w: string, h: string, m: nat, key: string, hash: string)
    requires Closed(file) && Lookup(file, key) == "" && '\n' !in h
    requires Word(w) && Word(key) && Word(hash) && 0 < m < |Line(w, h)|
    ensures var after := file + Prefix(Line(w, h), m) + Line(key, hash);
            Closed(after) && (Lookup(after, key) != "" <==> m > |w| && key == w)
  {
    var t := Prefix(Line(w, h), m);
    LineCloses(file + t, key, hash);
    LookupAppended(file, t + Line(key, hash), key);
    ConcatAssociates(file, t, Line(key, hash));
    GluedLine(w, h, m, key, hash);
    NoBreakInWord(w);
    NoBreakInWord(key);
    NoBreakInWord(hash);
    TornForms(w, h, m);
    GluedSplit(t, key, hash);
  }

  lemma {:induction false} GluedSplit(t: string, key: string, hash: string)
    requires '\n' !in t && '\n' !in key && '\n' !in hash
    ensures LookupLines(Split(t + Line(key, hash)), key) == LineHash(t + (key + " " + hash), key)
  {
    var l := t + (key + " " + hash);
    BreakFindsNothing(l, key);
    SplitLast(l);
    assert t + Line(key, hash) == l + "\n";
  }

  /** Recording one id leaves the lookups of all others as they were. */
  lemma {:induction false} OthersKept(file: string, key: string, hash: string, other: string)
    requires Closed(file) && Word(key) && Word(hash) && other != key
    ensures Lookup(file + Line(key, hash), other) == Lookup(file, other)
  {
    LookupAppended(file, Line(key, hash), other);
    var l := key + " " + hash;
    NoBreakInWord(key);
    NoBreakInWord(hash);
    assert Line(key, hash) == l + ("\n" + "");
    SplitLine(l, "");
    FieldsOfTwo(key, hash);
    LookupEmpty(other);
    assert Split(Line(key, hash)) == [l] + Split("");
    assert ([l] + Split(""))[1..] == Split("");
  }
}
