/// The editor's test for a key's line and the reference reader's key agree.

module TomlKeys {
  import opened GoStrings
  import opened TomlEdit
  import opened TomlDocument
  import opened Wrappers

  predicate Blanks(s: string) {
    forall k :: 0 <= k < |s| ==> IsBlank(s[k])
  }

  lemma {:induction false} TrimBlanksApart(s: string)
    ensures |TrimBlanks(s)| <= |s|
    ensures Blanks(s[..|s| - |TrimBlanks(s)|]) && s[|s| - |TrimBlanks(s)|..] == TrimBlanks(s)
    ensures TrimBlanks(s) != "" ==> !IsBlank(TrimBlanks(s)[0])
  {
    if s != "" && IsBlank(s[0]) {
      TrimBlanksApart(s[1..]);
      var n := |s| - |TrimBlanks(s)|;
      forall k | 0 <= k < n
        ensures IsBlank(s[..n][k])
      {
        if k > 0 {
          assert s[..n][k] == s[1..][..n - 1][k - 1];
        }
      }
    }
  }

  lemma {:induction false} TrimBlanksOff(b: string, s: string)
    requires Blanks(b)
    ensures TrimBlanks(b + s) == TrimBlanks(s)
  {
    if b == "" {
      assert b + s == s;
    } else {
      assert (b + s)[1..] == b[1..] + s;
      TrimBlanksOff(b[1..], s);
    }
  }

  lemma {:induction false} TrimRightBlanksApart(s: string)
    ensures |TrimRightBlanks(s)| <= |s|
    ensures TrimRightBlanks(s) == s[..|TrimRightBlanks(s)|] && Blanks(s[|TrimRightBlanks(s)|..])
    ensures TrimRightBlanks(s) != "" ==> !IsBlank(TrimRightBlanks(s)[|TrimRightBlanks(s)| - 1])
  {
    if s != "" && IsBlank(s[|s| - 1]) {
      var t := s[..|s| - 1];
      TrimRightBlanksApart(t);
      var n := |TrimRightBlanks(s)|;
      forall k | 0 <= k < |s| - n
        ensures IsBlank(s[n..][k])
      {
        if k < |s| - 1 - n {
          assert s[n..][k] == t[n..][k];
        }
      }
    }
  }

  lemma {:induction false} TrimRightBlanksOff(s: string, b: string)
    requires Blanks(b) && (s == "" || !IsBlank(s[|s| - 1]))
    ensures TrimRightBlanks(s + b) == s
  {
    if b == "" {
      assert s + b == s;
    } else {
      assert (s + b)[..|s + b| - 1] == s + b[..|b| - 1];
      TrimRightBlanksOff(s, b[..|b| - 1]);
    }
  }

  lemma {:induction false} FirstIndex(u: string, v: string)
    requires '=' !in u
    ensures IndexByte(u + "=" + v, '=') == |u|
  {
    var t := u + "=" + v;
    assert t[|u|] == '=' && t[..|u|] == u;
    FirstAt(t, '=', |u|);
  }

  /** Blanks, the key, blanks and an equals sign: the shape both tests look for. */
  lemma {:induction false} ShapeRead(a: string, key: string, b: string, v: string)
    requires Blanks(a) && BareKey(key) && Blanks(b)
    ensures IsKeyLine(a + key + b + "=" + v, key)
    ensures KeyOf(a + key + b + "=" + v) == Some(key)
  {
    var line := a + key + b + "=" + v;
    var tail := key + b + "=" + v;
    assert line == a + tail;
    TrimBlanksOff(a, tail);
    assert BareChar(key[0]) && tail[0] == key[0];
    assert TrimBlanks(line) == tail;
    assert tail[|key|..] == b + ("=" + v);
    assert key <= tail;
    TrimBlanksOff(b, "=" + v);
    assert '=' !in a + key + b;
    FirstIndex(a + key + b, v);
    assert line[..|a + key + b|] == a + (key + b);
    TrimBlanksOff(a, key + b);
    assert (key + b)[0] == key[0];
    assert BareChar(key[|key| - 1]);
    TrimRightBlanksOff(key, b);
  }

  lemma {:induction false} KeyLineForm(a: string, key: string, b: string, v: string)
    ensures a + (key + (b + ("=" + v))) == a + key + b + "=" + v
    ensures (a + (key + b)) + "=" + v == a + key + b + "=" + v
  {}

  lemma {:induction false} Assemble(line: string, a: string, s: string, key: string, rest: string, b: string, t: string, v: string)
    requires line == a + s && s == key + rest && rest == b + t && t == "=" + v
    ensures line == a + key + b + "=" + v
  {
    KeyLineForm(a, key, b, v);
  }

  lemma {:induction false} Halves(s: string, n: nat)
    requires n <= |s|
    ensures s == s[..n] + s[n..]
  {}

  lemma {:induction false} ApartFirst(s: string) returns (a: string)
    ensures Blanks(a) && s == a + TrimBlanks(s)
  {
    TrimBlanksApart(s);
    Halves(s, |s| - |TrimBlanks(s)|);
    a := s[..|s| - |TrimBlanks(s)|];
  }

  lemma {:induction false} TakePrefix(s: string, p: string) returns (rest: string)
    requires p <= s
    ensures s == p + rest && rest == s[|p|..]
  {
    rest := s[|p|..];
  }

  lemma {:induction false} Shape(line: string, key: string) returns (a: string, b: string, v: string)
    requires IsKeyLine(line, key)
    ensures Blanks(a) && Blanks(b) && line == a + key + b + "=" + v
  {
    var s := TrimBlanks(line);
    a := ApartFirst(line);
    var rest := TakePrefix(s, key);
    b := ApartFirst(rest);
    v := TakePrefix(TrimBlanks(rest), "=");
    Assemble(line, a, s, key, rest, b, TrimBlanks(rest), v);
  }

  lemma {:induction false} KeyLineShape(line: string, key: string)
    requires BareKey(key) && IsKeyLine(line, key)
    ensures KeyOf(line) == Some(key)
  {
    var a, b, v := Shape(line, key);
    ShapeRead(a, key, b, v);
  }

  lemma {:induction false} KeyShapeLine(line: string, key: string)
    requires BareKey(key) && KeyOf(line) == Some(key)
    ensures IsKeyLine(line, key)
  {
    var eq := IndexByte(line, '=');
    var u, v := line[..eq], line[eq + 1..];
    var s := TrimBlanks(u);
    TrimBlanksApart(u);
    TrimRightBlanksApart(s);
    Halves(u, |u| - |s|);
    Halves(s, |key|);
    var a, b := u[..|u| - |s|], s[|key|..];
    AtEquals(line, eq);
    KeyLineForm(a, key, b, v);
    ShapeRead(a, key, b, v);
  }

  lemma {:induction false} AtEquals(line: string, eq: nat)
    requires eq < |line| && line[eq] == '='
    ensures line == line[..eq] + "=" + line[eq + 1..]
  {}

  /** For a bare key the two tests are the same. */
  lemma {:induction false} KeyTests(line: string, key: string)
    requires BareKey(key)
    ensures IsKeyLine(line, key) <==> KeyOf(line) == Some(key)
  {
    if IsKeyLine(line, key) {
      KeyLineShape(line, key);
    } else if KeyOf(line) == Some(key) {
      KeyShapeLine(line, key);
    }
  }
}
