/// Runs of enrollment in which the state file may be cut anywhere: where a stored token and the
/// token in use come from, and whose they are.

module EnrollmentRuns {
  import opened IdempotencyLog
  import opened Enrollment
  import opened Wrappers

  /// Where a token comes from.

  /** A piece, from the start, of one of the texts `names`: the addresses of a run, or an older agent's token. */
  ghost predicate PartOfName(t: string, names: set<string>) {
    exists n :: n in names && t <= n
  }

  /** A piece, from the start, of a token issued for `addr`. */
  ghost predicate PartOfIssued(addr: string, t: string, issued: set<(string, string)>) {
    exists token :: (addr, token) in issued && t <= token
  }

  /**
   * Whatever is stored as a token is a piece of a token issued for the address stored with it, or of
   * one of the names; so is the token in use, `holder` being the address it was acquired for.
   */
  ghost predicate TracedBy(s: State, holder: string, names: set<string>) {
    && s.id in names
    && StoredTraced(Stored(s.file), s.issued, names)
    && (s.token != "" ==> PartOfName(s.token, names) || PartOfIssued(holder, s.token, s.issued))
  }

  ghost predicate StoredTraced(pair: (string, string), issued: set<(string, string)>, names: set<string>) {
    pair.1 != "" ==> PartOfName(pair.1, names) || (pair.0 != "" && PartOfIssued(pair.0, pair.1, issued))
  }

  predicate WordsOnly(names: set<string>) {
    forall n :: n in names ==> Word(n)
  }

  /** The addresses of an event are among the names, and the server's tokens are words. */
  predicate Within(e: Event, names: set<string>) {
    && (forall k :: 0 <= k < |e.attempts| ==> AttemptWithin(e.attempts[k], names))
    && (e.Started? ==> e.own in names) && (e.NodeRestarted? && e.key.Some? ==> e.key.value in names)
  }

  predicate AttemptWithin(a: Attempt, names: set<string>) {
    (a.key.Some? ==> a.key.value in names) && (a.token.Some? ==> Word(a.token.value))
  }

  predicate AllWithin(events: seq<Event>, names: set<string>) {
    forall k :: 0 <= k < |events| ==> Within(events[k], names)
  }

  /// For whom the token in use was acquired.

  /** The own address if a stored token is adopted, the opened key's address if one is registered. */
  function Holder(s: State, holder: string, a: Attempt): string {
    var (addr, t) := Stored(s.file);
    if t != "" && (addr == "" || addr == s.id) then s.id
    else if a.key.None? || !a.challenged || a.token.None? then holder
    else a.key.value
  }

  function EnsuredHolder(s: State, holder: string, attempts: seq<Attempt>): string
    decreases |attempts|
  {
    if attempts == [] then holder
    else if Enrolled(s, attempts[0]).1 then Holder(s, holder, attempts[0])
    else EnsuredHolder(Enrolled(s, attempts[0]).0, Holder(s, holder, attempts[0]), attempts[1..])
  }

  function StepHolder(s: State, holder: string, e: Event): string {
    match e
    case Started(own, attempts) => EnsuredHolder(s.(id := own, token := ""), holder, attempts)
    case TokenRejected(removed, attempts) => EnsuredHolder(Forgotten(s, removed), holder, attempts)
    case NodeRestarted(key, removed, attempts) =>
      if key.None? || key.value == s.id then holder
      else EnsuredHolder(Forgotten(s.(id := key.value), removed), holder, attempts)
  }

  function RunHolder(s: State, holder: string, events: seq<Event>): string
    decreases |events|
  {
    if events == [] then holder else RunHolder(Step(s, events[0]), StepHolder(s, holder, events[0]), events[1..])
  }

  /// Every write, whole or cut.

  lemma {:induction false} WholePrefix(s: string)
    ensures Prefix(s, |s|) == s
  {
    assert s[..|s|] == s;
  }

  /** What is read after a write, whatever became of it. */
  lemma {:induction false} SavedPieces(file: Option<string>, addr: string, token: string, write: Write)
    requires Word(addr) && Word(token)
    ensures var read := Stored(Saved(file, addr, token, write));
            || read == Stored(file) || read.1 == ""
            || (read.0 == "" && read.1 <= addr) || (read.0 == addr && read.1 <= token)
  {
    if write.Cut? {
      CutRead(addr, token, write.n);
    } else if write.Written? {
      StateRoundTrip(addr, token);
    }
  }

  lemma {:induction false} PieceOfPiece(t: string, u: string, names: set<string>)
    requires t <= u && PartOfName(u, names)
    ensures PartOfName(t, names)
  {
    var n :| n in names && u <= n;
    assert t <= n;
  }

  lemma {:induction false} PieceOfIssued(addr: string, t: string, u: string, issued: set<(string, string)>)
    requires t <= u && PartOfIssued(addr, u, issued)
    ensures PartOfIssued(addr, t, issued)
  {
    var token :| (addr, token) in issued && u <= token;
    assert t <= token;
  }

  lemma {:induction false} MoreIssued(addr: string, t: string, issued: set<(string, string)>, more: set<(string, string)>)
    requires issued <= more && PartOfIssued(addr, t, issued)
    ensures PartOfIssued(addr, t, more)
  {
    var token :| (addr, token) in issued && t <= token;
    assert (addr, token) in more;
  }

  lemma {:induction false} StoredMore(pair: (string, string), issued: set<(string, string)>, more: set<(string, string)>,
                                      names: set<string>)
    requires issued <= more && StoredTraced(pair, issued, names)
    ensures StoredTraced(pair, more, names)
  {
    if pair.1 != "" && !PartOfName(pair.1, names) {
      MoreIssued(pair.0, pair.1, issued, more);
    }
  }

  /** Writing a pair that is traced leaves a file that is traced. */
  lemma {:induction false} SavedTraced(file: Option<string>, addr: string, token: string, write: Write,
                                       issued: set<(string, string)>, names: set<string>)
    requires Word(addr) && Word(token) && addr in names && StoredTraced(Stored(file), issued, names)
    requires PartOfName(token, names) || PartOfIssued(addr, token, issued)
    ensures StoredTraced(Stored(Saved(file, addr, token, write)), issued, names)
  {
    SavedPieces(file, addr, token, write);
    var read := Stored(Saved(file, addr, token, write));
    if read.0 == addr && read.1 <= token {
      if PartOfName(token, names) {
        PieceOfPiece(read.1, token, names);
      } else {
        PieceOfIssued(addr, read.1, token, issued);
      }
    }
  }

  lemma {:induction false} StoredWord(file: Option<string>)
    requires Stored(file).1 != ""
    ensures Word(Stored(file).1)
  {
    FieldsAreWords(file.value);
  }

  lemma {:induction false} AdoptTraced(s: State, holder: string, a: Attempt, names: set<string>)
    requires TracedBy(s, holder, names) && WordsOnly(names)
    requires Stored(s.file).1 != "" && (Stored(s.file).0 == "" || Stored(s.file).0 == s.id)
    ensures TracedBy(Enrolled(s, a).0, Holder(s, holder, a), names)
  {
    StoredWord(s.file);
    if Stored(s.file).0 == "" {
      SavedTraced(s.file, s.id, Stored(s.file).1, a.write, s.issued, names);
    }
  }

  lemma {:induction false} RegisterTraced(s: State, holder: string, a: Attempt, names: set<string>)
    requires TracedBy(s, holder, names) && WordsOnly(names) && AttemptWithin(a, names)
    requires Registers(s, a)
    ensures TracedBy(Enrolled(s, a).0, Holder(s, holder, a), names)
  {
    var key, token := a.key.value, a.token.value;
    var issued := s.issued + {(key, token)};
    assert (key, token) in issued && token <= token;
    assert PartOfIssued(key, token, issued);
    StoredMore(Stored(s.file), s.issued, issued, names);
    SavedTraced(s.file, key, token, a.write, issued, names);
  }

  lemma {:induction false} EnrollTraced(s: State, holder: string, a: Attempt, names: set<string>)
    requires TracedBy(s, holder, names) && WordsOnly(names) && AttemptWithin(a, names)
    ensures TracedBy(Enrolled(s, a).0, Holder(s, holder, a), names)
  {
    if Registers(s, a) {
      RegisterTraced(s, holder, a, names);
    } else if Stored(s.file).1 != "" && (Stored(s.file).0 == "" || Stored(s.file).0 == s.id) {
      AdoptTraced(s, holder, a, names);
    }
  }

  lemma {:induction false} EnsureTraced(s: State, holder: string, attempts: seq<Attempt>, names: set<string>)
    requires TracedBy(s, holder, names) && WordsOnly(names)
    requires forall k :: 0 <= k < |attempts| ==> AttemptWithin(attempts[k], names)
    ensures TracedBy(Ensured(s, attempts), EnsuredHolder(s, holder, attempts), names)
    decreases |attempts|
  {
    if attempts != [] {
      EnrollTraced(s, holder, attempts[0], names);
      assert forall k :: 0 <= k < |attempts| - 1 ==> attempts[1..][k] == attempts[k + 1];
      EnsureTraced(Enrolled(s, attempts[0]).0, Holder(s, holder, attempts[0]), attempts[1..], names);
    }
  }

  lemma {:induction false} StepTraced(s: State, holder: string, e: Event, names: set<string>)
    requires TracedBy(s, holder, names) && WordsOnly(names) && Within(e, names)
    ensures TracedBy(Step(s, e), StepHolder(s, holder, e), names)
  {
    assert Stored(None) == ("", "");
    match e {
      case Started(own, attempts) =>
        EnsureTraced(s.(id := own, token := ""), holder, attempts, names);
      case TokenRejected(removed, attempts) =>
        EnsureTraced(Forgotten(s, removed), holder, attempts, names);
      case NodeRestarted(key, removed, attempts) =>
        if key.Some? && key.value != s.id {
          EnsureTraced(Forgotten(s.(id := key.value), removed), holder, attempts, names);
        }
    }
  }

  /** No write of a run is cut inside the pair. */
  predicate WholeWrites(events: seq<Event>) {
    forall j, k :: 0 <= j < |events| && 0 <= k < |events[j].attempts| ==> WholeWrite(events[j].attempts[k])
  }

  predicate WholeWrite(a: Attempt) {
    a.key.Some? && a.token.Some? ==> WholeOrNothing(a.key.value, a.token.value, a.write)
  }

  lemma {:induction false} ProperEvents(events: seq<Event>, names: set<string>)
    requires WordsOnly(names) && AllWithin(events, names) && WholeWrites(events)
    ensures forall k :: 0 <= k < |events| ==> ProperEvent(events[k])
  {
    forall j | 0 <= j < |events|
      ensures ProperEvent(events[j])
    {
      assert Within(events[j], names);
      forall k | 0 <= k < |events[j].attempts|
        ensures ProperAttempt(events[j].attempts[k])
      {
        assert AttemptWithin(events[j].attempts[k], names) && WholeWrite(events[j].attempts[k]);
      }
    }
  }

  lemma {:induction false} RunTraced(s: State, holder: string, events: seq<Event>, names: set<string>)
    requires TracedBy(s, holder, names) && WordsOnly(names) && AllWithin(events, names)
    ensures TracedBy(Run(s, events), RunHolder(s, holder, events), names)
    decreases |events|
  {
    if events != [] {
      assert Within(events[0], names);
      StepTraced(s, holder, events[0], names);
      assert forall k :: 0 <= k < |events| - 1 ==> events[1..][k] == events[k + 1];
      RunTraced(Step(s, events[0]), StepHolder(s, holder, events[0]), events[1..], names);
    }
  }

  /**
   * Over any run, with writes of the state file cut anywhere, a stored token is a piece of one issued
   * for the address stored with it or of one of the names, and so is the token in use; if no write is
   * cut inside the pair, stored pairs are the ones issued.
   */
  lemma {:induction false} RunKeepsPairs(s: State, holder: string, events: seq<Event>, names: set<string>)
    requires TracedBy(s, holder, names) && WordsOnly(names) && AllWithin(events, names)
    ensures TracedBy(Run(s, events), RunHolder(s, holder, events), names)
    ensures Sound(s) && WholeWrites(events) ==> Sound(Run(s, events))
  {
    RunTraced(s, holder, events, names);
    if Sound(s) && WholeWrites(events) {
      ProperEvents(events, names);
      RunSound(s, events);
    }
  }

  /// Runs in which every registration opens the key of the identity in force.

  lemma {:induction false} EnsureHolds(s: State, holder: string, attempts: seq<Attempt>)
    requires KeysAre(s.id, attempts) && (s.token != "" ==> holder == s.id)
    ensures Ensured(s, attempts).id == s.id
    ensures Ensured(s, attempts).token != "" ==> EnsuredHolder(s, holder, attempts) == s.id
    decreases |attempts|
  {
    if attempts != [] {
      assert attempts[0].key.Some? ==> attempts[0].key.value == s.id;
      assert forall k :: 0 <= k < |attempts| - 1 ==> attempts[1..][k] == attempts[k + 1];
      EnsureHolds(Enrolled(s, attempts[0]).0, Holder(s, holder, attempts[0]), attempts[1..]);
    }
  }

  lemma {:induction false} StepHolds(s: State, holder: string, e: Event)
    requires OwnKeys(s, e) && (s.token != "" ==> holder == s.id)
    ensures Step(s, e).token != "" ==> StepHolder(s, holder, e) == Step(s, e).id
  {
    match e {
      case Started(own, attempts) =>
        EnsureHolds(s.(id := own, token := ""), holder, attempts);
      case TokenRejected(removed, attempts) =>
        EnsureHolds(Forgotten(s, removed), holder, attempts);
      case NodeRestarted(key, removed, attempts) =>
        if key.Some? && key.value != s.id {
          EnsureHolds(Forgotten(s.(id := key.value), removed), holder, attempts);
        }
    }
  }

  lemma {:induction false} RunHolds(s: State, holder: string, events: seq<Event>)
    requires OwnKeysRun(s, events) && (s.token != "" ==> holder == s.id)
    ensures Run(s, events).token != "" ==> RunHolder(s, holder, events) == Run(s, events).id
    decreases |events|
  {
    if events != [] {
      StepHolds(s, holder, events[0]);
      RunHolds(Step(s, events[0]), StepHolder(s, holder, events[0]), events[1..]);
    }
  }

  /**
   * Over any such run the token in use is a piece of one issued for the identity in use, or of a name;
   * if no write is cut inside the pair, it is one issued for that identity.
   */
  lemma {:induction false} RunKeepsOwn(s: State, holder: string, events: seq<Event>, names: set<string>)
    requires TracedBy(s, holder, names) && WordsOnly(names) && AllWithin(events, names)
    requires OwnKeysRun(s, events) && (s.token != "" ==> holder == s.id)
    ensures var s' := Run(s, events);
            s'.token != "" ==> PartOfName(s'.token, names) || PartOfIssued(s'.id, s'.token, s'.issued)
    ensures Own(s) && WholeWrites(events) ==> Own(Run(s, events))
  {
    RunTraced(s, holder, events, names);
    RunHolds(s, holder, events);
    if Own(s) && WholeWrites(events) {
      ProperEvents(events, names);
      RunOwn(s, events);
    }
  }

  /// Whose token is in use, exactly.

  /** No token is issued to two addresses, begins another one, or begins a name. */
  ghost predicate Separate(issued: set<(string, string)>, names: set<string>) {
    && OneOwner(issued)
    && (forall a, t, b, u :: (a, t) in issued && (b, u) in issued && t <= u ==> t == u)
    && (forall a, t :: (a, t) in issued ==> !PartOfName(t, names))
  }

  /**
   * The converse, over any run and with writes cut anywhere: a token in use that the server issued is
   * the identity's own exactly if it was acquired for that identity. What breaks it is a registration
   * that opened another key, and nothing else.
   */
  lemma {:induction false} OwnIffAcquired(s: State, holder: string, events: seq<Event>, names: set<string>, owner: string)
    requires TracedBy(s, holder, names) && WordsOnly(names) && AllWithin(events, names)
    requires Separate(Run(s, events).issued, names)
    requires Run(s, events).token != "" && (owner, Run(s, events).token) in Run(s, events).issued
    ensures (Run(s, events).id, Run(s, events).token) in Run(s, events).issued <==>
            RunHolder(s, holder, events) == Run(s, events).id
    ensures owner == RunHolder(s, holder, events)
  {
    RunTraced(s, holder, events, names);
    HolderOwns(Run(s, events), RunHolder(s, holder, events), names, owner);
  }

  lemma {:induction false} HolderOwns(s: State, holder: string, names: set<string>, owner: string)
    requires TracedBy(s, holder, names) && Separate(s.issued, names)
    requires s.token != "" && (owner, s.token) in s.issued
    ensures owner == holder && ((s.id, s.token) in s.issued <==> holder == s.id)
  {
    assert !PartOfName(s.token, names);
    var token :| (holder, token) in s.issued && s.token <= token;
    assert token == s.token;
  }

  /** Over any run on the keys of the identity in force, a token of another address is never in use. */
  lemma {:induction false} RunNeverForeign(s: State, holder: string, events: seq<Event>, names: set<string>,
                                           other: string, token: string)
    requires TracedBy(s, holder, names) && WordsOnly(names) && AllWithin(events, names)
    requires OwnKeysRun(s, events) && (s.token != "" ==> holder == s.id)
    requires Separate(Run(s, events).issued, names) && token != ""
    requires (other, token) in Run(s, events).issued && other != Run(s, events).id
    ensures Run(s, events).token != token
  {
    RunHolds(s, holder, events);
    if Run(s, events).token == token {
      OwnIffAcquired(s, holder, events, names, other);
    }
  }

  /// After a rejected token, with writes cut anywhere.

  /** The addresses and tokens the server answers with in some attempts. */
  function AnsweredPairs(attempts: seq<Attempt>): set<(string, string)> {
    set k | 0 <= k < |attempts| && attempts[k].key.Some? && attempts[k].token.Some? ::
      (attempts[k].key.value, attempts[k].token.value)
  }

  lemma {:induction false} IssuedFrame(s: State, attempts: seq<Attempt>, other: set<(string, string)>)
    ensures Ensured(s.(issued := other), attempts).token == Ensured(s, attempts).token
    decreases |attempts|
  {
    if attempts != [] {
      var next := Enrolled(s, attempts[0]).0;
      assert Enrolled(s.(issued := other), attempts[0]).0 ==
             next.(issued := Enrolled(s.(issued := other), attempts[0]).0.issued);
      IssuedFrame(next, attempts[1..], Enrolled(s.(issued := other), attempts[0]).0.issued);
    }
  }

  lemma {:induction false} IssuedByAttempts(s: State, attempts: seq<Attempt>, all: set<(string, string)>)
    requires s.issued <= all && AnsweredPairs(attempts) <= all
    ensures Ensured(s, attempts).issued <= all
    decreases |attempts|
  {
    if attempts != [] {
      var a := attempts[0];
      if a.key.Some? && a.token.Some? {
        assert (a.key.value, a.token.value) in AnsweredPairs(attempts);
      }
      forall p | p in AnsweredPairs(attempts[1..])
        ensures p in all
      {
        var k :| 0 <= k < |attempts| - 1 && attempts[1..][k].key.Some? && attempts[1..][k].token.Some?
                 && p == (attempts[1..][k].key.value, attempts[1..][k].token.value);
        assert attempts[k + 1] == attempts[1..][k];
        assert p in AnsweredPairs(attempts);
      }
      IssuedByAttempts(Enrolled(s, a).0, attempts[1..], all);
    }
  }

  /**
   * Even if writes are cut anywhere, after a rejected token and a removed file the token in use is none,
   * a piece of one the server answers with in these attempts, or a piece of an address written.
   */
  lemma {:induction false} RejectedGoneAnyWrite(s: State, attempts: seq<Attempt>, names: set<string>)
    requires s.id in names && WordsOnly(names) && forall k :: 0 <= k < |attempts| ==> AttemptWithin(attempts[k], names)
    ensures var token := Step(s, TokenRejected(true, attempts)).token;
            token == "" || PartOfName(token, names)
            || exists addr :: PartOfIssued(addr, token, AnsweredPairs(attempts))
  {
    var s0 := Forgotten(s, true).(issued := {});
    assert Stored(s0.file) == ("", "") && s0.token == "";
    EnsureTraced(s0, "", attempts, names);
    IssuedFrame(Forgotten(s, true), attempts, {});
    IssuedByAttempts(s0, attempts, AnsweredPairs(attempts));
    var s', holder := Ensured(s0, attempts), EnsuredHolder(s0, "", attempts);
    if s'.token != "" && !PartOfName(s'.token, names) {
      MoreIssued(holder, s'.token, s'.issued, AnsweredPairs(attempts));
    }
  }
}
