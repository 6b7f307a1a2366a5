/// Enrollment of `internal/runner`: the state file, registration, rejected tokens and changed
/// wallets, over any number of restarts.

module Enrollment {
  import opened IdempotencyLog
  import opened Wrappers

  /// The state file.

  /** What `readState` makes of the file's text: address and token, either possibly "". */
  function ReadText(text: string): (string, string) {
    var f := Fields(text);
    if |f| == 1 then ("", f[0]) else if |f| == 2 then (f[0], f[1]) else ("", "")
  }

  /** The text `writeState` writes. */
  function StateText(addr: string, token: string): string {
    addr + " " + token
  }

  /**
   * The file is read back as written exactly if both values are words, or there is no address
   * and the token is a word or missing.
   */
  lemma {:induction false} StateRoundTrip(addr: string, token: string)
    ensures ReadText(StateText(addr, token)) == (addr, token) <==>
            (Word(addr) || addr == "") && (Word(token) || (addr == "" && token == ""))
  {
    FieldsConcat(addr, token);
    FieldsAreWords(StateText(addr, token));
    if Word(addr) {
      FieldsOfWord(addr);
    }
    if Word(token) {
      FieldsOfWord(token);
    }
    assert Fields("") == [];
  }

  /// The state of agent and server.

  /** `issued` is the server's knowledge: which token it gave to the owner of which address. */
  datatype State = State(id: string, token: string, file: Option<string>, issued: set<(string, string)>)

  /** Writing a file can fail before the file is touched, or when `n` characters of the text are in it. */
  datatype Write = Written | Untouched | Cut(n: nat)

  /** What the outside does during one attempt: the key's address, the server's replies, the disk. */
  datatype Attempt = Attempt(key: Option<string>, challenged: bool, token: Option<string>, write: Write)

  function Stored(file: Option<string>): (string, string) {
    match file
    case None => ("", "")
    case Some(text) => ReadText(text)
  }

  function Saved(file: Option<string>, addr: string, token: string, write: Write): Option<string> {
    match write
    case Written => Some(StateText(addr, token))
    case Untouched => file
    case Cut(n) => Some(Prefix(StateText(addr, token), n))
  }

  /** Registration with the key as it is now. */
  function Register(s: State, a: Attempt): (State, bool) {
    if a.key.None? || !a.challenged || a.token.None? then (s, false)
    else
      (s.(token := a.token.value,
          file := Saved(s.file, a.key.value, a.token.value, a.write),
          issued := s.issued + {(a.key.value, a.token.value)}),
       a.write.Written?)
  }

  /** One call of `enroll`. */
  function Enrolled(s: State, a: Attempt): (State, bool) {
    var (addr, t) := Stored(s.file);
    if t != "" && addr == "" then (s.(token := t, file := Saved(s.file, s.id, t, a.write)), true)
    else if t != "" && addr == s.id then (s.(token := t), true)
    else Register(s, a)
  }

  /** `ensureEnrolled`: attempts until one succeeds; the list ends when the agent is stopped. */
  function Ensured(s: State, attempts: seq<Attempt>): State
    decreases |attempts|
  {
    if attempts == [] then s
    else
      var (next, ok) := Enrolled(s, attempts[0]);
      if ok then next else Ensured(next, attempts[1..])
  }

  function Forgotten(s: State, removed: bool): State {
    s.(token := "", file := if removed then None else s.file)
  }

  function Reenrolled(s: State, removed: bool, attempts: seq<Attempt>): State {
    Ensured(Forgotten(s, removed), attempts)
  }

  function Refreshed(s: State, key: Option<string>, removed: bool, attempts: seq<Attempt>): State {
    if key.None? || key.value == s.id then s
    else Ensured(Forgotten(s.(id := key.value), removed), attempts)
  }

  /// The runner.

  class Runner {
    var id: string
    var token: string
    var file: Option<string>
    ghost var issued: set<(string, string)>

    ghost function View(): State
      reads this
    {
      State(id, token, file, issued)
    }

    /** A new process: the identity comes from the key, the file from the disk. */
    constructor (id: string, file: Option<string>, ghost issued: set<(string, string)>)
      ensures View() == State(id, "", file, issued)
    {
      this.id, this.file, this.issued := id, file, issued;
      token := "";
    }

    method WriteState(addr: string, t: string, write: Write) returns (ok: bool)
      modifies this`file
      ensures file == Saved(old(file), addr, t, write) && ok == write.Written?
    {
      match write
      case Written => file := Some(StateText(addr, t)); ok := true;
      case Untouched => ok := false;
      case Cut(n) => file := Some(Prefix(StateText(addr, t), n)); ok := false;
    }

    method Enroll(a: Attempt) returns (ok: bool)
      modifies this
      ensures (View(), ok) == Enrolled(old(View()), a)
    {
      var (addr, t) := Stored(file);
      if t != "" {
        if addr == "" {
          token := t;
          var _ := WriteState(id, t, a.write);
          return true;
        }
        if addr == id {
          token := t;
          return true;
        }
      }
      if a.key.None? || !a.challenged || a.token.None? {
        return false;
      }
      issued := issued + {(a.key.value, a.token.value)};
      token := a.token.value;
      ok := WriteState(a.key.value, token, a.write);
    }

    method EnsureEnrolled(attempts: seq<Attempt>)
      modifies this
      ensures View() == Ensured(old(View()), attempts)
    {
      for i := 0 to |attempts|
        invariant Ensured(View(), attempts[i..]) == Ensured(old(View()), attempts)
      {
        var ok := Enroll(attempts[i]);
        assert attempts[i..][1..] == attempts[i + 1..];
        if ok {
          return;
        }
      }
    }

    method RemoveState(removed: bool)
      modifies this`file
      ensures file == if removed then None else old(file)
    {
      if removed {
        file := None;
      }
    }

    method Reenroll(removed: bool, attempts: seq<Attempt>)
      modifies this
      ensures View() == Reenrolled(old(View()), removed, attempts)
    {
      RemoveState(removed);
      token := "";
      EnsureEnrolled(attempts);
    }

    method RefreshIdentity(key: Option<string>, removed: bool, attempts: seq<Attempt>)
      modifies this
      ensures View() == Refreshed(old(View()), key, removed, attempts)
    {
      if key.None? || key.value == id {
        return;
      }
      id := key.value;
      RemoveState(removed);
      token := "";
      EnsureEnrolled(attempts);
    }
  }

  /// What holds over whole runs.

  datatype Event =
    | Started(own: string, attempts: seq<Attempt>)
    | TokenRejected(removed: bool, attempts: seq<Attempt>)
    | NodeRestarted(key: Option<string>, removed: bool, attempts: seq<Attempt>)

  function Step(s: State, e: Event): State {
    match e
    case Started(own, attempts) => Ensured(s.(id := own, token := ""), attempts)
    case TokenRejected(removed, attempts) => Reenrolled(s, removed, attempts)
    case NodeRestarted(key, removed, attempts) => Refreshed(s, key, removed, attempts)
  }

  function Run(s: State, events: seq<Event>): State
    decreases |events|
  {
    if events == [] then s else Run(Step(s, events[0]), events[1..])
  }

  /** Addresses and the server's tokens are words, and the pair is written whole or not at all. */
  predicate ProperAttempt(a: Attempt) {
    && (a.key.Some? ==> Word(a.key.value)) && (a.token.Some? ==> Word(a.token.value))
    && (a.key.Some? && a.token.Some? ==> WholeOrNothing(a.key.value, a.token.value, a.write))
  }

  predicate WholeOrNothing(addr: string, token: string, write: Write) {
    write.Cut? ==> write.n == 0 || write.n >= |StateText(addr, token)|
  }

  predicate ProperAttempts(attempts: seq<Attempt>) {
    forall k :: 0 <= k < |attempts| ==> ProperAttempt(attempts[k])
  }

  /**
   * The stored pair names the address its token was issued for, there is no bare token of an
   * older agent, and the token in use was issued to somebody.
   */
  ghost predicate Sound(s: State) {
    && (Stored(s.file).1 != "" ==> Stored(s.file) in s.issued && Stored(s.file).0 != "")
    && (s.token != "" ==> exists addr :: (addr, s.token) in s.issued)
  }

  lemma {:induction false} NothingRead()
    ensures ReadText("") == ("", "")
  {
    assert Fields("") == [];
  }

  lemma {:induction false} SavedStored(file: Option<string>, addr: string, token: string, write: Write)
    requires Word(addr) && Word(token) && WholeOrNothing(addr, token, write)
    ensures Stored(Saved(file, addr, token, write)) in {Stored(file), ("", ""), (addr, token)}
  {
    StateRoundTrip(addr, token);
    NothingRead();
    assert StateText(addr, token)[..0] == "";
    assert StateText(addr, token)[..|StateText(addr, token)|] == StateText(addr, token);
  }

  lemma {:induction false} SavedSound(s: State, addr: string, token: string, write: Write)
    requires Sound(s) && Word(addr) && Word(token) && WholeOrNothing(addr, token, write)
    ensures Sound(s.(token := token, file := Saved(s.file, addr, token, write), issued := s.issued + {(addr, token)}))
  {
    SavedStored(s.file, addr, token, write);
    var s' := s.(token := token, file := Saved(s.file, addr, token, write), issued := s.issued + {(addr, token)});
    assert (addr, s'.token) in s'.issued;
  }

  lemma {:induction false} EnrollSound(s: State, a: Attempt)
    requires Sound(s) && ProperAttempt(a)
    ensures Sound(Enrolled(s, a).0)
  {
    if a.key.Some? && a.token.Some? {
      SavedSound(s, a.key.value, a.token.value, a.write);
    }
    if Stored(s.file).1 != "" && Stored(s.file).0 == s.id {
      assert (Stored(s.file).0, Stored(s.file).1) in s.issued;
    }
  }

  lemma {:induction false} EnsureSound(s: State, attempts: seq<Attempt>)
    requires Sound(s) && ProperAttempts(attempts)
    ensures Sound(Ensured(s, attempts))
    decreases |attempts|
  {
    if attempts != [] {
      EnrollSound(s, attempts[0]);
      assert forall k :: 0 <= k < |attempts| - 1 ==> attempts[1..][k] == attempts[k + 1];
      EnsureSound(Enrolled(s, attempts[0]).0, attempts[1..]);
    }
  }

  predicate ProperEvent(e: Event) {
    ProperAttempts(e.attempts)
  }

  /** Over any run, stored pairs and tokens in use are ones the server issued, address included. */
  lemma {:induction false} RunSound(s: State, events: seq<Event>)
    requires Sound(s) && forall k :: 0 <= k < |events| ==> ProperEvent(events[k])
    ensures Sound(Run(s, events))
    decreases |events|
  {
    if events != [] {
      var e := events[0];
      assert ProperEvent(e);
      assert Stored(None) == ("", "");
      match e {
        case Started(own, attempts) =>
          EnsureSound(s.(id := own, token := ""), attempts);
        case TokenRejected(removed, attempts) =>
          EnsureSound(Forgotten(s, removed), attempts);
        case NodeRestarted(key, removed, attempts) =>
          if key.Some? {
            EnsureSound(Forgotten(s.(id := key.value), removed), attempts);
          }
      }
      assert forall k :: 0 <= k < |events| - 1 ==> events[1..][k] == events[k + 1];
      RunSound(Step(s, e), events[1..]);
    }
  }

  /// Whose token is in use.

  /** The token in use, if there is one, was issued for the identity in use. */
  ghost predicate Own(s: State) {
    Sound(s) && (s.token != "" ==> (s.id, s.token) in s.issued)
  }

  predicate KeysAre(id: string, attempts: seq<Attempt>) {
    forall k :: 0 <= k < |attempts| ==> (attempts[k].key.Some? ==> attempts[k].key.value == id)
  }

  /** Each registration opens the key of the identity in force. */
  predicate OwnKeys(s: State, e: Event) {
    match e
    case Started(own, attempts) => KeysAre(own, attempts)
    case TokenRejected(_, attempts) => KeysAre(s.id, attempts)
    case NodeRestarted(key, _, attempts) => KeysAre(if key.Some? then key.value else s.id, attempts)
  }

  predicate OwnKeysRun(s: State, events: seq<Event>)
    decreases |events|
  {
    events == [] || (OwnKeys(s, events[0]) && OwnKeysRun(Step(s, events[0]), events[1..]))
  }

  lemma {:induction false} EnrollOwn(s: State, a: Attempt)
    requires Own(s) && ProperAttempt(a) && (a.key.Some? ==> a.key.value == s.id)
    ensures Own(Enrolled(s, a).0) && Enrolled(s, a).0.id == s.id
  {
    EnrollSound(s, a);
    assert Stored(s.file) == (Stored(s.file).0, Stored(s.file).1);
  }

  lemma {:induction false} EnsureOwn(s: State, attempts: seq<Attempt>)
    requires Own(s) && ProperAttempts(attempts) && KeysAre(s.id, attempts)
    ensures Own(Ensured(s, attempts))
    decreases |attempts|
  {
    if attempts != [] {
      EnrollOwn(s, attempts[0]);
      assert forall k :: 0 <= k < |attempts| - 1 ==> attempts[1..][k] == attempts[k + 1];
      EnsureOwn(Enrolled(s, attempts[0]).0, attempts[1..]);
    }
  }

  lemma {:induction false} StepOwn(s: State, e: Event)
    requires Own(s) && ProperEvent(e) && OwnKeys(s, e)
    ensures Own(Step(s, e))
  {
    assert Stored(None) == ("", "");
    match e {
      case Started(own, attempts) =>
        EnsureOwn(s.(id := own, token := ""), attempts);
      case TokenRejected(removed, attempts) =>
        EnsureOwn(Forgotten(s, removed), attempts);
      case NodeRestarted(key, removed, attempts) =>
        if key.Some? {
          EnsureOwn(Forgotten(s.(id := key.value), removed), attempts);
        }
    }
  }

  /**
   * Over any run in which each registration opens the key of the identity in force, the token in use
   * was issued for the identity in use.
   */
  lemma {:induction false} RunOwn(s: State, events: seq<Event>)
    requires Own(s) && OwnKeysRun(s, events) && forall k :: 0 <= k < |events| ==> ProperEvent(events[k])
    ensures Own(Run(s, events))
    decreases |events|
  {
    if events != [] {
      assert ProperEvent(events[0]);
      StepOwn(s, events[0]);
      assert forall k :: 0 <= k < |events| - 1 ==> events[1..][k] == events[k + 1];
      RunOwn(Step(s, events[0]), events[1..]);
    }
  }

  /** The server gives no token to two addresses. */
  ghost predicate OneOwner(issued: set<(string, string)>) {
    forall a, b, t :: (a, t) in issued && (b, t) in issued ==> a == b
  }

  /** The attempt gets as far as a registration. */
  predicate Registers(s: State, a: Attempt) {
    && (Stored(s.file).1 == "" || (Stored(s.file).0 != "" && Stored(s.file).0 != s.id))
    && a.key.Some? && a.challenged && a.token.Some?
  }

  /**
   * A registration makes the token in use one of the identity in use exactly if the key opened is
   * still that identity's: a key changed meanwhile leaves the agent with the other address's token.
   */
  lemma {:induction false} ChangedKey(s: State, a: Attempt)
    requires Registers(s, a) && forall addr :: (addr, a.token.value) !in s.issued
    ensures Enrolled(s, a).0.token == a.token.value
    ensures (s.id, a.token.value) in Enrolled(s, a).0.issued <==> a.key.value == s.id
  {}

  /// What enrollment adopts.

  /** There is no bare token, and a stored pair of this identity holds one of the tokens `news`. */
  predicate Outdated(s: State, news: set<string>) {
    Stored(s.file).1 == "" || (Stored(s.file).0 != "" && (Stored(s.file).0 == s.id ==> Stored(s.file).1 in news))
  }

  predicate Answers(attempts: seq<Attempt>, news: set<string>) {
    forall k :: 0 <= k < |attempts| ==> (attempts[k].token.Some? ==> attempts[k].token.value in news)
  }

  /**
   * A stored pair of another address is never adopted, however many attempts are made: the token in
   * use stays, or it is one of those the server answers with.
   */
  lemma {:induction false} OtherPairNotAdopted(s: State, attempts: seq<Attempt>, news: set<string>)
    requires Outdated(s, news) && ProperAttempts(attempts) && Answers(attempts, news)
    ensures Ensured(s, attempts).token == s.token || Ensured(s, attempts).token in news
    decreases |attempts|
  {
    if attempts != [] {
      var a := attempts[0];
      if Registers(s, a) {
        SavedStored(s.file, a.key.value, a.token.value, a.write);
      }
      assert Outdated(Enrolled(s, a).0, news);
      assert forall k :: 0 <= k < |attempts| - 1 ==> attempts[1..][k] == attempts[k + 1];
      OtherPairNotAdopted(Enrolled(s, a).0, attempts[1..], news);
    }
  }

  /** An enrollment that succeeds leaves a token issued for this identity, if the key is still its own. */
  lemma {:induction false} EnrolledAsSelf(s: State, a: Attempt)
    requires Sound(s) && (a.key.Some? ==> a.key.value == s.id) && Enrolled(s, a).1
    ensures (s.id, Enrolled(s, a).0.token) in Enrolled(s, a).0.issued
  {}

  /** An older agent's bare token is adopted and bound to the identity of the moment. */
  lemma {:induction false} BareTokenBound(s: State, a: Attempt)
    requires Stored(s.file).0 == "" && Stored(s.file).1 != "" && Word(s.id)
    ensures var (s', ok) := Enrolled(s, a);
            ok && s'.token == Stored(s.file).1 && (a.write.Written? ==> Stored(s'.file) == (s.id, s'.token))
    ensures a.write.Written? && (s.id, Stored(s.file).1) in s.issued ==> Sound(Enrolled(s, a).0)
  {
    FieldsAreWords(s.file.value);
    StateRoundTrip(s.id, Stored(s.file).1);
  }

  /// A state file cut short.

  lemma {:induction false} CutInAddress(addr: string, token: string, n: nat)
    requires n <= |addr|
    ensures Prefix(StateText(addr, token), n) == Prefix(addr, n)
  {}

  lemma {:induction false} CutInToken(addr: string, token: string, n: nat)
    requires n > |addr|
    ensures Prefix(StateText(addr, token), n) == addr + " " + Prefix(token, n - |addr| - 1)
  {}

  /** What is read from a state file of which only `n` characters were written. */
  lemma {:induction false} CutRead(addr: string, token: string, n: nat)
    requires Word(addr) && Word(token)
    ensures ReadText(Prefix(StateText(addr, token), n)) ==
            if n == 0 then ("", "")
            else if n <= |addr| + 1 then ("", Prefix(addr, n))
            else (addr, Prefix(token, n - |addr| - 1))
  {
    if n <= |addr| {
      CutInAddress(addr, token, n);
      FieldsOfPart(addr, n);
    } else {
      CutInToken(addr, token, n);
      WordAndPart(addr, token, n - |addr| - 1);
    }
  }

  lemma {:induction false} WordAndPart(addr: string, token: string, m: nat)
    requires Word(addr) && Word(token)
    ensures ReadText(addr + " " + Prefix(token, m)) == if m == 0 then ("", addr) else (addr, Prefix(token, m))
  {
    FieldsConcat(addr, Prefix(token, m));
    FieldsOfPart(token, m);
    FieldsOfWord(addr);
  }

  /**
   * Which cuts harm: the file is read as nothing or as the pair exactly if nothing or everything was
   * written; a cut inside the address or just behind it is read as a token without an address.
   */
  lemma {:induction false} HarmlessCuts(addr: string, token: string, n: nat)
    requires Word(addr) && Word(token)
    ensures (var read := ReadText(Prefix(StateText(addr, token), n)); read == ("", "") || read == (addr, token)) <==>
            n == 0 || n >= |StateText(addr, token)|
    ensures ReadText(Prefix(StateText(addr, token), n)).0 == "" && n > 0 <==> 1 <= n <= |addr| + 1
  {
    CutRead(addr, token, n);
    var m: nat := if n > |addr| + 1 then n - |addr| - 1 else 0;
    assert Prefix(token, m) == token <==> m >= |token|;
    assert |StateText(addr, token)| == |addr| + 1 + |token|;
    assert 0 < n <= |addr| + 1 ==> Prefix(addr, n) != "" && addr != "";
    assert n > |addr| + 1 ==> addr != "";
  }

  /** The next attempt after such a cut takes the address, or what was written of it, for the token. */
  lemma {:induction false} AddressAdopted(s: State, addr: string, token: string, n: nat, a: Attempt)
    requires Word(addr) && Word(token) && s.file == Saved(None, addr, token, Cut(n))
    ensures 1 <= n <= |addr| + 1 <==> Stored(s.file).1 != "" && Stored(s.file).0 == ""
    ensures 1 <= n <= |addr| + 1 ==> Enrolled(s, a).1 && Enrolled(s, a).0.token == Prefix(addr, n)
  {
    CutRead(addr, token, n);
  }

  /// When an attempt succeeds, and what a rejected token leaves.

  /** An attempt can adopt what is stored: a bare token, or the own pair. */
  predicate Adopts(s: State) {
    Stored(s.file).1 != "" && (Stored(s.file).0 == "" || Stored(s.file).0 == s.id)
  }

  /**
   * An attempt succeeds exactly if there is something to adopt, or key, challenge, answer and write are
   * all good; the token in use is then the one adopted or the one answered. After a failure without
   * an answer nothing has changed.
   */
  lemma {:induction false} AttemptSucceeds(s: State, a: Attempt)
    ensures var (s', ok) := Enrolled(s, a);
            && (ok <==> Adopts(s) || (a.key.Some? && a.challenged && a.token.Some? && a.write.Written?))
            && (ok ==> s'.token == if Adopts(s) then Stored(s.file).1 else a.token.value)
            && (!Adopts(s) && !(a.key.Some? && a.challenged && a.token.Some?) ==> s' == s)
            && s'.id == s.id
  {}

  /** A registered pair is stored and in use at once. */
  lemma {:induction false} RegistrationStored(s: State, a: Attempt)
    requires Registers(s, a) && a.write.Written? && Word(a.key.value) && Word(a.token.value)
    ensures Stored(Enrolled(s, a).0.file) == (a.key.value, a.token.value)
    ensures Enrolled(s, a).0.token == a.token.value
  {
    StateRoundTrip(a.key.value, a.token.value);
  }

  /** Attempts are made up to the first one that succeeds, whatever would have followed. */
  lemma {:induction false} FirstSuccessCounts(s: State, failed: seq<Attempt>, a: Attempt, rest: seq<Attempt>)
    requires forall k :: 0 <= k < |failed| ==> !Enrolled(Ensured(s, failed[..k]), failed[k]).1
    requires Enrolled(Ensured(s, failed), a).1
    ensures Ensured(s, failed + [a] + rest) == Enrolled(Ensured(s, failed), a).0
    decreases |failed|
  {
    var all := failed + [a] + rest;
    if failed == [] {
      assert all[0] == a;
    } else {
      assert failed[..0] == [] && all[0] == failed[0] && all[1..] == failed[1..] + [a] + rest;
      forall k | 0 <= k < |failed| - 1
        ensures !Enrolled(Ensured(Enrolled(s, failed[0]).0, failed[1..][..k]), failed[1..][k]).1
      {
        assert failed[..k + 1][0] == failed[0] && failed[..k + 1][1..] == failed[1..][..k];
      }
      FirstSuccessCounts(Enrolled(s, failed[0]).0, failed[1..], a, rest);
    }
  }

  /**
   * After a rejected token or a changed wallet, the state file removed, the token in use is none or one
   * the server answers with in these attempts, for every file and state there was; without an attempt
   * nothing is stored either.
   */
  lemma {:induction false} RejectedGone(s: State, attempts: seq<Attempt>, news: set<string>)
    requires ProperAttempts(attempts) && Answers(attempts, news)
    ensures var s' := Step(s, TokenRejected(true, attempts));
            (s'.token == "" || s'.token in news) && s'.id == s.id
            && (attempts == [] ==> s'.file == None && s'.token == "")
  {
    Forgets(s, attempts, news);
  }

  lemma {:induction false} OldWalletGone(s: State, key: string, attempts: seq<Attempt>, news: set<string>)
    requires ProperAttempts(attempts) && Answers(attempts, news) && key != s.id
    ensures var s' := Step(s, NodeRestarted(Some(key), true, attempts));
            (s'.token == "" || s'.token in news) && s'.id == key
            && (attempts == [] ==> s'.file == None && s'.token == "")
  {
    Forgets(s.(id := key), attempts, news);
  }

  lemma {:induction false} Forgets(s: State, attempts: seq<Attempt>, news: set<string>)
    requires ProperAttempts(attempts) && Answers(attempts, news)
    ensures var s' := Ensured(Forgotten(s, true), attempts);
            (s'.token == "" || s'.token in news) && s'.id == s.id
            && (attempts == [] ==> s'.file == None && s'.token == "")
  {
    var s0 := Forgotten(s, true);
    assert s0.token == "" && s0.file == None && s0.id == s.id;
    assert Stored(None) == ("", "");
    OtherPairNotAdopted(s0, attempts, news);
    EnsuredKeepsId(s0, attempts);
  }

  lemma {:induction false} EnsuredKeepsId(s: State, attempts: seq<Attempt>)
    ensures Ensured(s, attempts).id == s.id
    decreases |attempts|
  {
    if attempts != [] {
      EnsuredKeepsId(Enrolled(s, attempts[0]).0, attempts[1..]);
    }
  }

  /**
   * If the file cannot be removed, the rejected token is adopted again by the first attempt, as long as
   * it is stored for the own address or without one.
   */
  lemma {:induction false} UnremovedAdopted(s: State, a: Attempt, rest: seq<Attempt>)
    requires Adopts(s)
    ensures Step(s, TokenRejected(false, [a] + rest)).token == Stored(s.file).1
  {
    assert ([a] + rest)[0] == a;
  }

  /** The same or an unreadable key after a restart of the node changes nothing. */
  lemma {:induction false} SameWalletKept(s: State, key: Option<string>, removed: bool, attempts: seq<Attempt>)
    requires key.None? || key.value == s.id
    ensures Step(s, NodeRestarted(key, removed, attempts)) == s
  {}
}
