/// One poll of the command queue: every command is answered once, and a batch of configuration
/// commands costs one restart.

module PollBatch {
  import opened Sequences

  datatype Kind = RestartNode | ConfigUpdate | Direct

  /** A queued command: its id, what it is and, as the outside decides, whether it succeeds. */
  datatype Command = Command(id: string, kind: Kind, succeeds: bool)

  /** What the agent does about the commands of a batch; commands are named by their position. */
  datatype Action =
    | Edit(k: nat)
    | Execute(k: nat)
    | Restart
    | Report(k: nat, ok: bool)

  datatype Reply = Unauthorized | Unavailable | Batch(commands: seq<Command>, latest: string)

  /** The command waits for the restart: it asks for one, or its edit has been made. */
  predicate Deferred(c: Command) {
    c.kind.RestartNode? || (c.kind.ConfigUpdate? && c.succeeds)
  }

  /** What is done at once about one command, at position `k`. */
  function ForOne(c: Command, k: nat): seq<Action> {
    match c.kind
    case RestartNode => []
    case ConfigUpdate => if c.succeeds then [Edit(k)] else [Edit(k), Report(k, false)]
    case Direct => [Execute(k), Report(k, c.succeeds)]
  }

  /** What is done at once, command by command. */
  function Parts(commands: seq<Command>): (parts: seq<seq<Action>>)
    ensures |parts| == |commands|
  {
    seq(|commands|, k requires 0 <= k < |commands| => ForOne(commands[k], k))
  }

  /** The first `n` parts one after the other. */
  function Flat(parts: seq<seq<Action>>, n: nat): seq<Action>
    requires n <= |parts|
  {
    if n == 0 then [] else Flat(parts, n - 1) + parts[n - 1]
  }

  /** What is done at once about a batch. */
  function AtOnce(commands: seq<Command>): seq<Action> {
    Flat(Parts(commands), |commands|)
  }

  /** The positions, among the first `n`, of commands that wait for the restart. */
  function Waiting(commands: seq<Command>, n: nat): seq<nat>
    requires n <= |commands|
  {
    if n == 0 then []
    else if Deferred(commands[n - 1]) then Waiting(commands, n - 1) + [n - 1]
    else Waiting(commands, n - 1)
  }

  function Reports(ks: seq<nat>, ok: bool): seq<Action> {
    if ks == [] then [] else Reports(ks[..|ks| - 1], ok) + [Report(ks[|ks| - 1], ok)]
  }

  function Done(commands: seq<Command>, restartOk: bool): seq<Action> {
    var waiting := Waiting(commands, |commands|);
    AtOnce(commands) + if waiting == [] then [] else [Restart] + Reports(waiting, restartOk)
  }

  /** The server names a version that is neither this one nor the one announced last. */
  predicate IsNews(version: string, logged: string, latest: string) {
    latest != "" && latest != version && latest != logged
  }

  function News(version: string, logged: string, reply: Reply): seq<string> {
    if reply.Batch? && IsNews(version, logged, reply.latest) then [reply.latest] else []
  }

  function LoggedAfter(version: string, logged: string, reply: Reply): string {
    if reply.Batch? && IsNews(version, logged, reply.latest) then reply.latest else logged
  }

  /** All announcements of a run of polls. */
  function NewsOf(version: string, logged: string, replies: seq<Reply>): seq<string>
    decreases |replies|
  {
    if replies == [] then []
    else News(version, logged, replies[0]) + NewsOf(version, LoggedAfter(version, logged, replies[0]), replies[1..])
  }

  class Poller {
    const version: string
    var actions: seq<Action>
    var loggedLatest: string
    var announcements: seq<string>
    var reenrollments: nat

    constructor (version: string)
      ensures this.version == version && actions == [] && loggedLatest == ""
      ensures announcements == [] && reenrollments == 0
    {
      this.version := version;
      actions, loggedLatest, announcements, reenrollments := [], "", [], 0;
    }

    method Finish(k: nat, ok: bool)
      modifies this`actions
      ensures actions == old(actions) + [Report(k, ok)]
    {
      actions := actions + [Report(k, ok)];
    }

    /** A newer version is announced once. */
    method Announce(latest: string)
      modifies this`loggedLatest, this`announcements
      ensures loggedLatest == if IsNews(version, old(loggedLatest), latest) then latest else old(loggedLatest)
      ensures announcements == old(announcements) +
              if IsNews(version, old(loggedLatest), latest) then [latest] else []
    {
      if latest != "" && latest != version && latest != loggedLatest {
        announcements := announcements + [latest];
        loggedLatest := latest;
      }
    }

    method Process(c: Command, k: nat) returns (deferred: bool)
      modifies this`actions
      ensures deferred == Deferred(c)
      ensures actions == old(actions) + ForOne(c, k)
    {
      match c.kind
      case RestartNode =>
        return true;
      case ConfigUpdate =>
        actions := actions + [Edit(k)];
        if c.succeeds {
          return true;
        }
        Finish(k, false);
        return false;
      case Direct =>
        actions := actions + [Execute(k)];
        Finish(k, c.succeeds);
        return false;
    }

    method FinishAll(ks: seq<nat>, ok: bool)
      modifies this`actions
      ensures actions == old(actions) + Reports(ks, ok)
    {
      for i := 0 to |ks|
        invariant actions == old(actions) + Reports(ks[..i], ok)
      {
        Finish(ks[i], ok);
        assert ks[..i + 1][..i] == ks[..i];
      }
      assert ks[..|ks|] == ks;
    }

    /** The batch up to the restart. */
    method ActAtOnce(commands: seq<Command>) returns (restart: bool, deferred: seq<nat>)
      modifies this`actions
      ensures actions == old(actions) + AtOnce(commands)
      ensures deferred == Waiting(commands, |commands|) && (restart <==> deferred != [])
    {
      restart, deferred := false, [];
      ghost var was, parts := actions, Parts(commands);
      for k := 0 to |commands|
        invariant actions == was + Flat(parts, k)
        invariant deferred == Waiting(commands, k) && (restart <==> deferred != [])
      {
        var later := Process(commands[k], k);
        ConcatAssociates(was, Flat(parts, k), ForOne(commands[k], k));
        if later {
          restart := true;
          deferred := deferred + [k];
        }
      }
    }

    method RunBatch(commands: seq<Command>, restartOk: bool)
      modifies this`actions
      ensures actions == old(actions) + Done(commands, restartOk)
    {
      var restart, deferred := ActAtOnce(commands);
      if restart {
        actions := actions + [Restart];
        FinishAll(deferred, restartOk);
        ConcatFour(old(actions), AtOnce(commands), [Restart], Reports(deferred, restartOk));
      }
    }

    method PollOnce(reply: Reply, restartOk: bool)
      modifies this
      ensures actions == old(actions) + if reply.Batch? then Done(reply.commands, restartOk) else []
      ensures reenrollments == old(reenrollments) + if reply.Unauthorized? then 1 else 0
      ensures loggedLatest == LoggedAfter(version, old(loggedLatest), reply)
      ensures announcements == old(announcements) + News(version, old(loggedLatest), reply)
    {
      match reply
      case Unauthorized =>
        reenrollments := reenrollments + 1;
      case Unavailable =>
      case Batch(commands, latest) =>
        Announce(latest);
        RunBatch(commands, restartOk);
    }
  }

  /// The accounts of a batch.

  function Count(actions: seq<Action>, a: Action): nat {
    if actions == [] then 0 else Count(actions[..|actions| - 1], a) + if actions[|actions| - 1] == a then 1 else 0
  }

  /** How often command `k` is reported. */
  function ReportsOf(actions: seq<Action>, k: nat): nat {
    Count(actions, Report(k, true)) + Count(actions, Report(k, false))
  }

  lemma {:induction false} CountConcat(x: seq<Action>, y: seq<Action>, a: Action)
    ensures Count(x + y, a) == Count(x, a) + Count(y, a)
  {
    if y == [] {
      assert x + y == x;
    } else {
      CountConcat(x, y[..|y| - 1], a);
      assert (x + y)[..|x + y| - 1] == x + y[..|y| - 1];
    }
  }

  lemma {:induction false} CountOne(b: Action, a: Action)
    ensures Count([b], a) == if b == a then 1 else 0
  {
    assert [b][..0] == [];
  }

  lemma {:induction false} CountTwo(b: Action, c: Action, a: Action)
    ensures Count([b, c], a) == (if b == a then 1 else 0) + (if c == a then 1 else 0)
  {
    CountConcat([b], [c], a);
    CountOne(b, a);
    CountOne(c, a);
    assert [b, c] == [b] + [c];
  }

  /** The position an action is about. */
  function About(a: Action): nat {
    match a
    case Edit(k) => k
    case Execute(k) => k
    case Report(k, _) => k
    case Restart => 0
  }

  /** Whether `a` is done at once about command `c`, at position `m`. */
  predicate IsDone(c: Command, m: nat, a: Action) {
    match a
    case Edit(k) => k == m && c.kind.ConfigUpdate?
    case Execute(k) => k == m && c.kind.Direct?
    case Report(k, ok) => k == m && !Deferred(c) && ok == (c.kind.Direct? && c.succeeds)
    case Restart => false
  }

  lemma {:induction false} ForOneCounts(c: Command, m: nat, a: Action)
    ensures Count(ForOne(c, m), a) == if IsDone(c, m, a) then 1 else 0
  {
    match c.kind {
      case RestartNode =>
      case ConfigUpdate =>
        CountOne(Edit(m), a);
        CountTwo(Edit(m), Report(m, false), a);
      case Direct =>
        CountTwo(Execute(m), Report(m, c.succeeds), a);
    }
  }

  lemma {:induction false} FlatCounts(parts: seq<seq<Action>>, n: nat, a: Action, k: nat)
    requires n <= |parts|
    requires forall m :: 0 <= m < n && m != k ==> Count(parts[m], a) == 0
    ensures Count(Flat(parts, n), a) == if k < n then Count(parts[k], a) else 0
  {
    if n > 0 {
      FlatCounts(parts, n - 1, a, k);
      CountConcat(Flat(parts, n - 1), parts[n - 1], a);
    }
  }

  lemma {:induction false} AtOnceCounts(commands: seq<Command>, a: Action)
    ensures Count(AtOnce(commands), a) ==
            if About(a) < |commands| && IsDone(commands[About(a)], About(a), a) then 1 else 0
  {
    var parts := Parts(commands);
    forall m | 0 <= m < |commands|
      ensures Count(parts[m], a) == if IsDone(commands[m], m, a) then 1 else 0
    {
      ForOneCounts(commands[m], m, a);
    }
    FlatCounts(parts, |commands|, a, About(a));
  }

  lemma {:induction false} ReportsCount(ks: seq<nat>, ok: bool, a: Action)
    ensures Count(Reports(ks, ok), a) == if a.Report? && a.ok == ok then Occurrences(ks, a.k) else 0
  {
    if ks != [] {
      var init, last := ks[..|ks| - 1], ks[|ks| - 1];
      ReportsCount(init, ok, a);
      CountConcat(Reports(init, ok), [Report(last, ok)], a);
      CountOne(Report(last, ok), a);
    }
  }

  function Occurrences(ks: seq<nat>, k: nat): nat {
    if ks == [] then 0 else Occurrences(ks[..|ks| - 1], k) + if ks[|ks| - 1] == k then 1 else 0
  }

  lemma {:induction false} OneMore(ks: seq<nat>, m: nat, k: nat)
    ensures Occurrences(ks + [m], k) == Occurrences(ks, k) + if m == k then 1 else 0
  {
    assert (ks + [m])[..|ks|] == ks;
  }

  /** Each command that waits does so once. */
  lemma {:induction false} WaitingOnce(commands: seq<Command>, n: nat, k: nat)
    requires n <= |commands|
    ensures Occurrences(Waiting(commands, n), k) == if k < n && Deferred(commands[k]) then 1 else 0
  {
    if n > 0 {
      WaitingOnce(commands, n - 1, k);
      OneMore(Waiting(commands, n - 1), n - 1, k);
    }
  }

  /** How often a batch does something: at once, or after the restart. */
  lemma {:induction false} DoneCounts(commands: seq<Command>, restartOk: bool, a: Action)
    ensures Count(Done(commands, restartOk), a) ==
            (if About(a) < |commands| && IsDone(commands[About(a)], About(a), a) then 1 else 0)
            + (if a.Restart? && Waiting(commands, |commands|) != [] then 1 else 0)
            + (if a.Report? && a.ok == restartOk && a.k < |commands| && Deferred(commands[a.k]) then 1 else 0)
  {
    var waiting := Waiting(commands, |commands|);
    AtOnceCounts(commands, a);
    WaitingOnce(commands, |commands|, About(a));
    if waiting == [] {
      CountConcat(AtOnce(commands), [], a);
    } else {
      CountConcat(AtOnce(commands), [Restart] + Reports(waiting, restartOk), a);
      CountConcat([Restart], Reports(waiting, restartOk), a);
      CountOne(Restart, a);
      ReportsCount(waiting, restartOk, a);
    }
  }

  lemma {:induction false} WaitingIff(commands: seq<Command>, n: nat)
    requires n <= |commands|
    ensures Waiting(commands, n) != [] <==> exists k :: 0 <= k < n && Deferred(commands[k])
  {
    if n > 0 {
      WaitingIff(commands, n - 1);
    }
  }

  /**
   * Each command of a batch, repeated ones included, is reported exactly once; the node is
   * restarted at most once, and exactly if a restart was asked for or an edit was made.
   */
  lemma {:induction false} BatchAccounts(commands: seq<Command>, restartOk: bool, k: nat)
    ensures ReportsOf(Done(commands, restartOk), k) == if k < |commands| then 1 else 0
    ensures Count(Done(commands, restartOk), Restart) ==
            if exists j :: 0 <= j < |commands| && Deferred(commands[j]) then 1 else 0
  {
    WaitingIff(commands, |commands|);
    DoneCounts(commands, restartOk, Report(k, true));
    DoneCounts(commands, restartOk, Report(k, false));
    DoneCounts(commands, restartOk, Restart);
  }

  /** Each configuration command is edited and each direct command executed exactly once, and nothing else. */
  lemma {:induction false} ActedOnce(commands: seq<Command>, restartOk: bool, k: nat)
    ensures Count(Done(commands, restartOk), Edit(k)) == if k < |commands| && commands[k].kind.ConfigUpdate? then 1 else 0
    ensures Count(Done(commands, restartOk), Execute(k)) == if k < |commands| && commands[k].kind.Direct? then 1 else 0
  {
    DoneCounts(commands, restartOk, Edit(k));
    DoneCounts(commands, restartOk, Execute(k));
  }

  /// The order of a batch.

  /** Where an action of a flattened batch comes from, and what was done just before it. */
  lemma {:induction false} FlatAt(parts: seq<seq<Action>>, n: nat, i: nat) returns (m: nat, j: nat)
    requires n <= |parts| && i < |Flat(parts, n)|
    ensures m < n && j < |parts[m]| && Flat(parts, n)[i] == parts[m][j]
    ensures j > 0 ==> i > 0 && Flat(parts, n)[i - 1] == parts[m][j - 1]
  {
    var head := Flat(parts, n - 1);
    if i < |head| {
      m, j := FlatAt(parts, n - 1, i);
    } else {
      m, j := n - 1, i - |head|;
    }
  }

  lemma {:induction false} ForOneAt(c: Command, m: nat, j: nat)
    requires j < |ForOne(c, m)|
    ensures About(ForOne(c, m)[j]) == m && IsDone(c, m, ForOne(c, m)[j])
    ensures ForOne(c, m)[j].Report? ==> j == 1 && ForOne(c, m)[0] == if c.kind.Direct? then Execute(m) else Edit(m)
  {}

  lemma {:induction false} AtOnceKinds(commands: seq<Command>, i: nat)
    requires i < |AtOnce(commands)|
    ensures var a := AtOnce(commands)[i];
            && About(a) < |commands| && IsDone(commands[About(a)], About(a), a)
            && (a.Report? ==> i > 0 && AtOnce(commands)[i - 1] == if commands[a.k].kind.Direct? then Execute(a.k) else Edit(a.k))
  {
    var m, j := FlatAt(Parts(commands), |commands|, i);
    ForOneAt(commands[m], m, j);
  }

  lemma {:induction false} ReportKinds(ks: seq<nat>, ok: bool, i: nat)
    requires i < |Reports(ks, ok)|
    ensures |Reports(ks, ok)| == |ks| && Reports(ks, ok)[i] == Report(ks[i], ok)
  {
    ReportsLength(ks, ok);
    if i < |ks| - 1 {
      ReportsLength(ks[..|ks| - 1], ok);
      ReportKinds(ks[..|ks| - 1], ok, i);
    } else {
      ReportsLength(ks[..|ks| - 1], ok);
    }
  }

  lemma {:induction false} ReportsLength(ks: seq<nat>, ok: bool)
    ensures |Reports(ks, ok)| == |ks|
  {
    if ks != [] {
      ReportsLength(ks[..|ks| - 1], ok);
    }
  }

  lemma {:induction false} WaitingDeferred(commands: seq<Command>, n: nat, i: nat)
    requires n <= |commands| && i < |Waiting(commands, n)|
    ensures Waiting(commands, n)[i] < n && Deferred(commands[Waiting(commands, n)[i]])
  {
    if i < |Waiting(commands, n - 1)| {
      WaitingDeferred(commands, n - 1, i);
    }
  }

  /**
   * After the restart there are only reports, each with the restart's own outcome, each about a
   * command that waited for it; before it, only edits, executions and reports on their own account.
   */
  lemma {:induction false} BatchOrder(commands: seq<Command>, restartOk: bool, r: nat, i: nat)
    requires r < |Done(commands, restartOk)| && Done(commands, restartOk)[r].Restart?
    requires i < |Done(commands, restartOk)| && i != r
    ensures match Done(commands, restartOk)[i]
            case Report(k, ok) =>
              && k < |commands|
              && (i > r <==> Deferred(commands[k]))
              && ok == if i > r then restartOk else commands[k].kind.Direct? && commands[k].succeeds
            case Restart => false
            case _ => i < r
  {
    var head, waiting := AtOnce(commands), Waiting(commands, |commands|);
    var tail := Reports(waiting, restartOk);
    var all := Done(commands, restartOk);
    if r < |head| {
      AtOnceKinds(commands, r);
    } else if r > |head| {
      ReportKinds(waiting, restartOk, r - |head| - 1);
    }
    assert r == |head|;
    if i < r {
      AtOnceKinds(commands, i);
    } else {
      ReportKinds(waiting, restartOk, i - r - 1);
      WaitingDeferred(commands, |commands|, i - r - 1);
      assert all[i] == tail[i - r - 1];
    }
  }

  /** A command that does not wait is reported right after it was executed or its edit failed. */
  lemma {:induction false} ActedBeforeReport(commands: seq<Command>, restartOk: bool, i: nat)
    requires i < |Done(commands, restartOk)| && Done(commands, restartOk)[i].Report?
    requires var k := Done(commands, restartOk)[i].k; k < |commands| && !Deferred(commands[k])
    ensures var k := Done(commands, restartOk)[i].k;
            i > 0 && Done(commands, restartOk)[i - 1] == if commands[k].kind.Direct? then Execute(k) else Edit(k)
  {
    var head, waiting := AtOnce(commands), Waiting(commands, |commands|);
    if i < |head| {
      AtOnceKinds(commands, i);
    } else {
      assert waiting != [] && i > |head|;
      ReportKinds(waiting, restartOk, i - |head| - 1);
      WaitingDeferred(commands, |commands|, i - |head| - 1);
      assert false;
    }
  }

  lemma {:induction false} FlatInOrder(parts: seq<seq<Action>>, n: nat, i: nat, j: nat)
    requires n <= |parts| && i <= j < |Flat(parts, n)|
    requires forall m, t :: 0 <= m < n && 0 <= t < |parts[m]| ==> About(parts[m][t]) == m
    ensures About(Flat(parts, n)[i]) <= About(Flat(parts, n)[j]) < n
  {
    var head := Flat(parts, n - 1);
    if j < |head| {
      FlatInOrder(parts, n - 1, i, j);
    } else {
      assert Flat(parts, n)[j] == parts[n - 1][j - |head|];
      if i < |head| {
        FlatInOrder(parts, n - 1, i, i);
      } else {
        assert Flat(parts, n)[i] == parts[n - 1][i - |head|];
      }
    }
  }

  lemma {:induction false} AtOnceInOrder(commands: seq<Command>, i: nat, j: nat)
    requires i <= j < |AtOnce(commands)|
    ensures About(AtOnce(commands)[i]) <= About(AtOnce(commands)[j])
  {
    var parts := Parts(commands);
    forall m, t | 0 <= m < |commands| && 0 <= t < |parts[m]|
      ensures About(parts[m][t]) == m
    {
      ForOneAt(commands[m], m, t);
    }
    FlatInOrder(parts, |commands|, i, j);
  }

  lemma {:induction false} WaitingInOrder(commands: seq<Command>, n: nat, i: nat, j: nat)
    requires n <= |commands| && i < j < |Waiting(commands, n)|
    ensures Waiting(commands, n)[i] < Waiting(commands, n)[j]
  {
    WaitingDeferred(commands, n, j);
    if j < |Waiting(commands, n - 1)| {
      WaitingInOrder(commands, n - 1, i, j);
    } else {
      WaitingDeferred(commands, n - 1, i);
    }
  }

  /** Before the restart and after it, commands are dealt with in the order of the batch. */
  lemma {:induction false} BatchInOrder(commands: seq<Command>, restartOk: bool, i: nat, j: nat)
    requires i < j < |Done(commands, restartOk)|
    requires Restart !in Done(commands, restartOk)[i..j + 1]
    ensures About(Done(commands, restartOk)[i]) <= About(Done(commands, restartOk)[j])
  {
    var all, head, waiting := Done(commands, restartOk), AtOnce(commands), Waiting(commands, |commands|);
    if j < |head| {
      AtOnceInOrder(commands, i, j);
    } else {
      assert all[|head|] == Restart;
      assert i > |head|;
      ReportKinds(waiting, restartOk, i - |head| - 1);
      ReportKinds(waiting, restartOk, j - |head| - 1);
      WaitingInOrder(commands, |commands|, i - |head| - 1, j - |head| - 1);
    }
  }

  /// Announcements.

  /**
   * Over any run of polls only versions the server named are announced, never the agent's own, and
   * never the same one twice in a row.
   */
  lemma {:induction false} AnnouncedOnce(version: string, logged: string, replies: seq<Reply>)
    ensures var news := NewsOf(version, logged, replies);
            && (forall k :: 0 <= k < |news| ==> news[k] != "" && news[k] != version)
            && (forall k :: 0 <= k < |news| - 1 ==> news[k] != news[k + 1])
            && (news != [] ==> news[0] != logged)
    decreases |replies|
  {
    if replies != [] {
      var next := LoggedAfter(version, logged, replies[0]);
      AnnouncedOnce(version, next, replies[1..]);
      PrependNews(version, logged, News(version, logged, replies[0]), NewsOf(version, next, replies[1..]), next);
    }
  }

  lemma {:induction false} PrependNews(version: string, logged: string, first: seq<string>, rest: seq<string>, next: string)
    requires first == [] ==> next == logged
    requires first != [] ==> first == [next] && next != "" && next != version && next != logged
    requires forall k :: 0 <= k < |rest| ==> rest[k] != "" && rest[k] != version
    requires forall k :: 0 <= k < |rest| - 1 ==> rest[k] != rest[k + 1]
    requires rest != [] ==> rest[0] != next
    ensures var news := first + rest;
            && (forall k :: 0 <= k < |news| ==> news[k] != "" && news[k] != version)
            && (forall k :: 0 <= k < |news| - 1 ==> news[k] != news[k + 1])
            && (news != [] ==> news[0] != logged)
  {
    if first != [] {
      assert forall k :: 0 < k < |first + rest| ==> (first + rest)[k] == rest[k - 1];
    } else {
      assert first + rest == rest;
    }
  }

  /** The last version the server named that is not the agent's own; `logged` if it named none. */
  function LastNamed(version: string, logged: string, replies: seq<Reply>): string
    decreases |replies|
  {
    if replies == [] then logged
    else
      var r := replies[0];
      LastNamed(version, if r.Batch? && r.latest != "" && r.latest != version then r.latest else logged, replies[1..])
  }

  /** After any number of polls the version announced last is the one the server named last. */
  lemma {:induction false} NewsUpToDate(version: string, logged: string, replies: seq<Reply>)
    ensures var news := NewsOf(version, logged, replies);
            (if news == [] then logged else news[|news| - 1]) == LastNamed(version, logged, replies)
    decreases |replies|
  {
    if replies != [] {
      NewsUpToDate(version, LoggedAfter(version, logged, replies[0]), replies[1..]);
    }
  }
}
