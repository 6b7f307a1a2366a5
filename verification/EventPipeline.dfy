/// The event pipeline: the Docker stream reader, the debouncing watcher and the main loop, as
/// interleaved steps over two lossy channels of capacity one and a timer.

module EventPipeline {

  /** `Events`: decoding, with a decoded event in hand, or returned with its channel closed. */
  datatype Producer = Decoding | Holding | Closed

  /** `watchEvents`: in the select, between a receive and what it does next, or reconnecting. */
  datatype Watcher = Selecting | GotEvent | GotFire | Sleeping | Stopped

  /** `loop`: in the select, between the receive and the refresh, refreshing, or at other work. */
  datatype Loop = Waiting | Woken | Refreshing | Working | Ended

  /**
   * `ch` and `settled` say whether the channels' buffers are full; the timer can be armed, and
   * its channel can hold an expiry. `owed` is no variable of the program: a container event has
   * been accepted from the stream since the last identity refresh began.
   */
  datatype State = State(
    producer: Producer, ch: bool, watcher: Watcher, armed: bool, fired: bool,
    settled: bool, loop: Loop, cancelled: bool, owed: bool)

  const INITIAL := State(Decoding, false, Selecting, false, false, false, Working, false, false)

  datatype Action =
    | AcceptEvent | OfferEvent | EndStream
    | ReceiveEvent | ReceiveClosed | Reconnect | ResetTimer(keepsExpiry: bool) | Expire | ReceiveExpiry | Signal
    | Wake | BeginRefresh | EndRefresh | StartWork | EndWork
    | Cancel | StopProducer | StopWatcher | StopLoop

  predicate Enabled(s: State, a: Action) {
    match a
    case AcceptEvent => s.producer.Decoding?
    case OfferEvent => s.producer.Holding?
    case EndStream => s.producer.Decoding?
    case ReceiveEvent => s.watcher.Selecting? && s.ch
    case ReceiveClosed => s.watcher.Selecting? && !s.ch && s.producer.Closed?
    case Reconnect => s.watcher.Sleeping? && !s.cancelled
    case ResetTimer(_) => s.watcher.GotEvent?
    case Expire => s.armed
    case ReceiveExpiry => s.watcher.Selecting? && s.fired
    case Signal => s.watcher.GotFire?
    case Wake => s.loop.Waiting? && s.settled
    case BeginRefresh => s.loop.Woken?
    case EndRefresh => s.loop.Refreshing?
    case StartWork => s.loop.Waiting?
    case EndWork => s.loop.Working?
    case Cancel => !s.cancelled
    case StopProducer => s.cancelled && s.producer.Holding?
    case StopWatcher => s.cancelled && (s.watcher.Selecting? || s.watcher.Sleeping?)
    case StopLoop => s.cancelled && s.loop.Waiting?
  }

  /** The step; both sends drop what they carry when the buffer is full. */
  function Next(s: State, a: Action): State
    requires Enabled(s, a)
  {
    match a
    case AcceptEvent => s.(producer := Holding, owed := true)
    case OfferEvent => s.(producer := Decoding, ch := true)
    case EndStream => s.(producer := Closed)
    case ReceiveEvent => s.(ch := false, watcher := GotEvent)
    case ReceiveClosed => s.(watcher := Sleeping)
    case Reconnect => s.(watcher := Selecting, producer := Decoding, ch := false)
    case ResetTimer(keepsExpiry) => s.(watcher := Selecting, armed := true, fired := s.fired && keepsExpiry)
    case Expire => s.(armed := false, fired := true)
    case ReceiveExpiry => s.(fired := false, watcher := GotFire)
    case Signal => s.(watcher := Selecting, settled := true)
    case Wake => s.(settled := false, loop := Woken)
    case BeginRefresh => s.(loop := Refreshing, owed := false)
    case EndRefresh => s.(loop := Working)
    case StartWork => s.(loop := Working)
    case EndWork => s.(loop := Waiting)
    case Cancel => s.(cancelled := true)
    case StopProducer => s.(producer := Closed)
    case StopWatcher => s.(watcher := Stopped)
    case StopLoop => s.(loop := Ended)
  }

  predicate Possible(s: State, run: seq<Action>)
    decreases |run|
  {
    run == [] || (Enabled(s, run[0]) && Possible(Next(s, run[0]), run[1..]))
  }

  function After(s: State, run: seq<Action>): State
    requires Possible(s, run)
    decreases |run|
  {
    if run == [] then s else After(Next(s, run[0]), run[1..])
  }

  /// No wake-up is lost.

  /** Somewhere between the stream and the refresh a wake-up is on its way. */
  predicate OnItsWay(s: State) {
    || s.producer.Holding? || s.ch || s.watcher.GotEvent? || s.armed || s.fired
    || s.watcher.GotFire? || s.settled || s.loop.Woken?
  }

  /** The watcher leaves a channel only when it is closed and empty. */
  predicate Orderly(s: State) {
    && (s.watcher.Sleeping? && !s.cancelled ==> s.producer.Closed? && !s.ch)
    && (s.watcher.Stopped? ==> s.cancelled)
    && (s.loop.Ended? ==> s.cancelled)
  }

  predicate Inv(s: State) {
    Orderly(s) && (s.owed && !s.cancelled ==> OnItsWay(s))
  }

  lemma OrderlyKept(s: State, a: Action)
    requires Orderly(s) && Enabled(s, a)
    ensures Orderly(Next(s, a))
  {}

  lemma InvKept(s: State, a: Action)
    requires Inv(s) && Enabled(s, a)
    ensures Inv(Next(s, a))
  {
    OrderlyKept(s, a);
  }

  /**
   * In every reachable interleaving, until the agent is stopped: an event accepted since the last
   * refresh began is still on its way, although both channels drop and streams end.
   */
  lemma {:induction false} NeverLost(s: State, run: seq<Action>)
    requires Inv(s) && Possible(s, run)
    ensures Inv(After(s, run))
    decreases |run|
  {
    if run != [] {
      InvKept(s, run[0]);
      NeverLost(Next(s, run[0]), run[1..]);
    }
  }

  /** The promise about the program's own variables, when no party is between two steps. */
  lemma WakeUpPending(run: seq<Action>)
    requires Possible(INITIAL, run)
    ensures var s := After(INITIAL, run);
            s.owed && !s.cancelled && s.producer != Holding && s.watcher != GotEvent && s.watcher != GotFire
            && s.loop != Woken
            ==> s.ch || s.armed || s.fired || s.settled
  {
    NeverLost(INITIAL, run);
  }

  /// A wake-up on its way arrives.

  /** A step of the agent's own parties; events, stream ends, new work and the stop are not theirs. */
  predicate Own(a: Action) {
    !(a.AcceptEvent? || a.EndStream? || a.StartWork? || a.Cancel?)
  }

  function Weight(b: bool, w: nat): nat {
    if b then w else 0
  }

  /** What is left to do before the parties come to rest. */
  function Backlog(s: State): nat {
    Weight(s.producer.Holding?, 100) + Weight(s.ch, 90) + Weight(s.watcher.GotEvent?, 80) + Weight(s.armed, 70)
    + Weight(s.fired, 60) + Weight(s.watcher.GotFire?, 50) + Weight(s.settled, 40) + Weight(s.loop.Woken?, 30)
    + Weight(s.loop.Refreshing?, 20) + Weight(s.loop.Working?, 10) + Weight(s.loop.Waiting?, 5)
    + Weight(s.producer.Closed?, 4) + Weight(s.watcher.Selecting?, 3) + Weight(s.watcher.Sleeping?, 2)
  }

  /** The steps of the watcher on what it receives. */
  predicate OfWatcher(a: Action) {
    a.ReceiveEvent? || a.ResetTimer? || a.Expire? || a.ReceiveExpiry? || a.Signal?
  }

  lemma WatcherFalls(s: State, a: Action)
    requires Enabled(s, a) && OfWatcher(a)
    ensures Backlog(Next(s, a)) < Backlog(s)
  {}

  lemma LoopFalls(s: State, a: Action)
    requires Enabled(s, a) && (a.EndWork? || a.StopLoop?)
    ensures Backlog(Next(s, a)) < Backlog(s)
  {}

  lemma WakeFalls(s: State)
    requires Enabled(s, Wake)
    ensures Backlog(Next(s, Wake)) < Backlog(s)
  {}

  lemma RefreshFalls(s: State, a: Action)
    requires Enabled(s, a) && (a.BeginRefresh? || a.EndRefresh?)
    ensures Backlog(Next(s, a)) < Backlog(s)
  {}

  lemma StreamFalls(s: State, a: Action)
    requires Orderly(s) && Enabled(s, a)
    requires a.OfferEvent? || a.ReceiveClosed? || a.Reconnect? || a.StopProducer? || a.StopWatcher?
    ensures Backlog(Next(s, a)) < Backlog(s)
  {}

  lemma BacklogFalls(s: State, a: Action)
    requires Orderly(s) && Enabled(s, a) && Own(a)
    ensures Backlog(Next(s, a)) < Backlog(s)
  {
    match a {
      case ReceiveEvent | ResetTimer(_) | Expire | ReceiveExpiry | Signal => WatcherFalls(s, a);
      case Wake => WakeFalls(s);
      case BeginRefresh | EndRefresh => RefreshFalls(s, a);
      case EndWork | StopLoop => LoopFalls(s, a);
      case _ => StreamFalls(s, a);
    }
  }

  /** While a wake-up is on its way somebody can take a step. */
  lemma NeverStuck(s: State) returns (a: Action)
    requires Inv(s) && s.owed && !s.cancelled
    ensures Own(a) && Enabled(s, a)
  {
    if s.producer.Holding? {
      a := OfferEvent;
    } else if s.watcher.GotEvent? {
      a := ResetTimer(true);
    } else if s.watcher.GotFire? {
      a := Signal;
    } else if s.watcher.Sleeping? {
      a := Reconnect;
    } else if s.ch {
      a := ReceiveEvent;
    } else if s.armed {
      a := Expire;
    } else if s.fired {
      a := ReceiveExpiry;
    } else if s.loop.Woken? {
      a := BeginRefresh;
    } else if s.loop.Refreshing? {
      a := EndRefresh;
    } else if s.loop.Working? {
      a := EndWork;
    } else {
      a := Wake;
    }
  }

  predicate AllOwn(run: seq<Action>) {
    forall k :: 0 <= k < |run| ==> Own(run[k])
  }

  lemma {:induction false} QuietRunsEnd(s: State, run: seq<Action>)
    requires Inv(s) && Possible(s, run) && AllOwn(run)
    ensures |run| + Backlog(After(s, run)) <= Backlog(s)
    decreases |run|
  {
    if run != [] {
      assert Own(run[0]);
      BacklogFalls(s, run[0]);
      InvKept(s, run[0]);
      assert forall k :: 0 <= k < |run| - 1 ==> run[1..][k] == run[k + 1];
      QuietRunsEnd(Next(s, run[0]), run[1..]);
    }
  }

  lemma {:induction false} QuietKeepsRunning(s: State, run: seq<Action>)
    requires Possible(s, run) && AllOwn(run)
    ensures After(s, run).cancelled == s.cancelled
    decreases |run|
  {
    if run != [] {
      assert Own(run[0]);
      assert forall k :: 0 <= k < |run| - 1 ==> run[1..][k] == run[k + 1];
      QuietKeepsRunning(Next(s, run[0]), run[1..]);
    }
  }

  /** No party can take a step of its own. */
  ghost predicate AtRest(s: State) {
    forall a :: Own(a) ==> !Enabled(s, a)
  }

  /**
   * Once the stream is quiet, whatever the parties do, they come to rest after a bounded number of
   * steps, and then the refresh that the last event called for has begun.
   */
  lemma QuietRunsDeliver(s: State, run: seq<Action>)
    requires Inv(s) && !s.cancelled && Possible(s, run) && AllOwn(run)
    ensures |run| <= Backlog(s)
    ensures AtRest(After(s, run)) ==> !After(s, run).owed
  {
    QuietRunsEnd(s, run);
    NeverLost(s, run);
    QuietKeepsRunning(s, run);
    if After(s, run).owed {
      var a := NeverStuck(After(s, run));
    }
  }

  /** At rest an ended stream has been opened again and nothing is on its way. */
  lemma RestIsIdle(s: State)
    requires Orderly(s) && AtRest(s) && !s.cancelled
    ensures s.producer.Decoding? && s.watcher.Selecting? && s.loop.Waiting? && !OnItsWay(s)
  {
    assert !Enabled(s, OfferEvent) && !Enabled(s, ReceiveEvent) && !Enabled(s, ReceiveClosed) && !Enabled(s, Reconnect);
    assert !Enabled(s, ResetTimer(true)) && !Enabled(s, Expire) && !Enabled(s, ReceiveExpiry) && !Enabled(s, Signal);
    assert !Enabled(s, Wake) && !Enabled(s, BeginRefresh) && !Enabled(s, EndRefresh) && !Enabled(s, EndWork);
  }

  /** A stopped agent comes to rest when watcher and loop have ended. */
  lemma StopEndsAll(s: State)
    requires Orderly(s) && AtRest(s) && s.cancelled
    ensures s.watcher.Stopped? && s.loop.Ended?
  {
    assert !Enabled(s, ResetTimer(true)) && !Enabled(s, Signal) && !Enabled(s, StopWatcher);
    assert !Enabled(s, BeginRefresh) && !Enabled(s, EndRefresh) && !Enabled(s, EndWork) && !Enabled(s, StopLoop);
  }

  lemma {:induction false} ClosedStaysSilent(s: State, run: seq<Action>)
    requires s.producer.Closed? && Possible(s, run) && Reconnect !in run
    ensures AcceptEvent !in run
    decreases |run|
  {
    if run != [] {
      assert run == [run[0]] + run[1..];
      ClosedStaysSilent(Next(s, run[0]), run[1..]);
    }
  }

  /** An ended stream brings no event until it has been opened again. */
  lemma {:induction false} EndedStreamSilent(s: State, run: seq<Action>)
    requires Enabled(s, EndStream) && Possible(Next(s, EndStream), run) && Reconnect !in run
    ensures AcceptEvent !in run
  {
    ClosedStaysSilent(Next(s, EndStream), run);
  }

  /// The same without the bookkeeping.

  lemma {:induction false} AfterConcat(s: State, a: seq<Action>, b: seq<Action>)
    ensures Possible(s, a + b) <==> Possible(s, a) && Possible(After(s, a), b)
    ensures Possible(s, a + b) ==> After(s, a + b) == After(After(s, a), b)
    decreases |a|
  {
    if a == [] {
      assert a + b == b;
    } else {
      assert (a + b)[1..] == a[1..] + b;
      if Enabled(s, a[0]) {
        AfterConcat(Next(s, a[0]), a[1..], b);
      }
    }
  }

  lemma {:induction false} OwedStays(s: State, run: seq<Action>)
    requires Possible(s, run) && s.owed && BeginRefresh !in run
    ensures After(s, run).owed
    decreases |run|
  {
    if run != [] {
      assert run == [run[0]] + run[1..];
      OwedStays(Next(s, run[0]), run[1..]);
    }
  }

  /** An event accepted at step `k` is owed a refresh until one begins. */
  lemma {:induction false} AcceptedIsOwed(run: seq<Action>, k: nat)
    requires Possible(INITIAL, run) && k < |run| && run[k] == AcceptEvent && BeginRefresh !in run[k + 1..]
    ensures After(INITIAL, run).owed
  {
    assert run == run[..k] + ([AcceptEvent] + run[k + 1..]);
    AfterConcat(INITIAL, run[..k], [AcceptEvent] + run[k + 1..]);
    assert ([AcceptEvent] + run[k + 1..])[1..] == run[k + 1..];
    OwedStays(Next(After(INITIAL, run[..k]), AcceptEvent), run[k + 1..]);
  }

  /** Whatever happens: after an event without a refresh since, something is on its way, or the agent is stopped. */
  lemma {:induction false} EventNotLost(run: seq<Action>, k: nat)
    requires Possible(INITIAL, run) && k < |run| && run[k] == AcceptEvent && BeginRefresh !in run[k + 1..]
    ensures After(INITIAL, run).cancelled || OnItsWay(After(INITIAL, run))
  {
    AcceptedIsOwed(run, k);
    NeverLost(INITIAL, run);
  }

  /** Once the parties have come to rest, a refresh has begun after every event. */
  lemma {:induction false} EventIsRefreshed(run: seq<Action>, k: nat)
    requires Possible(INITIAL, run) && k < |run| && run[k] == AcceptEvent
    requires AtRest(After(INITIAL, run)) && !After(INITIAL, run).cancelled
    ensures BeginRefresh in run[k + 1..]
  {
    if BeginRefresh !in run[k + 1..] {
      EventNotLost(run, k);
      NeverLost(INITIAL, run);
      RestIsIdle(After(INITIAL, run));
      assert false;
    }
  }
}
