/// Runs: any sequence of withdraw commands, retries, failures and credits.

module WithdrawRuns {
  import opened GoInts
  import opened GoStrings
  import opened IdempotencyLog
  import opened TomlLines
  import opened Withdraw
  import opened Wrappers

  datatype Event =
    | Command(id: string, requested: uint64, all: bool, env: Env)
    | Credit(amount: nat)

  function Step(cfg: Config, w: World, e: Event): World {
    match e
    case Command(id, requested, all, env) => Call(cfg, w, id, requested, all, env).0
    case Credit(amount) => w.(balance := w.balance + amount)
  }

  function Run(cfg: Config, w: World, events: seq<Event>): World
    decreases |events|
  {
    if events == [] then w else Run(cfg, Step(cfg, w, events[0]), events[1..])
  }

  /// The reserve.

  /** A transfer was made by this call. */
  predicate Paid(cfg: Config, w: World, id: string, requested: uint64, all: bool, env: Env) {
    Call(cfg, w, id, requested, all, env).0.ledger != w.ledger
  }

  /** The key, the chain's answers, the guards and the account let a transfer through. */
  predicate Payable(cfg: Config, w: World, requested: uint64, all: bool, env: Env) {
    && env.keyOpens && env.answer.Some? && env.accountAnswers
    && Verdict(cfg, requested, all, env).Send?
    && Takes(w, Verdict(cfg, requested, all, env).amount, env)
  }

  function Verdict(cfg: Config, requested: uint64, all: bool, env: Env): Withdraw.Verdict
    requires env.answer.Some?
  {
    Guards(all, requested, Queried(env.answer.value), env.fee, cfg.min, cfg.reserve)
  }

  lemma {:induction false} PaidIff(cfg: Config, w: World, id: string, requested: uint64, all: bool, env: Env)
    ensures Paid(cfg, w, id, requested, all, env) <==>
            cfg.addr != "" && Lookup(Contents(w.file), id) == "" && Payable(cfg, w, requested, all, env)
    ensures Paid(cfg, w, id, requested, all, env) ==>
              Call(cfg, w, id, requested, all, env).0.ledger ==
              w.ledger + [Transfer(cfg, w, id, Verdict(cfg, requested, all, env).amount, env)]
  {}

  function Transfer(cfg: Config, w: World, id: string, amount: uint64, env: Env): Payment
    requires Takes(w, amount, env)
  {
    Payment(id, cfg.addr, amount, env.fee, w.balance + env.credit - amount - env.fee)
  }

  /** The balance query answers no more than there is when the transfer reaches the chain. */
  predicate Fresh(w: World, env: Env) {
    env.answer.Some? ==> Queried(env.answer.value) <= w.balance + env.credit
  }

  /**
   * What a transfer leaves behind. With a fresh answer it is the reserve at least; a withdrawal of
   * everything leaves the reserve exactly if the answer was fresh.
   */
  lemma {:induction false} TransferLeaves(cfg: Config, w: World, id: string, requested: uint64, all: bool, env: Env)
    requires Payable(cfg, w, requested, all, env)
    ensures var p := Transfer(cfg, w, id, Verdict(cfg, requested, all, env).amount, env);
            && p.amount >= cfg.min
            && (Fresh(w, env) ==> p.left >= cfg.reserve)
            && (all ==> (p.left >= cfg.reserve <==> Fresh(w, env)))
  {
    var amount := Verdict(cfg, requested, all, env).amount;
    GuardsExact(all, requested, Queried(env.answer.value), env.fee, cfg.min, cfg.reserve, amount);
  }

  /** No request of this moment, of everything or of any amount, is paid out of the reserve. */
  ghost predicate SafeForAll(cfg: Config, w: World, env: Env) {
    forall requested, all :: Payable(cfg, w, requested, all, env) ==>
      w.balance + env.credit >= Verdict(cfg, requested, all, env).amount + env.fee + cfg.reserve
  }

  /**
   * For every 64-bit state: the reserve is safe from all requests exactly if the answer is fresh, or
   * nothing can be paid at all, or there is no reserve to keep.
   */
  lemma {:induction false} SafeIffFresh(cfg: Config, w: World, env: Env)
    ensures SafeForAll(cfg, w, env) <==>
            Fresh(w, env) || cfg.reserve == 0 || forall requested, all :: !Payable(cfg, w, requested, all, env)
  {
    if Fresh(w, env) || cfg.reserve == 0 {
      forall requested, all | Payable(cfg, w, requested, all, env)
        ensures w.balance + env.credit >= Verdict(cfg, requested, all, env).amount + env.fee + cfg.reserve
      {
        TransferLeaves(cfg, w, "", requested, all, env);
      }
    } else if r, all :| Payable(cfg, w, r, all, env) {
      var breaking := Breaking(cfg, w, r, all, env);
    }
  }

  /** After a stale answer the largest request that passes and can be paid breaks into the reserve. */
  lemma {:induction false} Breaking(cfg: Config, w: World, r: uint64, all: bool, env: Env) returns (requested: uint64)
    requires !Fresh(w, env) && cfg.reserve > 0 && Payable(cfg, w, r, all, env)
    ensures Payable(cfg, w, requested, false, env)
    ensures w.balance + env.credit < Verdict(cfg, requested, false, env).amount + env.fee + cfg.reserve
  {
    var a, settled := Queried(env.answer.value), w.balance + env.credit;
    var x := Verdict(cfg, r, all, env).amount;
    GuardsExact(all, r, a, env.fee, cfg.min, cfg.reserve, x);
    requested := if a - cfg.reserve < settled then a - env.fee - cfg.reserve else settled - env.fee;
    GuardsExact(false, requested, a, env.fee, cfg.min, cfg.reserve, requested);
  }

  predicate FreshEvent(cfg: Config, w: World, e: Event) {
    e.Command? && Paid(cfg, w, e.id, e.requested, e.all, e.env) ==> Fresh(w, e.env)
  }

  /** Every transfer of the run was made on a fresh answer. */
  predicate FreshRun(cfg: Config, w: World, events: seq<Event>)
    decreases |events|
  {
    events == [] || (FreshEvent(cfg, w, events[0]) && FreshRun(cfg, Step(cfg, w, events[0]), events[1..]))
  }

  /** Every transfer the chain took left at least the reserve. */
  predicate Kept(cfg: Config, ledger: seq<Payment>) {
    forall k :: 0 <= k < |ledger| ==> ledger[k].left >= cfg.reserve
  }

  predicate NoneBelow(cfg: Config, ledger: seq<Payment>) {
    forall k :: 0 <= k < |ledger| ==> ledger[k].amount >= cfg.min
  }

  /** What one event does to the ledger: nothing, or one transfer that a fresh answer makes safe. */
  lemma {:induction false} StepPays(cfg: Config, w: World, e: Event)
    ensures var after := Step(cfg, w, e).ledger;
            || after == w.ledger
            || (&& e.Command? && |after| == |w.ledger| + 1 && after[..|w.ledger|] == w.ledger
                && Paid(cfg, w, e.id, e.requested, e.all, e.env)
                && after[|w.ledger|].amount >= cfg.min
                && (Fresh(w, e.env) ==> after[|w.ledger|].left >= cfg.reserve)
                && (e.all ==> (after[|w.ledger|].left >= cfg.reserve <==> Fresh(w, e.env))))
  {
    if e.Command? && Paid(cfg, w, e.id, e.requested, e.all, e.env) {
      PaidIff(cfg, w, e.id, e.requested, e.all, e.env);
      TransferLeaves(cfg, w, e.id, e.requested, e.all, e.env);
    }
  }

  /** In every run every transfer is at least the minimum. */
  lemma {:induction false} RunKeepsMinimum(cfg: Config, w: World, events: seq<Event>)
    requires NoneBelow(cfg, w.ledger)
    ensures NoneBelow(cfg, Run(cfg, w, events).ledger)
    decreases |events|
  {
    if events != [] {
      StepPays(cfg, w, events[0]);
      RunKeepsMinimum(cfg, Step(cfg, w, events[0]), events[1..]);
    }
  }

  /** In every run on fresh answers no transfer takes the account below its reserve. */
  lemma {:induction false} RunKeepsReserve(cfg: Config, w: World, events: seq<Event>)
    requires Kept(cfg, w.ledger) && FreshRun(cfg, w, events)
    ensures Kept(cfg, Run(cfg, w, events).ledger)
    decreases |events|
  {
    if events != [] {
      StepPays(cfg, w, events[0]);
      RunKeepsReserve(cfg, Step(cfg, w, events[0]), events[1..]);
    }
  }

  lemma {:induction false} RunGrows(cfg: Config, w: World, events: seq<Event>)
    ensures w.ledger <= Run(cfg, w, events).ledger
    decreases |events|
  {
    if events != [] {
      StepPays(cfg, w, events[0]);
      RunGrows(cfg, Step(cfg, w, events[0]), events[1..]);
    }
  }

  /** A run that withdraws everything each time keeps the reserve exactly if its answers are fresh. */
  lemma {:induction false} FullWithdrawalsExact(cfg: Config, w: World, events: seq<Event>)
    requires Kept(cfg, w.ledger) && forall k :: 0 <= k < |events| ==> (events[k].Command? ==> events[k].all)
    ensures Kept(cfg, Run(cfg, w, events).ledger) <==> FreshRun(cfg, w, events)
    decreases |events|
  {
    if events != [] {
      var w' := Step(cfg, w, events[0]);
      StepPays(cfg, w, events[0]);
      RunGrows(cfg, w', events[1..]);
      if FreshEvent(cfg, w, events[0]) {
        assert forall k :: 0 <= k < |events| - 1 ==> events[1..][k] == events[k + 1];
        FullWithdrawalsExact(cfg, w', events[1..]);
      } else {
        BrokenStays(cfg, w'.ledger, Run(cfg, w', events[1..]).ledger, |w.ledger|);
      }
    }
  }

  lemma {:induction false} BrokenStays(cfg: Config, ledger: seq<Payment>, later: seq<Payment>, k: nat)
    requires ledger <= later && k < |ledger| && ledger[k].left < cfg.reserve
    ensures !Kept(cfg, later)
  {
    assert later[k] == ledger[k];
  }

  /** What `Run` makes of the configured limits. */
  function Enforced(cfg: Config): Config {
    cfg.(min := Raised(cfg.min), reserve := Raised(cfg.reserve))
  }

  /** The limits in force are the larger of the configured one and 50 P2P. */
  lemma {:induction false} LimitsEnforced(cfg: Config)
    ensures Enforced(cfg).addr == cfg.addr
    ensures Enforced(cfg).min == if cfg.min >= 50_000_000 then cfg.min else 50_000_000
    ensures Enforced(cfg).reserve == if cfg.reserve >= 50_000_000 then cfg.reserve else 50_000_000
  {}

  /** Whatever limits are configured, no run on fresh answers sends less than the floor or leaves less. */
  lemma {:induction false} FloorKept(cfg: Config, w: World, events: seq<Event>)
    requires w.ledger == [] && FreshRun(Enforced(cfg), w, events)
    ensures var ledger := Run(Enforced(cfg), w, events).ledger;
            forall k :: 0 <= k < |ledger| ==>
              ledger[k].left >= 50_000_000 && ledger[k].left >= cfg.reserve
              && ledger[k].amount >= 50_000_000 && ledger[k].amount >= cfg.min
  {
    LimitsEnforced(cfg);
    RunKeepsReserve(Enforced(cfg), w, events);
    RunKeepsMinimum(Enforced(cfg), w, events);
  }

  /** One request for `a` under one id, with what the outside does about it. */
  function Asking(id: string, a: uint64, fee: uint64, answer: nat, reply: bool, record: Append, hash: string): Event {
    Command(id, a, false, Env(true, fee, Some(answer), 0, true, true, reply, hash, record))
  }

  lemma {:induction false} AskingPays(cfg: Config, w: World, id: string, a: uint64, fee: uint64, answer: uint64,
                                      reply: bool, record: Append, hash: string)
    requires cfg.addr != "" && Lookup(Contents(w.file), id) == ""
    requires 0 < a && cfg.min <= a && a + fee + cfg.reserve <= answer && a + fee <= w.balance
    ensures var w' := Step(cfg, w, Asking(id, a, fee, answer, reply, record, hash));
            && w'.balance == w.balance - a - fee
            && w'.ledger == w.ledger + [Payment(id, cfg.addr, a, fee, w.balance - a - fee)]
            && w'.file == if reply then Recorded(w.file, id, hash, record) else w.file
  {
    Decimal.ParseOfFormat(answer);
    GuardsExact(false, a, answer, fee, cfg.min, cfg.reserve, a);
  }

  /**
   * A stale answer is enough to break the reserve: two commands, each sent, reported and recorded,
   * that are both answered with the balance before either of them.
   */
  lemma {:induction false} StaleAnswerBreaksReserve(cfg: Config, w: World, id1: string, id2: string, a: uint64, fee: uint64,
                                                    hash: string)
    requires cfg.addr != "" && w.balance <= MAX_UINT64 && 0 < a && cfg.min <= a
    requires Closed(Contents(w.file)) && Word(id1) && Word(hash) && id1 != id2
    requires Lookup(Contents(w.file), id1) == "" && Lookup(Contents(w.file), id2) == ""
    requires 2 * (a + fee) <= w.balance < 2 * (a + fee) + cfg.reserve && a + fee + cfg.reserve <= w.balance
    ensures var c1 := Asking(id1, a, fee, w.balance, true, Whole, hash);
            var c2 := Asking(id2, a, fee, w.balance, true, Whole, hash);
            var ledger := Run(cfg, w, [c1, c2]).ledger;
            ledger != [] && ledger[|ledger| - 1].left < cfg.reserve
  {
    var c1 := Asking(id1, a, fee, w.balance, true, Whole, hash);
    var c2 := Asking(id2, a, fee, w.balance, true, Whole, hash);
    AskingPays(cfg, w, id1, a, fee, w.balance, true, Whole, hash);
    OthersKept(Contents(w.file), id1, hash, id2);
    AskingPays(cfg, Step(cfg, w, c1), id2, a, fee, w.balance, true, Whole, hash);
    RunOfTwo(cfg, w, c1, c2);
  }

  lemma {:induction false} RunOfTwo(cfg: Config, w: World, a: Event, b: Event)
    ensures Run(cfg, w, [a, b]) == Step(cfg, Step(cfg, w, a), b)
  {
    assert [a, b][1..] == [b] && [b][1..] == [];
    assert Run(cfg, Step(cfg, w, a), [b]) == Run(cfg, Step(cfg, Step(cfg, w, a), b), []);
  }

  /// What a caller is told.

  /** The call gets as far as the broadcast. */
  predicate Broadcasts(cfg: Config, w: World, id: string, requested: uint64, all: bool, env: Env) {
    && cfg.addr != "" && Lookup(Contents(w.file), id) == "" && env.keyOpens && env.answer.Some?
    && Verdict(cfg, requested, all, env).Send? && env.accountAnswers
  }

  /**
   * With an address configured, a call reports success exactly if the id was found before, or a
   * transfer was made and the chain's reply arrived; the hash is the one found or the reply's. So a
   * failure with an arrived reply means that nothing was paid.
   */
  lemma {:induction false} OutcomeExact(cfg: Config, w: World, id: string, requested: uint64, all: bool, env: Env)
    requires cfg.addr != ""
    ensures var (w', outcome) := Call(cfg, w, id, requested, all, env);
            var found := Lookup(Contents(w.file), id);
            && (outcome.Done? <==> found != "" || (w'.ledger != w.ledger && env.replyArrives))
            && (outcome.Done? ==> outcome.hash == if found != "" then found else env.hash)
            && (outcome.Failed? && env.replyArrives ==> w'.ledger == w.ledger && w'.file == w.file)
  {
    PaidIff(cfg, w, id, requested, all, env);
  }

  /** Without an address nothing happens but the refusal. */
  lemma {:induction false} DisabledRefuses(cfg: Config, w: World, id: string, requested: uint64, all: bool, env: Env)
    requires cfg.addr == ""
    ensures Call(cfg, w, id, requested, all, env) == (w, Failed(Disabled))
  {}

  /** The reason of a failure is the first thing that went wrong. */
  lemma {:induction false} FailureReasons(cfg: Config, w: World, id: string, requested: uint64, all: bool, env: Env)
    requires cfg.addr != "" && Call(cfg, w, id, requested, all, env).1.Failed?
    ensures Lookup(Contents(w.file), id) == ""
    ensures match Call(cfg, w, id, requested, all, env).1.reason
            case Disabled => false
            case KeyUnavailable => !env.keyOpens
            case BalanceUnavailable => env.keyOpens && env.answer.None?
            case AccountUnavailable => env.keyOpens && env.answer.Some? && !env.accountAnswers
            case NoReply => Broadcasts(cfg, w, id, requested, all, env) && !env.replyArrives
            case Rejected => Broadcasts(cfg, w, id, requested, all, env) && env.replyArrives
                             && !Payable(cfg, w, requested, all, env)
            case reason => env.keyOpens && env.answer.Some? && Verdict(cfg, requested, all, env) == Refuse(reason)
  {}

  /** Why the guards refuse an amount asked for, over the integers. */
  lemma {:induction false} RefusalOfAmount(a: uint64, bal: uint64, fee: uint64, min: uint64, reserve: uint64)
    ensures var v := Guards(false, a, bal, fee, min, reserve);
            && (v == Refuse(NotPositive) <==> a == 0)
            && (v == Refuse(BelowMinimum) <==> 0 < a < min)
            && (v == Refuse(WouldBreakReserve) <==> 0 < a && min <= a && a + fee + reserve > bal)
            && v != Refuse(NothingAboveReserve)
  {}

  /** Why they refuse to withdraw everything; the sum of fee and reserve is what a 64-bit word keeps of it. */
  lemma {:induction false} RefusalOfAll(requested: uint64, bal: uint64, fee: uint64, min: uint64, reserve: uint64)
    ensures var v, sum := Guards(true, requested, bal, fee, min, reserve), (fee + reserve) % 0x1_0000_0000_0000_0000;
            && (v == Refuse(NothingAboveReserve) <==> bal <= sum)
            && (v == Refuse(BelowMinimum) <==> 0 < bal - sum < min)
            && (v == Refuse(WouldBreakReserve) <==> 0 < bal - sum && min <= bal - sum && fee + reserve > MAX_UINT64)
            && v != Refuse(NotPositive)
  {
    var sum := (fee + reserve) % 0x1_0000_0000_0000_0000;
    SumKept(fee, reserve);
    if bal > sum {
      EverythingElse(bal, fee, reserve, sum);
    }
  }

  lemma SumKept(fee: uint64, reserve: uint64)
    ensures var sum := (fee + reserve) % 0x1_0000_0000_0000_0000;
            && WrapU64(reserve + fee) == sum
            && sum == if fee + reserve > MAX_UINT64 then fee + reserve - 0x1_0000_0000_0000_0000 else fee + reserve
  {}

  lemma EverythingElse(bal: uint64, fee: uint64, reserve: uint64, sum: uint64)
    requires bal > sum
    requires sum == if fee + reserve > MAX_UINT64 then fee + reserve - 0x1_0000_0000_0000_0000 else fee + reserve
    ensures WrapU64(WrapU64(bal - fee) - reserve) == bal - sum
  {}

  /// Idempotency.

  function PaidFor(ledger: seq<Payment>, id: string): seq<Payment>
    decreases |ledger|
  {
    if ledger == [] then []
    else PaidFor(ledger[..|ledger| - 1], id) + if ledger[|ledger| - 1].id == id then [ledger[|ledger| - 1]] else []
  }

  lemma {:induction false} RecordedText(file: Option<string>, id: string, hash: string, record: Append)
    ensures Contents(Recorded(file, id, hash, record)) == Contents(file) + Written(id, hash, record)
  {
    if Written(id, hash, record) == "" {
      assert Contents(file) + "" == Contents(file);
    }
  }

  /** The log only grows. */
  lemma {:induction false} StepAppends(cfg: Config, w: World, e: Event) returns (more: string)
    ensures Contents(Step(cfg, w, e).file) == Contents(w.file) + more
  {
    more := "";
    assert Contents(w.file) + "" == Contents(w.file);
    if e.Command? && Paid(cfg, w, e.id, e.requested, e.all, e.env) && e.env.replyArrives {
      RecordedText(w.file, e.id, e.env.hash, e.env.record);
      more := Written(e.id, e.env.hash, e.env.record);
    }
  }

  lemma {:induction false} CallKeepsLedger(cfg: Config, w: World, id: string, requested: uint64, all: bool, env: Env)
    ensures var w' := Call(cfg, w, id, requested, all, env).0;
            w'.ledger == w.ledger
            || (Lookup(Contents(w.file), id) == "" && |w'.ledger| == |w.ledger| + 1
                && w'.ledger[..|w.ledger|] == w.ledger && w'.ledger[|w.ledger|].id == id)
  {}

  lemma {:induction false} LogRemembers(file: string, more: string, id: string)
    requires Lookup(file, id) != ""
    ensures Lookup(file + more, id) != "" && Lookup(file, id) <= Lookup(file + more, id)
    ensures Lookup(Complete(file), id) != "" ==>
              Lookup(file + more, id) == Lookup(file, id) && Lookup(Complete(file + more), id) == Lookup(Complete(file), id)
  {
    FoundStays(file, more, id);
    if Lookup(Complete(file), id) != "" {
      var next := CompleteGrows(file, more);
      TailParts(file);
      LookupKept(Complete(file), next, id);
    }
  }

  lemma {:induction false} StepKeepsLedger(cfg: Config, w: World, e: Event, id: string)
    requires Lookup(Contents(w.file), id) != ""
    ensures PaidFor(Step(cfg, w, e).ledger, id) == PaidFor(w.ledger, id)
  {
    if e.Command? {
      CallKeepsLedger(cfg, w, e.id, e.requested, e.all, e.env);
    }
  }

  lemma {:induction false} StepRemembers(cfg: Config, w: World, e: Event, id: string)
    requires Lookup(Contents(w.file), id) != ""
    ensures var file, after := Contents(w.file), Contents(Step(cfg, w, e).file);
            && Lookup(after, id) != "" && Lookup(file, id) <= Lookup(after, id)
            && (Lookup(Complete(file), id) != "" ==>
                  Lookup(after, id) == Lookup(file, id) && Lookup(Complete(after), id) == Lookup(Complete(file), id))
    ensures PaidFor(Step(cfg, w, e).ledger, id) == PaidFor(w.ledger, id)
  {
    var more := StepAppends(cfg, w, e);
    LogRemembers(Contents(w.file), more, id);
    StepKeepsLedger(cfg, w, e, id);
  }

  /**
   * Once a hash is found for an id, whatever happens to the log afterwards, every later call with that
   * id returns a hash and leaves everything as it is, and no later event makes another transfer for
   * it. It is the first hash if its line is complete, and begins with it otherwise.
   */
  lemma {:induction false} RecordedForever(cfg: Config, w: World, events: seq<Event>, id: string,
                                           requested: uint64, all: bool, env: Env)
    requires Lookup(Contents(w.file), id) != "" && cfg.addr != ""
    ensures var w' := Run(cfg, w, events);
            var hash := Lookup(Contents(w'.file), id);
            && Call(cfg, w', id, requested, all, env) == (w', Done(hash))
            && Lookup(Contents(w.file), id) <= hash
            && (Lookup(Complete(Contents(w.file)), id) != "" ==> hash == Lookup(Contents(w.file), id))
            && PaidFor(w'.ledger, id) == PaidFor(w.ledger, id)
    decreases |events|
  {
    if events != [] {
      StepRemembers(cfg, w, events[0], id);
      RecordedForever(cfg, Step(cfg, w, events[0]), events[1..], id, requested, all, env);
    }
  }

  lemma {:induction false} TextAfter(cfg: Config, w: World, id: string, requested: uint64, all: bool, env: Env)
    requires Paid(cfg, w, id, requested, all, env)
    ensures Contents(Call(cfg, w, id, requested, all, env).0.file) ==
            if env.replyArrives then Contents(w.file) + Written(id, env.hash, env.record) else Contents(w.file)
    ensures Lookup(Contents(w.file), id) == ""
  {
    PaidIff(cfg, w, id, requested, all, env);
    RecordedText(w.file, id, env.hash, env.record);
  }

  /**
   * After a transfer the id is remembered exactly if the reply arrived and the record can be found
   * behind what the log ends with.
   */
  lemma {:induction false} WhenRemembered(cfg: Config, w: World, id: string, requested: uint64, all: bool, env: Env)
    requires Paid(cfg, w, id, requested, all, env)
    ensures Lookup(Contents(Call(cfg, w, id, requested, all, env).0.file), id) != "" <==>
            env.replyArrives && Recalls(Tail(Contents(w.file)), id, env.hash, env.record)
  {
    TextAfter(cfg, w, id, requested, all, env);
    FoundAfter(Contents(w.file), id, env.hash, env.record);
  }

  lemma {:induction false} PaysUnless(cfg: Config, w: World, id: string, requested: uint64, all: bool, env: Env, remembered: bool)
    requires cfg.addr != "" && (Lookup(Contents(w.file), id) != "" <==> remembered)
    ensures Paid(cfg, w, id, requested, all, env) <==> !remembered && Payable(cfg, w, requested, all, env)
  {
    PaidIff(cfg, w, id, requested, all, env);
  }

  /**
   * After a transfer, a second call with the id makes another one exactly if the first was not
   * remembered and nothing but the log could stop it: no sequence number takes part. For every log.
   */
  lemma {:induction false} RetryPaysAnyLog(cfg: Config, w: World, id: string, r1: uint64, all1: bool, e1: Env,
                                           r2: uint64, all2: bool, e2: Env)
    requires Paid(cfg, w, id, r1, all1, e1)
    ensures var w1 := Call(cfg, w, id, r1, all1, e1).0;
            Paid(cfg, w1, id, r2, all2, e2) <==>
            !(e1.replyArrives && Recalls(Tail(Contents(w.file)), id, e1.hash, e1.record)) && Payable(cfg, w1, r2, all2, e2)
  {
    var remembered := e1.replyArrives && Recalls(Tail(Contents(w.file)), id, e1.hash, e1.record);
    WhenRemembered(cfg, w, id, r1, all1, e1);
    PaysUnless(cfg, Call(cfg, w, id, r1, all1, e1).0, id, r2, all2, e2, remembered);
  }

  /** The same for a log whose last line is complete. */
  lemma {:induction false} RetryPays(cfg: Config, w: World, id: string, r1: uint64, all1: bool, e1: Env,
                                     r2: uint64, all2: bool, e2: Env)
    requires Closed(Contents(w.file)) && Paid(cfg, w, id, r1, all1, e1)
    ensures var w1 := Call(cfg, w, id, r1, all1, e1).0;
            Paid(cfg, w1, id, r2, all2, e2) <==>
            !(e1.replyArrives && Findable(id, e1.hash, e1.record)) && Payable(cfg, w1, r2, all2, e2)
  {
    var remembered := e1.replyArrives && Findable(id, e1.hash, e1.record);
    RememberedClosed(cfg, w, id, r1, all1, e1, remembered);
    PaysUnless(cfg, Call(cfg, w, id, r1, all1, e1).0, id, r2, all2, e2, remembered);
  }

  lemma {:induction false} RememberedClosed(cfg: Config, w: World, id: string, requested: uint64, all: bool, env: Env,
                                            remembered: bool)
    requires Closed(Contents(w.file)) && Paid(cfg, w, id, requested, all, env)
    requires remembered <==> env.replyArrives && Findable(id, env.hash, env.record)
    ensures cfg.addr != "" && (Lookup(Contents(Call(cfg, w, id, requested, all, env).0.file), id) != "" <==> remembered)
  {
    TextAfter(cfg, w, id, requested, all, env);
    RecordedFound(Contents(w.file), id, env.hash, env.record);
  }

  /** The reply was lost, or what was recorded cannot be found again. */
  predicate Forgettable(id: string, reply: bool, record: Append, hash: string) {
    !reply || !Findable(id, hash, record)
  }

  /**
   * A retry that pays twice, for each of these causes, for every fee and for every amount the account
   * can bear twice, all answers being fresh.
   */
  lemma {:induction false} ForgottenPaysTwice(cfg: Config, w: World, id: string, a: uint64, fee: uint64,
                                              reply: bool, record: Append, hash: string)
    requires cfg.addr != "" && Closed(Contents(w.file)) && Lookup(Contents(w.file), id) == ""
    requires 0 < a && cfg.min <= a && 2 * (a + fee) + cfg.reserve <= w.balance <= MAX_UINT64
    requires Forgettable(id, reply, record, hash)
    ensures var c1 := Asking(id, a, fee, w.balance, reply, record, hash);
            var c2 := Asking(id, a, fee, w.balance - a - fee, reply, record, hash);
            Run(cfg, w, [c1, c2]).ledger ==
            w.ledger + [Payment(id, cfg.addr, a, fee, w.balance - a - fee)] + [Payment(id, cfg.addr, a, fee, w.balance - 2 * (a + fee))]
  {
    var c1 := Asking(id, a, fee, w.balance, reply, record, hash);
    var c2 := Asking(id, a, fee, w.balance - a - fee, reply, record, hash);
    var w1 := ForgottenOnce(cfg, w, id, a, fee, reply, record, hash);
    AskingPays(cfg, w1, id, a, fee, w1.balance, reply, record, hash);
    RunOfTwo(cfg, w, c1, c2);
  }

  lemma {:induction false} ForgottenOnce(cfg: Config, w: World, id: string, a: uint64, fee: uint64,
                                         reply: bool, record: Append, hash: string) returns (w1: World)
    requires cfg.addr != "" && Closed(Contents(w.file)) && Lookup(Contents(w.file), id) == ""
    requires 0 < a && cfg.min <= a && a + fee + cfg.reserve <= w.balance <= MAX_UINT64
    requires Forgettable(id, reply, record, hash)
    ensures w1 == Step(cfg, w, Asking(id, a, fee, w.balance, reply, record, hash))
    ensures Lookup(Contents(w1.file), id) == "" && w1.balance == w.balance - a - fee
    ensures w1.ledger == w.ledger + [Payment(id, cfg.addr, a, fee, w.balance - a - fee)]
  {
    AskingPays(cfg, w, id, a, fee, w.balance, reply, record, hash);
    w1 := Step(cfg, w, Asking(id, a, fee, w.balance, reply, record, hash));
    ForgottenFile(w.file, w1.file, id, reply, record, hash);
  }

  lemma {:induction false} ForgottenFile(file: Option<string>, after: Option<string>, id: string,
                                         reply: bool, record: Append, hash: string)
    requires Closed(Contents(file)) && Lookup(Contents(file), id) == "" && Forgettable(id, reply, record, hash)
    requires after == if reply then Recorded(file, id, hash, record) else file
    ensures Lookup(Contents(after), id) == ""
  {
    if reply {
      RecordedText(file, id, hash, record);
      RecordedFound(Contents(file), id, hash, record);
    }
  }

  /**
   * The causes one by one, with the code's own limits and default fee: 1000 P2P on the account, 100
   * P2P asked for under one id, and 800 P2P left.
   */
  lemma {:induction false} WaysToPayTwice(addr: string, hash: string)
    requires addr != "" && Word(hash)
    ensures PaysTwice(addr, "w1", false, Whole, hash)
    ensures PaysTwice(addr, "w1", true, Torn(0), hash)
    ensures PaysTwice(addr, "w1", true, Torn(2), hash)
    ensures PaysTwice(addr, "w 1", true, Whole, hash)
    ensures PaysTwice(addr, "w1", true, Whole, "")
  {
    NothingOfHash("w1");
    assert IsSpace("w 1"[1]);
    PaysTwiceIf(addr, "w1", false, Whole, hash);
    PaysTwiceIf(addr, "w1", true, Torn(0), hash);
    PaysTwiceIf(addr, "w1", true, Torn(2), hash);
    PaysTwiceIf(addr, "w 1", true, Whole, hash);
    PaysTwiceIf(addr, "w1", true, Whole, "");
  }

  predicate PaysTwice(addr: string, id: string, reply: bool, record: Append, hash: string) {
    var c1 := Asking(id, 100_000_000, 20_000, 1_000_000_000, reply, record, hash);
    var c2 := Asking(id, 100_000_000, 20_000, 899_980_000, reply, record, hash);
    Run(Config(addr, FLOOR, FLOOR), World(None, 1_000_000_000, []), [c1, c2]).ledger ==
    [Payment(id, addr, 100_000_000, 20_000, 899_980_000), Payment(id, addr, 100_000_000, 20_000, 799_960_000)]
  }

  lemma {:induction false} NewLog(file: Option<string>, id: string)
    requires file == None
    ensures Closed(Contents(file)) && Lookup(Contents(file), id) == ""
  {
    LookupEmpty(id);
    assert Split("") == [""];
  }

  lemma {:induction false} NewHostPaysTwice(cfg: Config, w: World, id: string, a: uint64, fee: uint64,
                                            reply: bool, record: Append, hash: string)
    requires cfg.addr != "" && w.file == None && w.ledger == []
    requires 0 < a && cfg.min <= a && 2 * (a + fee) + cfg.reserve <= w.balance <= MAX_UINT64
    requires Forgettable(id, reply, record, hash)
    ensures var c1 := Asking(id, a, fee, w.balance, reply, record, hash);
            var c2 := Asking(id, a, fee, w.balance - a - fee, reply, record, hash);
            Run(cfg, w, [c1, c2]).ledger ==
            [Payment(id, cfg.addr, a, fee, w.balance - a - fee), Payment(id, cfg.addr, a, fee, w.balance - 2 * (a + fee))]
  {
    NewLog(w.file, id);
    ForgottenPaysTwice(cfg, w, id, a, fee, reply, record, hash);
  }

  lemma {:induction false} PaysTwiceIf(addr: string, id: string, reply: bool, record: Append, hash: string)
    requires addr != "" && Forgettable(id, reply, record, hash)
    ensures PaysTwice(addr, id, reply, record, hash)
  {
    NewHostPaysTwice(Config(addr, FLOOR, FLOOR), World(None, 1_000_000_000, []), id, 100_000_000, 20_000, reply, record, hash);
  }

  /// Conservation.

  function Debits(ledger: seq<Payment>): nat
    decreases |ledger|
  {
    if ledger == [] then 0
    else Debits(ledger[..|ledger| - 1]) + ledger[|ledger| - 1].amount + ledger[|ledger| - 1].fee
  }

  function CreditOf(cfg: Config, w: World, e: Event): nat {
    match e
    case Credit(amount) => amount
    case Command(id, requested, all, env) => if Broadcasts(cfg, w, id, requested, all, env) then env.credit else 0
  }

  function Credits(cfg: Config, w: World, events: seq<Event>): nat
    decreases |events|
  {
    if events == [] then 0 else CreditOf(cfg, w, events[0]) + Credits(cfg, Step(cfg, w, events[0]), events[1..])
  }

  lemma {:induction false} DebitsAppend(ledger: seq<Payment>, p: Payment)
    ensures Debits(ledger + [p]) == Debits(ledger) + p.amount + p.fee
  {
    assert (ledger + [p])[..|ledger|] == ledger;
  }

  lemma {:induction false} StepBalances(cfg: Config, w: World, e: Event)
    ensures var w' := Step(cfg, w, e);
            w'.balance + Debits(w'.ledger) == w.balance + Debits(w.ledger) + CreditOf(cfg, w, e)
  {
    if e.Command? && Broadcasts(cfg, w, e.id, e.requested, e.all, e.env) {
      var amount := Verdict(cfg, e.requested, e.all, e.env).amount;
      if Takes(w, amount, e.env) {
        DebitsAppend(w.ledger, Payment(e.id, cfg.addr, amount, e.env.fee, w.balance + e.env.credit - amount - e.env.fee));
      }
    }
  }

  /** Nothing leaves the account but the transfers in the ledger and their fees. */
  lemma {:induction false} RunBalances(cfg: Config, w: World, events: seq<Event>)
    ensures var w' := Run(cfg, w, events);
            w'.balance + Debits(w'.ledger) == w.balance + Debits(w.ledger) + Credits(cfg, w, events)
    decreases |events|
  {
    if events != [] {
      StepBalances(cfg, w, events[0]);
      RunBalances(cfg, Step(cfg, w, events[0]), events[1..]);
    }
  }

  /// Where it goes.

  predicate AllTo(ledger: seq<Payment>, to: string) {
    forall k :: 0 <= k < |ledger| ==> ledger[k].to == to
  }

  /** Every transfer of any run goes to the configured address, as the bytes that were signed say. */
  lemma {:induction false} OnlyToAddress(cfg: Config, w: World, events: seq<Event>)
    requires AllTo(w.ledger, cfg.addr)
    ensures AllTo(Run(cfg, w, events).ledger, cfg.addr)
    decreases |events|
  {
    if events != [] {
      OnlyToAddress(cfg, Step(cfg, w, events[0]), events[1..]);
    }
  }

  /// One transfer for each id.

  /** The log has a hash for every transfer. */
  predicate Known(file: string, ledger: seq<Payment>) {
    forall k :: 0 <= k < |ledger| ==> Lookup(file, ledger[k].id) != ""
  }

  /** No two transfers are for the same id. */
  predicate Distinct(ledger: seq<Payment>) {
    forall j, k :: 0 <= j < k < |ledger| ==> ledger[j].id != ledger[k].id
  }

  /** Every transfer is remembered, and no two are for the same id. */
  predicate Unique(w: World) {
    Closed(Contents(w.file)) && Known(Contents(w.file), w.ledger) && Distinct(w.ledger)
  }

  /** The chain's answer to an accepted transfer arrives and is written down whole and findable. */
  predicate Reliable(e: Event) {
    e.Command? && e.env.chainTakes ==> e.env.replyArrives && e.env.record.Whole? && Findable(e.id, e.env.hash, Whole)
  }

  lemma {:induction false} StepUnique(cfg: Config, w: World, e: Event)
    requires Unique(w) && Reliable(e)
    ensures Unique(Step(cfg, w, e))
  {
    if e.Command? && Paid(cfg, w, e.id, e.requested, e.all, e.env) {
      var file := Contents(w.file);
      PaidIff(cfg, w, e.id, e.requested, e.all, e.env);
      RecordedText(w.file, e.id, e.env.hash, Whole);
      LineCloses(file, e.id, e.env.hash);
      RecordedFound(file, e.id, e.env.hash, Whole);
      KnownMore(file, Line(e.id, e.env.hash), w.ledger, Step(cfg, w, e).ledger[|w.ledger|]);
      DistinctMore(file, w.ledger, Step(cfg, w, e).ledger[|w.ledger|]);
    }
  }

  lemma {:induction false} KnownMore(file: string, more: string, ledger: seq<Payment>, p: Payment)
    requires Known(file, ledger) && Lookup(file + more, p.id) != ""
    ensures Known(file + more, ledger + [p])
  {
    forall k | 0 <= k <= |ledger|
      ensures Lookup(file + more, (ledger + [p])[k].id) != ""
    {
      if k < |ledger| {
        FoundStays(file, more, ledger[k].id);
      }
    }
  }

  lemma {:induction false} DistinctMore(file: string, ledger: seq<Payment>, p: Payment)
    requires Known(file, ledger) && Distinct(ledger) && Lookup(file, p.id) == ""
    ensures Distinct(ledger + [p])
  {}

  /**
   * If every accepted transfer is reported and recorded, a run makes at most one transfer for each
   * id: what leaves the account is the sum over distinct ids.
   */
  lemma {:induction false} RunUnique(cfg: Config, w: World, events: seq<Event>)
    requires Unique(w) && forall k :: 0 <= k < |events| ==> Reliable(events[k])
    ensures Unique(Run(cfg, w, events))
    decreases |events|
  {
    if events != [] {
      StepUnique(cfg, w, events[0]);
      assert forall k :: 0 <= k < |events| - 1 ==> events[1..][k] == events[k + 1];
      RunUnique(cfg, Step(cfg, w, events[0]), events[1..]);
    }
  }
}
