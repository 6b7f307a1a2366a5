/// The withdrawal guard of `internal/exec`, in the source's wrapping arithmetic, and runs of
/// withdrawals against a chain.

module Withdraw {
  import opened GoInts
  import opened IdempotencyLog
  import opened Wrappers
  import opened SendTx
  import Decimal

  /// Limits and amounts.

  /** `WithdrawFloorUdvpn`: 50 P2P. */
  const FLOOR: uint64 := 50_000_000

  /** `Run` raises a limit that is below the floor. */
  function Raised(limit: uint64): uint64 {
    if limit < FLOOR then FLOOR else limit
  }

  datatype Reason =
    | Disabled | KeyUnavailable | BalanceUnavailable | NothingAboveReserve | NotPositive
    | BelowMinimum | WouldBreakReserve | AccountUnavailable | NoReply | Rejected

  datatype Verdict = Send(amount: uint64) | Refuse(reason: Reason)

  /** The guards of `Withdraw`, branch by branch, on 64-bit words. */
  function Guards(all: bool, requested: uint64, bal: uint64, fee: uint64, min: uint64, reserve: uint64): Verdict {
    if all && bal <= WrapU64(reserve + fee) then Refuse(NothingAboveReserve)
    else
      var amount := if all then WrapU64(WrapU64(bal - fee) - reserve) else requested;
      if amount == 0 then Refuse(NotPositive)
      else if amount < min then Refuse(BelowMinimum)
      else if amount > bal || fee > WrapU64(bal - amount) || reserve > WrapU64(WrapU64(bal - amount) - fee) then
        Refuse(WouldBreakReserve)
      else Verdict.Send(amount)
  }

  /** What the guards are for, over the integers. */
  predicate Allowed(all: bool, requested: uint64, bal: uint64, fee: uint64, min: uint64, reserve: uint64, amount: uint64) {
    && 0 < amount && min <= amount
    && amount + fee + reserve <= bal
    && (if all then amount + fee + reserve == bal else amount == requested)
  }

  /**
   * The guards let through exactly the allowed amounts, for all 64-bit values: the sum
   * `reserve + fee` may wrap around, and then the last guard refuses.
   */
  lemma GuardsExact(all: bool, requested: uint64, bal: uint64, fee: uint64, min: uint64,
                                       reserve: uint64, amount: uint64)
    ensures Guards(all, requested, bal, fee, min, reserve) == Verdict.Send(amount) <==>
            Allowed(all, requested, bal, fee, min, reserve, amount)
  {}

  /// One call.

  /** A transfer the chain took: the id it was made for, where it went and what it left on the account. */
  datatype Payment = Payment(id: string, to: string, amount: uint64, fee: uint64, left: nat)

  /**
   * The log file, what is on the account once every transfer the chain took is executed, and these
   * transfers.
   */
  datatype World = World(file: Option<string>, balance: nat, ledger: seq<Payment>)

  /**
   * What the outside does during one call. The answer to the balance query need not be the balance:
   * an endpoint may lag behind, and a transfer the chain took is executed later.
   */
  datatype Env = Env(
    keyOpens: bool, fee: uint64, answer: Option<nat>, credit: nat, accountAnswers: bool,
    chainTakes: bool, replyArrives: bool, hash: string, record: Append)

  datatype Config = Config(addr: string, min: uint64, reserve: uint64)

  datatype Outcome = Done(hash: string) | Failed(reason: Reason)

  /** The chain's decimal answer to the balance query, as `Balance` reads it. */
  function Queried(answer: nat): uint64 {
    Decimal.Parse(Decimal.Format(answer))
  }

  function Contents(file: Option<string>): string {
    match file
    case None => ""
    case Some(text) => text
  }

  /** The log after a record; when nothing of it is written the file stays as it is. */
  function Recorded(file: Option<string>, id: string, hash: string, record: Append): Option<string> {
    if Written(id, hash, record) == "" then file else Some(Contents(file) + Written(id, hash, record))
  }

  /** The chain takes a transfer the account can pay for; credits may have arrived meanwhile. */
  predicate Takes(w: World, amount: uint64, env: Env) {
    env.chainTakes && amount + env.fee <= w.balance + env.credit
  }

  function AfterBroadcast(w: World, id: string, to: string, amount: uint64, env: Env): World {
    var balance := w.balance + env.credit;
    if Takes(w, amount, env) then
      w.(balance := balance - amount - env.fee,
         ledger := w.ledger + [Payment(id, to, amount, env.fee, balance - amount - env.fee)])
    else w.(balance := balance)
  }

  /** One call of `Withdraw`. */
  function Call(cfg: Config, w: World, id: string, requested: uint64, all: bool, env: Env): (World, Outcome) {
    if cfg.addr == "" then (w, Failed(Disabled))
    else if Lookup(Contents(w.file), id) != "" then (w, Done(Lookup(Contents(w.file), id)))
    else if !env.keyOpens then (w, Failed(KeyUnavailable))
    else if env.answer.None? then (w, Failed(BalanceUnavailable))
    else
      match Guards(all, requested, Queried(env.answer.value), env.fee, cfg.min, cfg.reserve)
      case Refuse(reason) => (w, Failed(reason))
      case Send(amount) =>
        if !env.accountAnswers then (w, Failed(AccountUnavailable))
        else
          var after := AfterBroadcast(w, id, cfg.addr, amount, env);
          if !env.replyArrives then (after, Failed(NoReply))
          else if !Takes(w, amount, env) then (after, Failed(Rejected))
          else (after.(file := Recorded(w.file, id, env.hash, env.record)), Done(env.hash))
  }

  /** The machine the agent runs on, with the account it signs for. */
  class Host {
    const cfg: Config
    const signer: Account
    const chainID: seq<byte>
    const gas: uint64
    var file: Option<string>
    var balance: nat
    var ledger: seq<Payment>

    constructor (cfg: Config, signer: Account, chainID: seq<byte>, gas: uint64, w: World)
      ensures this.cfg == cfg && this.signer == signer && this.chainID == chainID && this.gas == gas && View() == w
    {
      this.cfg, this.signer, this.chainID, this.gas := cfg, signer, chainID, gas;
      file, balance, ledger := w.file, w.balance, w.ledger;
    }

    function View(): World
      reads this
    {
      World(file, balance, ledger)
    }

    /** What the chain does with a transfer of `amount` to `to`. */
    method Execute(id: string, to: string, amount: uint64, env: Env) returns (taken: bool)
      modifies this`balance, this`ledger
      ensures taken == Takes(old(View()), amount, env)
      ensures View() == AfterBroadcast(old(View()), id, to, amount, env)
    {
      balance := balance + env.credit;
      taken := env.chainTakes && amount + env.fee <= balance;
      if taken {
        balance := balance - amount - env.fee;
        ledger := ledger + [Payment(id, to, amount, env.fee, balance)];
      }
    }

    /** The chain goes by the transaction's bytes: `s` is what they say, `to` the address they name. */
    method Broadcast(id: string, tx: seq<byte>, s: Send, to: string, env: Env) returns (taken: bool)
      requires tx == TxRaw(s, signer.sign) && s.to == Ascii(to) && s.denom == Ascii("udvpn") && s.fee == env.fee
      modifies this`balance, this`ledger
      ensures taken == Takes(old(View()), s.amount, env)
      ensures View() == AfterBroadcast(old(View()), id, to, s.amount, env)
    {
      taken := Execute(id, to, s.amount, env);
    }

    /** What the transaction of a withdrawal says. */
    function Withdrawal(amount: uint64, fee: uint64, number: uint64, sequence: uint64): Send {
      SendTx.Send(signer.operatorAddr, signer.pubKey, Ascii(cfg.addr), Ascii("udvpn"), amount, fee, gas, chainID,
                  number, sequence, Ascii("SentNodes Agent Withdrawal"))
    }

    method RecordWithdraw(id: string, hash: string, record: Append)
      modifies this`file
      ensures file == Recorded(old(file), id, hash, record)
    {
      var text := Written(id, hash, record);
      if text != "" {
        file := Some(Contents(file) + text);
      }
    }

    /** `number` and `sequence` are the chain's answer to the account query, if it answers. */
    method Withdraw(requested: uint64, all: bool, id: string, env: Env, number: uint64, sequence: uint64) returns (r: Outcome)
      modifies this
      ensures (View(), r) == Call(cfg, old(View()), id, requested, all, env)
    {
      if cfg.addr == "" {
        return Failed(Disabled);
      }
      var h := LookupWithdraw(Contents(file), id);
      if h != "" {
        return Done(h);
      }
      if !env.keyOpens {
        return Failed(KeyUnavailable);
      }
      if env.answer.None? {
        return Failed(BalanceUnavailable);
      }
      var bal := Queried(env.answer.value);
      var verdict := CheckAmount(requested, all, bal, env.fee);
      if verdict.Refuse? {
        return Failed(verdict.reason);
      }
      if !env.accountAnswers {
        return Failed(AccountUnavailable);
      }
      var tx := BuildSignedSend(signer, chainID, Ascii(cfg.addr), Ascii("udvpn"), verdict.amount, env.fee, gas,
                                number, sequence, Ascii("SentNodes Agent Withdrawal"));
      var taken := Broadcast(id, tx, Withdrawal(verdict.amount, env.fee, number, sequence), cfg.addr, env);
      if !env.replyArrives {
        return Failed(NoReply);
      }
      if !taken {
        return Failed(Rejected);
      }
      RecordWithdraw(id, env.hash, env.record);
      return Done(env.hash);
    }

    method CheckAmount(requested: uint64, all: bool, bal: uint64, fee: uint64) returns (v: Verdict)
      ensures v == Guards(all, requested, bal, fee, cfg.min, cfg.reserve)
    {
      var amount := requested;
      if all {
        if bal <= WrapU64(cfg.reserve + fee) {
          return Refuse(NothingAboveReserve);
        }
        amount := WrapU64(WrapU64(bal - fee) - cfg.reserve);
      }
      if amount == 0 {
        return Refuse(NotPositive);
      }
      if amount < cfg.min {
        return Refuse(BelowMinimum);
      }
      if amount > bal || fee > WrapU64(bal - amount) || cfg.reserve > WrapU64(WrapU64(bal - amount) - fee) {
        return Refuse(WouldBreakReserve);
      }
      return Verdict.Send(amount);
    }
  }
}
