/** The AnyToAny bot: setup once, then ticks of deposit tracking, conversion
    and withdrawal, in that order. */
module Bot {
  import opened Results
  import opened Ledger
  import opened Markets
  import opened DepositTracker
  import opened ConversionEngine
  import opened WithdrawalEngine

  /** The bot's configuration: `from` currency and source address (or the
      wildcard `Any`), `to` currency, whether to pay out, payout address. */
  datatype Config = Config(
    fromCurrency: string,
    fromAddress: string,
    toCurrency: string,
    toWithdraw: bool,
    toAddress: string)

  /** What `_setup` settles once per bot instance; `startDate` is the clock
      reading taken there. */
  datatype Instance = Instance(config: Config, market: Market, side: Side, startDate: int)

  /** `_setup` as written, with the exchange's market list and the current
      time as inputs. */
  function Setup(config: Config, markets: seq<Market>, now: int): (r: Result<Instance, SetupError>)
    ensures r.Success? <==> GetMarketAsWritten(markets, config.fromCurrency, config.toCurrency).Success?
    ensures r.Success? ==>
              && r.value.config == config
              && r.value.startDate == now
              && r.value.market == GetMarketAsWritten(markets, config.fromCurrency, config.toCurrency).value
              && DepositWallet(r.value.market, r.value.side) == config.fromCurrency
              && PayoutWallet(r.value.market, r.value.side) == config.toCurrency
  {
    match GetMarketAsWritten(markets, config.fromCurrency, config.toCurrency)
    case Failure(e) => Failure(e)
    case Success(m) =>
      AsWrittenJoinsConfiguredCurrencies(markets, config.fromCurrency, config.toCurrency);
      ChosenSideConverts(m, config.fromCurrency, config.toCurrency);
      Success(Instance(config, m, SideFor(m, config.fromCurrency), now))
  }

  /** `_setup` with the corrected market resolver: it succeeds only with a
      market the exchange lists. */
  function SetupCorrected(config: Config, markets: seq<Market>, now: int): (r: Result<Instance, SetupError>)
    ensures r.Success? <==>
              Market(config.fromCurrency, config.toCurrency) in markets
              || Market(config.toCurrency, config.fromCurrency) in markets
    ensures r.Success? ==>
              && r.value.config == config
              && r.value.startDate == now
              && r.value.market in markets
              && DepositWallet(r.value.market, r.value.side) == config.fromCurrency
              && PayoutWallet(r.value.market, r.value.side) == config.toCurrency
  {
    match GetMarket(markets, config.fromCurrency, config.toCurrency)
    case Failure(e) => Failure(e)
    case Success(m) =>
      ChosenSideConverts(m, config.fromCurrency, config.toCurrency);
      Success(Instance(config, m, SideFor(m, config.fromCurrency), now))
  }

  /** Everything the exchange answers during one tick: the deposit list, the
      traded order (if any) for each deposit, the payout balance read for each
      deposit and the answer to each withdrawal request. */
  datatype Replies = Replies(
    deposits: seq<Deposit>,
    fill: DepositId -> Option<TradedOrder>,
    available: DepositId -> real,
    withdrawal: DepositId -> WithdrawalReply)

  function AfterDeposits(l: Ledger, bot: Instance, replies: Replies): (r: Ledger)
    requires l.Valid()
    ensures r.Valid()
  {
    UpdateDeposits(l, replies.deposits, bot.config.fromAddress, bot.startDate, bot.config.toWithdraw)
  }

  function AfterConversions(l: Ledger, bot: Instance, replies: Replies): (r: Ledger)
    requires l.Valid()
    ensures r.Valid()
  {
    ProcessConversions(AfterDeposits(l, bot, replies), bot.side, replies.fill)
  }

  /** One run of `_algorithm`. `truncate(x, c)` is `truncate_to(x, c)`. */
  function Tick(l: Ledger, bot: Instance, replies: Replies, truncate: (real, string) -> real): (r: Ledger)
    requires l.Valid()
    ensures r.Valid()
  {
    ProcessWithdrawals(AfterConversions(l, bot, replies),
                       (x: real) => truncate(x, bot.config.toCurrency),
                       replies.available, replies.withdrawal)
  }

  /** `update_deposits` changes stored records at most in their state. */
  lemma DepositsGrow(l: Ledger, bot: Instance, replies: Replies)
    requires l.Valid()
    ensures Grows(l, AfterDeposits(l, bot, replies))
    ensures forall id | id in l.records ::
              SameButState(l.records[id], AfterDeposits(l, bot, replies).records[id])
  {
    var r := AfterDeposits(l, bot, replies);
    forall id | id in l.records
      ensures id in r.records
      ensures r.records[id].amounts.original == l.records[id].amounts.original
      ensures l.records[id].orders <= r.records[id].orders
      ensures r.records[id].pendingWithdrawal ==> l.records[id].pendingWithdrawal
    {
      assert SameButState(l.records[id], r.records[id]);
    }
  }

  /** Conversion keeps every record's state, original amount and payout flag,
      and appends at most one order to it. */
  lemma ConversionsGrow(l: Ledger, side: Side, fill: DepositId -> Option<TradedOrder>)
    requires l.Valid()
    ensures Grows(l, ProcessConversions(l, side, fill))
    ensures forall id | id in l.records ::
              var c := ProcessConversions(l, side, fill).records[id];
              && c.state == l.records[id].state
              && c.pendingWithdrawal == l.records[id].pendingWithdrawal
              && |c.orders| <= |l.records[id].orders| + 1
  {
  }

  /** Withdrawal changes nothing but the payout flag, and never raises it. */
  lemma WithdrawalsGrow(l: Ledger, truncate: real -> real, available: DepositId -> real,
                        reply: DepositId -> WithdrawalReply)
    requires l.Valid()
    ensures Grows(l, ProcessWithdrawals(l, truncate, available, reply))
    ensures forall id | id in l.records ::
              var w := ProcessWithdrawals(l, truncate, available, reply).records[id];
              w == l.records[id].(pendingWithdrawal := w.pendingWithdrawal)
  {
    forall id | id in l.records {
      WithdrawalGate(l.records[id], truncate, available(id), reply(id));
    }
  }

  /** Across a tick no record disappears or moves, `original_amount` is fixed,
      orders are only appended, `pending_withdrawal` is never raised, and a
      record created in the tick has the flag only if the configuration asks
      for payouts. */
  lemma TickGrows(l: Ledger, bot: Instance, replies: Replies, truncate: (real, string) -> real)
    requires l.Valid()
    ensures Grows(l, Tick(l, bot, replies, truncate))
    ensures forall id | id in Tick(l, bot, replies, truncate).records && id !in l.records ::
              Tick(l, bot, replies, truncate).records[id].pendingWithdrawal ==> bot.config.toWithdraw
  {
    var a := AfterDeposits(l, bot, replies);
    var b := AfterConversions(l, bot, replies);
    var c := Tick(l, bot, replies, truncate);
    var t := (x: real) => truncate(x, bot.config.toCurrency);
    DepositsGrow(l, bot, replies);
    ConversionsGrow(a, bot.side, replies.fill);
    WithdrawalsGrow(b, t, replies.available, replies.withdrawal);
    GrowsTransitive(l, a, b);
    GrowsTransitive(l, b, c);
    forall id | id in c.records && id !in l.records
      ensures c.records[id].pendingWithdrawal ==> bot.config.toWithdraw
    {
      assert Untouched(a.records[id], bot.config.toWithdraw);
    }
  }

  /** Within a tick, a record's payout flag is cleared only once the deposit is
      confirmed and fully converted, and only if the payout was affordable and
      accepted. */
  lemma PayoutOnlyAfterFullConversion(l: Ledger, bot: Instance, replies: Replies,
                                      truncate: (real, string) -> real, id: DepositId)
    requires l.Valid()
    requires id in Tick(l, bot, replies, truncate).records
    requires if id in l.records then l.records[id].pendingWithdrawal else bot.config.toWithdraw
    requires !Tick(l, bot, replies, truncate).records[id].pendingWithdrawal
    ensures var r := Tick(l, bot, replies, truncate).records[id];
            && r.state == Confirmed
            && r.amounts.original == r.amounts.converted
            && truncate(r.amounts.value, bot.config.toCurrency) <= replies.available(id)
            && replies.withdrawal(id).state == PendingPreparation
  {
    var a := AfterDeposits(l, bot, replies);
    var b := AfterConversions(l, bot, replies);
    var t := (x: real) => truncate(x, bot.config.toCurrency);
    if id in l.records {
      assert SameButState(l.records[id], a.records[id]);
    } else {
      assert Untouched(a.records[id], bot.config.toWithdraw);
    }
    assert b.records[id].pendingWithdrawal;
    WithdrawalGate(b.records[id], t, replies.available(id), replies.withdrawal(id));
  }

  /** Every record keeps `0 <= converted_amount <= original_amount` across a
      tick, provided the exchange reports non-negative deposit amounts and no
      order consumes more than its deposit had left. */
  lemma TickKeepsWellFormed(l: Ledger, bot: Instance, replies: Replies, truncate: (real, string) -> real)
    requires l.Valid() && l.AllWellFormed()
    requires forall d | d in replies.deposits :: d.amount >= 0.0
    requires FillsWithin(AfterDeposits(l, bot, replies), bot.side, replies.fill)
    ensures Tick(l, bot, replies, truncate).AllWellFormed()
  {
    var fs := Considered(replies.deposits, bot.config.fromAddress, bot.startDate);
    var a := AfterDeposits(l, bot, replies);
    var b := AfterConversions(l, bot, replies);
    var c := Tick(l, bot, replies, truncate);
    var t := (x: real) => truncate(x, bot.config.toCurrency);
    ReconcileAllWellFormed(l, fs, bot.config.toWithdraw);
    assert a.AllWellFormed();
    ProcessConversionsKeepsWellFormed(a, bot.side, replies.fill);
    assert b.AllWellFormed();
    forall id | id in c.records
      ensures c.records[id].WellFormed()
    {
      WithdrawalGate(b.records[id], t, replies.available(id), replies.withdrawal(id));
    }
  }

  /** `run` lists the ledgers a sequence of ticks goes through: `run[i + 1]` is
      what tick `i`, set up as `bots[i]` and answered by `ticks[i]`, makes of
      `run[i]`. Each tick has its own setup, since every scheduled event
      builds a fresh bot and so reads the clock and resolves the market again. */
  ghost predicate IsRun(run: seq<Ledger>, bots: seq<Instance>, ticks: seq<Replies>,
                        truncate: (real, string) -> real)
  {
    && |run| == |ticks| + 1
    && |bots| == |ticks|
    && (forall i | 0 <= i < |run| :: run[i].Valid())
    && (forall i | 0 <= i < |ticks| :: run[i + 1] == Tick(run[i], bots[i], ticks[i], truncate))
  }

  lemma {:induction false} RunGrows(run: seq<Ledger>, bots: seq<Instance>, ticks: seq<Replies>,
                                    truncate: (real, string) -> real, i: nat, j: nat)
    requires IsRun(run, bots, ticks, truncate)
    requires i <= j < |run|
    ensures Grows(run[i], run[j])
    decreases j - i
  {
    if i < j {
      TickGrows(run[i], bots[i], ticks[i], truncate);
      RunGrows(run, bots, ticks, truncate, i + 1, j);
      GrowsTransitive(run[i], run[i + 1], run[j]);
    }
  }

  /** The tick that takes `id`'s payout flag from true to false. */
  ghost predicate FlagDrops(run: seq<Ledger>, id: DepositId, k: nat)
    requires k + 1 < |run|
  {
    && id in run[k].records
    && id in run[k + 1].records
    && run[k].records[id].pendingWithdrawal
    && !run[k + 1].records[id].pendingWithdrawal
  }

  /** Over any sequence of ticks, each with its own setup, a deposit's payout flag drops from true to
      false at most once: after it drops it stays false. */
  lemma PayoutFlagDropsOnce(run: seq<Ledger>, bots: seq<Instance>, ticks: seq<Replies>,
                            truncate: (real, string) -> real, id: DepositId, k1: nat, k2: nat)
    requires IsRun(run, bots, ticks, truncate)
    requires k1 < k2 < |ticks|
    requires FlagDrops(run, id, k1)
    ensures !FlagDrops(run, id, k2)
  {
    RunGrows(run, bots, ticks, truncate, k1 + 1, k2);
  }

  /** A confirmed 0.5 BTC deposit sold for 2000 USD with a 2 USD fee ends with
      0.5 converted and 1998 to pay out; a balance of 1997 holds the payout
      back, and a balance of 5000 with an accepted request clears the flag. */
  lemma SellScenario()
    ensures var rec := Record(Confirmed, Amounts(0.5, 0.0, 0.0), [], true);
            var sold := ConvertRecord(rec, Sell, Some(TradedOrder(11, 0.5, 2000.0, 2.0)));
            var id := (x: real) => x;
            var accepted := WithdrawalReply(21, PendingPreparation);
            && sold == Record(Confirmed, Amounts(0.5, 0.5, 1998.0), [11], true)
            && WithdrawRecord(sold, id, 1997.0, accepted) == sold
            && WithdrawRecord(sold, id, 5000.0, accepted) == sold.(pendingWithdrawal := false)
  {
  }
}
