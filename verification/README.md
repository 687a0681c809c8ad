# AnyToAny deposit ledger — a Dafny model

The AnyToAny bot watches one exchange wallet for incoming deposits, converts
each confirmed deposit into a target currency with market orders, and pays the
converted value out to an external address. Its state is the deposit ledger:
a map from deposit id to a record holding the deposit's state, its original,
converted and net-obtained amounts, the ids of the orders placed for it, and a
`pending_withdrawal` flag. Every tick runs three steps in a fixed order
(`update_deposits`, `process_conversions`, `process_withdrawals`); market and
side are chosen once at setup.

This project models those steps as pure functions over an immutable ledger.
Everything the exchange answers is an input:

- the listed deposits;
- for each deposit id, the order as it reads once traded, or `None` when no
  order was placed;
- the payout balance read for each deposit;
- the answer to each withdrawal request.

`truncate_to` is a function parameter. The only thing assumed of it is
`0 <= truncate(x) <= x` for `x >= 0` (`Ledger.TruncSound`). Amounts are Dafny
`real`s. The ledger keeps its keys in a sequence as well as a map, so that
records are visited in insertion order, like a Python dict.

Files and modules:

- `results.dfy` (`Results`): `Option` and `Result`.
- `ledger.dfy` (`Ledger`): the record and the ledger, with the ledger
  invariant `Valid` (keys distinct and listed once) and `Grows`, the relation
  every step keeps between a ledger and its successor. `UpdateEach` is the
  shared loop shape of both per-record steps.
- `markets.dfy` (`Markets`): `_get_market` and the side chosen in `_setup`.
- `deposits.dfy` (`DepositTracker`): `update_deposits`.
- `conversions.dfy` (`ConversionEngine`): `process_conversions`.
- `withdrawals.dfy` (`WithdrawalEngine`): `process_withdrawals`, both as
  written and corrected.
- `bot.dfy` (`Bot`): setup, one tick, and sequences of ticks.

Facts about the code that the model keeps:

- The start date is the clock reading taken in `_setup`; it is not persisted.
  Every scheduled event builds a fresh bot and runs its setup again, so a run
  admits only deposits created at or after that run's own setup.
- A new record's `original_amount` is the deposited amount; only the converted
  amounts start at zero.
- `Bot.Setup` uses the market resolver as written. `Bot.SetupCorrected` uses
  the corrected one (see "## Findings").
- `Bot.Tick` composes the corrected `WithdrawalEngine.ProcessWithdrawals`. As
  written, `process_withdrawals` raises before any withdrawal request and any
  flag write (see "## Findings"). Rows marked "corrected:" below describe
  that corrected step, or members built on it.
- Nothing in the code enforces `0 <= converted_amount <= original_amount` or a
  non-decreasing `converted_value`. Both depend on what the exchange reports.
  `Bot.TickKeepsWellFormed` proves the first invariant under the exchange
  assumptions it names.

## Model

| member | source | states |
|---|---|---|
| Ledger.Store | demo_bots/any_to_any/bot.py:85-97 | storing a record under an id keeps the ledger valid, sets exactly that id's record, keeps a known id's position and never reorders existing ids |
| Ledger.UpdateEach | demo_bots/any_to_any/bot.py:106-141 | a loop over the ledger's ids rewrites each record exactly once, in place; ids, their order and the key set are unchanged and the ledger stays valid |
| Markets.Bases | demo_bots/any_to_any/bot.py:175 | a currency is in the list iff some market has it as its base |
| Markets.Quotes | demo_bots/any_to_any/bot.py:176 | a currency is in the list iff some market has it as its quote |
| Markets.GetMarketAsWritten | demo_bots/any_to_any/bot.py:172-184 | succeeds iff the source is some market's base and the target some market's quote, or the reverse; the first case yields market (from, to), otherwise (to, from); fails with no compatible market otherwise |
| Markets.GetMarket | demo_bots/any_to_any/bot.py:172-184 | corrected resolver: succeeds iff (from, to) or (to, from) is a listed market, returns a listed market joining exactly the two currencies, preferring (from, to) |
| Markets.SideFor | demo_bots/any_to_any/bot.py:43 | for a market of two distinct currencies that contains the source, the chosen side makes the deposit wallet the source currency and the payout wallet the other one |
| Markets.DepositWallet | demo_bots/any_to_any/bot.py:76 | the deposit wallet is one of the market's currencies, and for distinct currencies it is the base iff the side is SELL |
| Markets.PayoutWallet | demo_bots/any_to_any/bot.py:147 | the payout wallet is one of the market's currencies, and for distinct currencies it differs from the deposit wallet |
| Markets.ChosenSideConverts | demo_bots/any_to_any/bot.py:43 | for a market made of the two currencies, the side picked in setup makes the deposit wallet the source currency and the payout wallet the target currency; it is SELL iff the market is (from, to) |
| Markets.AsWrittenJoinsConfiguredCurrencies | demo_bots/any_to_any/bot.py:178-181 | a market the as-written resolver returns is made of the two configured currencies |
| Markets.ResolversAgreeOnListedPair | demo_bots/any_to_any/bot.py:178-179 | when (from, to) is listed, the as-written and corrected resolvers return the same market |
| Markets.AsWrittenAcceptsUnlistedPair | demo_bots/any_to_any/bot.py:175-179 | counterexample: with markets BTC-CLP and ETH-COP, BTC to COP resolves to the unlisted market BTC-COP as written and fails when corrected |
| DepositTracker.Filter | demo_bots/any_to_any/bot.py:80-81 | a list comprehension keeps exactly the listed deposits that satisfy the condition |
| DepositTracker.Considered | demo_bots/any_to_any/bot.py:79-81 | a deposit is reconciled iff its address equals the configured one (or the address is the wildcard `Any`) and it was created at or after the start date |
| DepositTracker.NewRecord | demo_bots/any_to_any/bot.py:90-97 | a fresh record takes the deposit's state and amount as original amount, has nothing converted, no orders and the configured flag, and satisfies the amount invariant iff the deposited amount is non-negative |
| DepositTracker.Reconcile | demo_bots/any_to_any/bot.py:84-99 | reconciling one deposit keeps the ledger valid: ids distinct and each listed once |
| DepositTracker.ReconcileAll | demo_bots/any_to_any/bot.py:83-101 | the loop over the reconciled deposits keeps the ledger valid |
| DepositTracker.ReconcileKeys | demo_bots/any_to_any/bot.py:84-97 | reconciling one deposit adds its id to the key set and keeps the existing order of ids |
| DepositTracker.ReconcileRecords | demo_bots/any_to_any/bot.py:84-97 | reconciling one deposit: a known id takes the reported state and keeps everything else, an unseen id gets the fresh record, all other records are unchanged |
| DepositTracker.ReconcileAllOrder | demo_bots/any_to_any/bot.py:83-101 | the loop keeps every stored id at its position in the iteration order |
| DepositTracker.ReconcileAllKeys | demo_bots/any_to_any/bot.py:83-101 | the key set after the loop is the old keys plus the ids of the reconciled deposits |
| DepositTracker.ReconcileAllKnown | demo_bots/any_to_any/bot.py:85-88 | the loop changes at most the state of a stored record, and leaves a stored record no reconciled deposit names unchanged |
| DepositTracker.ReconcileAllFresh | demo_bots/any_to_any/bot.py:89-97 | every record the loop creates has zero converted amount and value, no orders, and `pending_withdrawal` equal to the configured flag |
| DepositTracker.ReconcileAllDistinct | demo_bots/any_to_any/bot.py:83-97 | with distinct deposit ids, the record of any reconciled deposit is the stored record with the reported state, or the fresh record built from the deposit |
| DepositTracker.UpdateDeposits | demo_bots/any_to_any/bot.py:72-101 | every admitted deposit's id ends up in the ledger; every new id comes from an admitted deposit; stored records change at most in state, and not at all when no admitted deposit names them; new records start unconverted with the configured flag; insertion order kept |
| DepositTracker.ObservedDeposit | demo_bots/any_to_any/bot.py:84-97 | an admitted deposit's record carries its state; for an unseen id, amounts are (deposit amount, 0, 0), orders empty, flag as configured; for a known id, amounts, orders and flag are the stored ones |
| DepositTracker.ReobservedUnchanged | demo_bots/any_to_any/bot.py:85-88 | reconciling deposits that are all stored with the same state returns the ledger unchanged |
| DepositTracker.UnchangedFeedIsNoop | demo_bots/any_to_any/bot.py:83-88 | `update_deposits` leaves the ledger unchanged when every admitted deposit is stored with the reported state |
| DepositTracker.UpdateDepositsIdempotent | demo_bots/any_to_any/bot.py:83-97 | running `update_deposits` a second time on the same exchange list changes nothing |
| DepositTracker.FilteredOutIgnored | demo_bots/any_to_any/bot.py:79-81 | inserting a deposit that fails the address or date filter anywhere in the exchange list leaves the result unchanged |
| DepositTracker.FirstObservation | demo_bots/any_to_any/bot.py:89-97 | starting from the empty ledger, every record created belongs to an admitted deposit and has nothing converted, no orders and the configured flag |
| DepositTracker.ReconcileAllWellFormed | demo_bots/any_to_any/bot.py:90-94 | with non-negative deposit amounts, the loop keeps `0 <= converted_amount <= original_amount` for every record |
| ConversionEngine.OrderSize | demo_bots/any_to_any/bot.py:113-117 | the order size is non-negative, and at most the remaining amount on the sell side or the quoted base amount on the buy side |
| ConversionEngine.ConvertRecord | demo_bots/any_to_any/bot.py:107-139 | one conversion keeps state, original amount and flag, appends at most one order, and leaves the record unchanged unless it is confirmed, has a positive remainder and an order came back |
| ConversionEngine.ProcessConversions | demo_bots/any_to_any/bot.py:103-141 | each record is converted independently and at most once, with the exchange's answer for its own id; ids, their order and key set unchanged |
| ConversionEngine.ConversionGate | demo_bots/any_to_any/bot.py:111-139 | a record changes iff it is confirmed, has a positive remaining amount, and an order came back |
| ConversionEngine.ConversionAccounting | demo_bots/any_to_any/bot.py:128-135 | sell side adds traded_amount to converted_amount and total_exchanged - paid_fee to converted_value; buy side adds total_exchanged and traded_amount - paid_fee; the order id is appended; state, original amount and flag unchanged |
| ConversionEngine.SellFillWithin | demo_bots/any_to_any/bot.py:117-119 | a sell order that trades no more than the size placed for it consumes no more than the remaining amount |
| ConversionEngine.ConversionKeepsWellFormed | demo_bots/any_to_any/bot.py:128-139 | conversion keeps `0 <= converted_amount <= original_amount` when the order consumes between zero and the remaining amount |
| ConversionEngine.ProcessConversionsKeepsWellFormed | demo_bots/any_to_any/bot.py:106-139 | the whole conversion step keeps the amount invariant on every record under the same exchange assumption |
| ConversionEngine.NothingToConvertIsNoop | demo_bots/any_to_any/bot.py:111-112 | a ledger with no confirmed, partly converted record passes through unchanged, whatever the exchange answers |
| ConversionEngine.NoOrderIsNoop | demo_bots/any_to_any/bot.py:119-139 | when no order is placed, the values written back are the ones read, so the ledger is unchanged |
| WithdrawalEngine.WithdrawRecord | demo_bots/any_to_any/bot.py:150-161 | corrected: one withdrawal changes only the flag, never raises it, and leaves a record not awaiting payout unchanged |
| WithdrawalEngine.ProcessWithdrawals | demo_bots/any_to_any/bot.py:143-164 | corrected: each record is processed once, with the balance and reply for its own id; ids, order and key set unchanged |
| WithdrawalEngine.Requests | demo_bots/any_to_any/bot.py:150-158 | corrected: a withdrawal of the truncated converted value is requested exactly for the confirmed, pending, fully converted records whose truncated value fits the balance read for them |
| WithdrawalEngine.WithdrawalGate | demo_bots/any_to_any/bot.py:150-161 | corrected: only `pending_withdrawal` can change, it is never raised, and it drops iff the record is confirmed, pending and fully converted, the truncated value fits the balance and the reply is `pending_preparation` |
| WithdrawalEngine.RequestsBounded | demo_bots/any_to_any/bot.py:153-158 | corrected: with sound truncation and non-negative values, no request exceeds the converted value it pays out or the balance read for it |
| WithdrawalEngine.WithdrawFromAsWritten | demo_bots/any_to_any/bot.py:148-170 | as written, the loop fails with NameError at the first record awaiting payout and otherwise returns the ledger unchanged |
| WithdrawalEngine.ProcessWithdrawalsAsWritten | demo_bots/any_to_any/bot.py:143-170 | as written, the step succeeds iff no record awaits payout, and then changes nothing |
| WithdrawalEngine.AsWrittenNeverPaysOut | demo_bots/any_to_any/bot.py:156-158 | counterexample: one affordable, accepted payout that the corrected step performs raises NameError as written |
| Bot.Setup | demo_bots/any_to_any/bot.py:33-52 | setup succeeds iff the as-written resolver does, keeps the configuration and start date, takes the resolver's market, and its side makes the deposit wallet the source currency and the payout wallet the target currency |
| Bot.SetupCorrected | demo_bots/any_to_any/bot.py:33-52 | corrected: setup succeeds iff a listed market joins the two currencies, and then keeps the configuration and start date and picks a listed market whose wallets are the source and target currencies |
| Bot.Tick | demo_bots/any_to_any/bot.py:58-67 | corrected: one tick, deposits then conversions then withdrawals, keeps the ledger valid |
| Bot.DepositsGrow | demo_bots/any_to_any/bot.py:85-97 | `update_deposits` keeps every id and its position, and changes a stored record at most in its state |
| Bot.ConversionsGrow | demo_bots/any_to_any/bot.py:128-139 | conversion keeps every id, state, original amount and flag, and appends at most one order per record |
| Bot.WithdrawalsGrow | demo_bots/any_to_any/bot.py:159-161 | corrected: withdrawal changes nothing but the flag and never raises it |
| Bot.TickGrows | demo_bots/any_to_any/bot.py:58-67 | corrected: across a tick no record disappears or moves, original amounts are fixed, orders are append-only, flags are never raised, and a record created in the tick is flagged only if payouts are configured |
| Bot.PayoutOnlyAfterFullConversion | demo_bots/any_to_any/bot.py:150-161 | corrected: a flag cleared during a tick belongs to a confirmed, fully converted record whose truncated value fit the balance and whose withdrawal reached `pending_preparation` |
| Bot.TickKeepsWellFormed | demo_bots/any_to_any/bot.py:58-67 | corrected: with non-negative deposit amounts and orders that consume no more than their deposit had left, a tick keeps `0 <= converted_amount <= original_amount` everywhere |
| Bot.SellScenario | demo_bots/any_to_any/bot.py:128-161 | corrected: a confirmed 0.5 deposit sold for 2000 with fee 2 records 0.5 converted and 1998 value; a balance of 1997 keeps the flag, a balance of 5000 and an accepted request clear it |
| Bot.RunGrows | demo_bots/tasks.py:4-9 | corrected: over any sequence of ticks, each with its own setup (clock reading and market), every later ledger grows from every earlier one |
| Bot.PayoutFlagDropsOnce | demo_bots/any_to_any/bot.py:159-161 | corrected: over any sequence of ticks, each with its own setup, a deposit's `pending_withdrawal` flag drops from true to false in at most one tick |

## Left out

- Notifications and logging (`Notifier`, `notify`, `log`): one-way messages with no effect on the ledger.
- The polling loop that waits for an order to reach `traded` (bot.py:124-126): an unbounded wait on the exchange. The model takes the order as it reads once traded, which is the loop's post-condition.
- The exchange clients (listing deposits, the quotation, placing orders, reading balances, requesting withdrawals, listing markets): their answers are parameters. The quotation's result enters only `ConversionEngine.OrderSize`, as `quoted`. The order placed is not an output of the model; only its size is.
- `truncate_to`: its source is not part of this model. It is a parameter, and the only assumption made about it is `Ledger.TruncSound`. The model claims nothing about its precision.
- Persistence (`self.store`): the ledger a step returns is what gets stored. The per-record save points, and so the crash-loss window, are not modelled.
- The clock (`datetime.utcnow()`), credentials and `settings`: the start date is the `now` input of `Bot.Setup`.
- `demo_bots/tasks.py`: it only builds a task and runs it once.
- The withdrawal's destination address and `subtract_fee=True`: a `WithdrawalRequest` carries only the deposit id and the amount.
- `str(deposit.id)`: deposit ids are strings in the model, and the conversion is treated as the identity.
- `deposit.amount.currency` is only used in a message and is kept as an unused field.
- DepositTracker.UpdateDepositsIdempotent: stated only for exchange lists whose deposit ids are distinct. With a repeated id, the state written last wins, and that case is not proved.
- DepositTracker.ObservedDeposit: stated only for exchange lists whose deposit ids are distinct, for the same reason.
- Bot.TickKeepsWellFormed: the invariant holds only if the exchange reports non-negative deposit amounts and no order consumes more than its deposit had left. The code checks neither. On the buy side an order paying more quote than remained leaves the record with a negative remainder, and it is then never converted or paid out again.

## Findings

| source | as written | input that shows it | evidently intended | confidence | as-written member | corrected member |
|---|---|---|---|---|---|---|
| demo_bots/any_to_any/bot.py:175-181 | the resolver tests whether the source is in the list of all bases and the target in the list of all quotes, without asking that a single market pairs them | markets BTC-CLP and ETH-COP, from BTC to COP: returns BTC-COP, which the exchange does not list | fail unless (from, to) or (to, from) is a listed market, as the setup error message says | medium, not executed | Markets.GetMarketAsWritten, Markets.AsWrittenAcceptsUnlistedPair | Markets.GetMarket, Bot.SetupCorrected |
| demo_bots/any_to_any/bot.py:157,169-170 | the messages use the names `converted_value` and `amount`, which are not defined in `process_withdrawals`, so the f-strings raise NameError; line 157 runs before the withdrawal request | a confirmed, pending record with original = converted = 1 and value 1, balance 10, reply `pending_preparation`: NameError, no withdrawal, flag stays true | use the truncated withdrawal amount in both messages and go on with the request | high, not executed | WithdrawalEngine.ProcessWithdrawalsAsWritten, WithdrawalEngine.AsWrittenNeverPaysOut | WithdrawalEngine.ProcessWithdrawals |
