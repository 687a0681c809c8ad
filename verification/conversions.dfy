/** `process_conversions`: convert the unconverted part of each confirmed
    deposit with a market order and record the order's totals. */
module ConversionEngine {
  import opened Results
  import opened Ledger
  import opened Markets

  /** An order in the exchange's `traded` state. */
  datatype TradedOrder = TradedOrder(
    id: OrderId,
    tradedAmount: real,
    totalExchanged: real,
    paidFee: real)

  /** A record the engine acts on: confirmed and not fully converted. */
  predicate Convertible(r: Record) {
    r.state == Confirmed && r.Remaining() > 0.0
  }

  /** The source-currency quantity an order used up: on the buy side the source
      is the quote currency, which the order paid out as `total_exchanged`; on
      the sell side the source is the base currency, sold as `traded_amount`. */
  function Consumed(side: Side, o: TradedOrder): real {
    if side == Buy then o.totalExchanged else o.tradedAmount
  }

  /** The target-currency quantity an order produced, before the fee. */
  function Obtained(side: Side, o: TradedOrder): real {
    if side == Buy then o.tradedAmount else o.totalExchanged
  }

  /** Base-currency size of the market order placed for a convertible record:
      the remaining amount itself on the sell side, and on the buy side the
      quotation's base amount obtainable by spending the remaining quote
      amount; either way cut down to the base currency's precision. */
  function OrderSize(r: Record, side: Side, quoted: real, truncate: real -> real): (size: real)
    requires TruncSound(truncate)
    requires Convertible(r)
    requires side == Buy ==> quoted >= 0.0
    ensures 0.0 <= size
    ensures side == Sell ==> size <= r.Remaining()
    ensures side == Buy ==> size <= quoted
  {
    truncate(if side == Buy then quoted else r.Remaining())
  }

  /** One iteration of the loop. `fill` is the order as it reads once traded,
      or `None` when no order was placed. */
  function ConvertRecord(r: Record, side: Side, fill: Option<TradedOrder>): (c: Record)
    ensures c.state == r.state && c.pendingWithdrawal == r.pendingWithdrawal
    ensures c.amounts.original == r.amounts.original
    ensures r.orders <= c.orders && |c.orders| <= |r.orders| + 1
    ensures !Convertible(r) || fill.None? ==> c == r
  {
    if Convertible(r) && fill.Some? then
      var o := fill.value;
      r.(amounts := Amounts(r.amounts.original,
                            r.amounts.converted + Consumed(side, o),
                            r.amounts.value + Obtained(side, o) - o.paidFee),
         orders := r.orders + [o.id])
    else r
  }

  /** `process_conversions`, with `fill(id)` the exchange's answer for the
      order placed on behalf of deposit `id`. */
  function ProcessConversions(l: Ledger, side: Side, fill: DepositId -> Option<TradedOrder>): (r: Ledger)
    requires l.Valid()
    ensures r.Valid()
    ensures r.ids == l.ids && r.records.Keys == l.records.Keys
    ensures forall id | id in l.records :: r.records[id] == ConvertRecord(l.records[id], side, fill(id))
  {
    UpdateEach(l, (id: DepositId, rec: Record) => ConvertRecord(rec, side, fill(id)))
  }

  /** A record changes exactly when it is confirmed, not fully converted, and an
      order came back. */
  lemma ConversionGate(r: Record, side: Side, fill: Option<TradedOrder>)
    ensures ConvertRecord(r, side, fill) != r <==> Convertible(r) && fill.Some?
  {
    if Convertible(r) && fill.Some? {
      assert |ConvertRecord(r, side, fill).orders| == |r.orders| + 1;
    }
  }

  /** The accounting of a traded order: the side decides which order total is
      the consumed source amount and which is the obtained value, the fee
      comes off the value, and the order id is appended to the audit trail.
      State, original amount and the withdrawal flag are not touched. */
  lemma ConversionAccounting(r: Record, side: Side, o: TradedOrder)
    requires Convertible(r)
    ensures var c := ConvertRecord(r, side, Some(o));
            && c.state == r.state
            && c.pendingWithdrawal == r.pendingWithdrawal
            && c.amounts.original == r.amounts.original
            && c.orders == r.orders + [o.id]
            && (side == Sell ==>
                  && c.amounts.converted == r.amounts.converted + o.tradedAmount
                  && c.amounts.value == r.amounts.value + o.totalExchanged - o.paidFee)
            && (side == Buy ==>
                  && c.amounts.converted == r.amounts.converted + o.totalExchanged
                  && c.amounts.value == r.amounts.value + o.tradedAmount - o.paidFee)
  {
  }

  /** The exchange did not consume more source currency than was left. */
  predicate FillWithin(r: Record, side: Side, o: TradedOrder) {
    0.0 <= Consumed(side, o) <= r.Remaining()
  }

  /** A sell order that trades no more than the size placed for it stays within
      the remaining amount. */
  lemma SellFillWithin(r: Record, o: TradedOrder, truncate: real -> real)
    requires TruncSound(truncate)
    requires Convertible(r)
    requires 0.0 <= o.tradedAmount <= OrderSize(r, Sell, 0.0, truncate)
    ensures FillWithin(r, Sell, o)
  {
  }

  /** Conversion keeps `0 <= converted_amount <= original_amount` as long as the
      exchange consumes no more than remained. */
  lemma ConversionKeepsWellFormed(r: Record, side: Side, fill: Option<TradedOrder>)
    requires r.WellFormed()
    requires fill.Some? ==> FillWithin(r, side, fill.value)
    ensures ConvertRecord(r, side, fill).WellFormed()
  {
  }

  /** The exchange's fills stay within the remaining amount of each record. */
  ghost predicate FillsWithin(l: Ledger, side: Side, fill: DepositId -> Option<TradedOrder>) {
    forall id | id in l.records && fill(id).Some? :: FillWithin(l.records[id], side, fill(id).value)
  }

  lemma ProcessConversionsKeepsWellFormed(l: Ledger, side: Side, fill: DepositId -> Option<TradedOrder>)
    requires l.Valid() && l.AllWellFormed()
    requires FillsWithin(l, side, fill)
    ensures ProcessConversions(l, side, fill).AllWellFormed()
  {
    forall id | id in l.records
      ensures ProcessConversions(l, side, fill).records[id].WellFormed()
    {
      ConversionKeepsWellFormed(l.records[id], side, fill(id));
    }
  }

  /** A ledger with nothing left to convert passes through unchanged, whatever
      the exchange would have answered. */
  lemma NothingToConvertIsNoop(l: Ledger, side: Side, fill: DepositId -> Option<TradedOrder>)
    requires l.Valid()
    requires forall id | id in l.records :: !Convertible(l.records[id])
    ensures ProcessConversions(l, side, fill) == l
  {
    var r := ProcessConversions(l, side, fill);
    assert r.records == l.records;
  }

  /** With no order placed, conversion leaves the ledger as it was. */
  lemma NoOrderIsNoop(l: Ledger, side: Side)
    requires l.Valid()
    ensures ProcessConversions(l, side, (id: DepositId) => None) == l
  {
    var r := ProcessConversions(l, side, (id: DepositId) => None);
    assert r.records == l.records;
  }
}
