/** The persisted deposit ledger of one AnyToAny bot: a record per exchange
    deposit, keyed by the deposit identifier and iterated in insertion order
    (the order of a Python dict). */
module Ledger {

  type DepositId = string
  type OrderId = int

  /** The exchange deposit state that lets a record be converted and paid out. */
  const Confirmed: string := "confirmed"

  /** `original` is the deposited quantity in the source currency, `converted`
      the source quantity consumed by orders so far, `value` the net quantity
      of target currency obtained (fees already subtracted). */
  datatype Amounts = Amounts(original: real, converted: real, value: real)

  datatype Record = Record(
    state: string,
    amounts: Amounts,
    orders: seq<OrderId>,
    pendingWithdrawal: bool)
  {
    /** Source-currency quantity still waiting for conversion. */
    function Remaining(): real {
      amounts.original - amounts.converted
    }

    /** The record-level invariant `0 <= converted_amount <= original_amount`. */
    predicate WellFormed() {
      0.0 <= amounts.converted <= amounts.original
    }
  }

  /** `ids` lists the keys of `records` in insertion order. */
  datatype Ledger = Ledger(ids: seq<DepositId>, records: map<DepositId, Record>)
  {
    predicate Valid() {
      && (forall i, j | 0 <= i < j < |ids| :: ids[i] != ids[j])
      && (forall i | 0 <= i < |ids| :: ids[i] in records)
      && (forall id | id in records :: id in ids)
    }

    predicate AllWellFormed() {
      forall id | id in records :: records[id].WellFormed()
    }
  }

  /** What the model assumes of `truncate_to` for one currency: a non-negative
      amount is cut down to a non-negative amount, never rounded up. */
  ghost predicate TruncSound(truncate: real -> real) {
    forall x | x >= 0.0 :: 0.0 <= truncate(x) <= x
  }

  /** The ledger loaded when nothing has been stored yet. */
  const Empty: Ledger := Ledger([], map[])

  /** Python's `deposits[id] = rec`: a known key keeps its position, a new key
      goes to the end of the iteration order. */
  function Store(l: Ledger, id: DepositId, rec: Record): (r: Ledger)
    requires l.Valid()
    ensures r.Valid()
    ensures r.records == l.records[id := rec]
    ensures l.ids <= r.ids
    ensures id in l.records ==> r.ids == l.ids
  {
    if id in l.records then Ledger(l.ids, l.records[id := rec])
    else Ledger(l.ids + [id], l.records[id := rec])
  }

  /** Visits the keys `todo` in order and replaces each one's record by `f`
      applied to it: the shape of a `for deposit_id in deposits` loop that only
      rewrites the current record. */
  function UpdateFrom(recs: map<DepositId, Record>, todo: seq<DepositId>,
                      f: (DepositId, Record) -> Record): (r: map<DepositId, Record>)
    requires forall i | 0 <= i < |todo| :: todo[i] in recs
    requires forall i, j | 0 <= i < j < |todo| :: todo[i] != todo[j]
    ensures r.Keys == recs.Keys
    ensures forall id | id in recs ::
              r[id] == if id in todo then f(id, recs[id]) else recs[id]
    decreases |todo|
  {
    if todo == [] then recs
    else
      var id := todo[0];
      UpdateFrom(recs[id := f(id, recs[id])], todo[1..], f)
  }

  /** Rewrites every record of the ledger once, in iteration order. */
  function UpdateEach(l: Ledger, f: (DepositId, Record) -> Record): (r: Ledger)
    requires l.Valid()
    ensures r.Valid()
    ensures r.ids == l.ids
    ensures r.records.Keys == l.records.Keys
    ensures forall id | id in l.records :: r.records[id] == f(id, l.records[id])
  {
    Ledger(l.ids, UpdateFrom(l.records, l.ids, f))
  }

  /** `after` is a later version of `before` as far as the durable guarantees go:
      no record disappears or moves, `original_amount` never changes, the order
      audit trail is append-only and `pending_withdrawal` is never raised. */
  ghost predicate Grows(before: Ledger, after: Ledger) {
    && before.ids <= after.ids
    && (forall id | id in before.records ::
          && id in after.records
          && after.records[id].amounts.original == before.records[id].amounts.original
          && before.records[id].orders <= after.records[id].orders
          && (after.records[id].pendingWithdrawal ==> before.records[id].pendingWithdrawal))
  }

  lemma PrefixTransitive<T>(a: seq<T>, b: seq<T>, c: seq<T>)
    requires a <= b && b <= c
    ensures a <= c
  {
    assert a == b[..|a|] && b == c[..|b|];
  }

  lemma GrowsTransitive(a: Ledger, b: Ledger, c: Ledger)
    requires Grows(a, b) && Grows(b, c)
    ensures Grows(a, c)
  {
    forall id | id in a.records
      ensures a.records[id].orders <= c.records[id].orders
    {
      PrefixTransitive(a.records[id].orders, b.records[id].orders, c.records[id].orders);
    }
  }
}
