/** `update_deposits`: reconcile the exchange's deposit list into the ledger. */
module DepositTracker {
  import opened Ledger

  /** The configured source address that disables address filtering. */
  const AnyAddress: string := "Any"

  /** A deposit as the exchange lists it; `createdAt` is a timestamp. */
  datatype Deposit = Deposit(
    id: DepositId,
    amount: real,
    currency: string,
    createdAt: int,
    state: string,
    address: string)

  /** The deposit passes both filters of `update_deposits`. */
  predicate Admitted(d: Deposit, fromAddress: string, startDate: int) {
    && (fromAddress == AnyAddress || d.address == fromAddress)
    && d.createdAt >= startDate
  }

  /** A list comprehension `[d for d in ds if keep(d)]`. */
  function Filter(ds: seq<Deposit>, keep: Deposit -> bool): (r: seq<Deposit>)
    ensures forall d :: d in r <==> d in ds && keep(d)
    decreases |ds|
  {
    if ds == [] then []
    else if keep(ds[0]) then [ds[0]] + Filter(ds[1..], keep)
    else Filter(ds[1..], keep)
  }

  /** The deposits `update_deposits` goes on to reconcile, in exchange order:
      the address filter (skipped for the wildcard) and then the start-date
      filter. */
  function Considered(ds: seq<Deposit>, fromAddress: string, startDate: int): (r: seq<Deposit>)
    ensures forall d :: d in r <==> d in ds && Admitted(d, fromAddress, startDate)
  {
    var byAddress := if fromAddress != AnyAddress then Filter(ds, (d: Deposit) => d.address == fromAddress) else ds;
    Filter(byAddress, (d: Deposit) => d.createdAt >= startDate)
  }

  /** The record created the first time a deposit id is seen. */
  function NewRecord(d: Deposit, toWithdraw: bool): (r: Record)
    ensures r.state == d.state && r.amounts.original == d.amount
    ensures Untouched(r, toWithdraw)
    ensures r.WellFormed() <==> d.amount >= 0.0
  {
    Record(d.state, Amounts(d.amount, 0.0, 0.0), [], toWithdraw)
  }

  /** A record as `NewRecord` leaves it apart from its state and original amount. */
  predicate Untouched(r: Record, toWithdraw: bool) {
    && r.amounts.converted == 0.0
    && r.amounts.value == 0.0
    && r.orders == []
    && r.pendingWithdrawal == toWithdraw
  }

  /** `b` differs from `a` at most in its state. */
  predicate SameButState(a: Record, b: Record) {
    b == a.(state := b.state)
  }

  function IdsOf(fs: seq<Deposit>): set<DepositId> {
    set d | d in fs :: d.id
  }

  ghost predicate DistinctIds(fs: seq<Deposit>) {
    forall i, j | 0 <= i < j < |fs| :: fs[i].id != fs[j].id
  }

  /** One iteration of the loop: create the record of an unseen id, otherwise
      copy a changed state into the stored record. */
  function Reconcile(l: Ledger, d: Deposit, toWithdraw: bool): (r: Ledger)
    requires l.Valid()
    ensures r.Valid()
  {
    if d.id in l.records then
      if d.state != l.records[d.id].state then Store(l, d.id, l.records[d.id].(state := d.state))
      else l
    else Store(l, d.id, NewRecord(d, toWithdraw))
  }

  lemma ReconcileKeys(l: Ledger, d: Deposit, toWithdraw: bool)
    requires l.Valid()
    ensures l.ids <= Reconcile(l, d, toWithdraw).ids
    ensures Reconcile(l, d, toWithdraw).records.Keys == l.records.Keys + {d.id}
  {
  }

  lemma ReconcileRecords(l: Ledger, d: Deposit, toWithdraw: bool)
    requires l.Valid()
    ensures forall id | id in l.records :: SameButState(l.records[id], Reconcile(l, d, toWithdraw).records[id])
    ensures forall id | id in l.records && id != d.id :: Reconcile(l, d, toWithdraw).records[id] == l.records[id]
    ensures d.id in l.records ==> Reconcile(l, d, toWithdraw).records[d.id] == l.records[d.id].(state := d.state)
    ensures d.id !in l.records ==> Reconcile(l, d, toWithdraw).records[d.id] == NewRecord(d, toWithdraw)
  {
    var r := Reconcile(l, d, toWithdraw);
    if d.id in l.records {
      if d.state != l.records[d.id].state {
        assert r.records == l.records[d.id := l.records[d.id].(state := d.state)];
      } else {
        assert r == l;
      }
    } else {
      assert r.records == l.records[d.id := NewRecord(d, toWithdraw)];
    }
  }

  /** The loop over the considered deposits. */
  function ReconcileAll(l: Ledger, fs: seq<Deposit>, toWithdraw: bool): (r: Ledger)
    requires l.Valid()
    ensures r.Valid()
    decreases |fs|
  {
    if fs == [] then l
    else ReconcileAll(Reconcile(l, fs[0], toWithdraw), fs[1..], toWithdraw)
  }

  lemma IdsOfCons(fs: seq<Deposit>)
    requires fs != []
    ensures IdsOf(fs) == {fs[0].id} + IdsOf(fs[1..])
  {
    assert forall d :: d in fs <==> d == fs[0] || d in fs[1..];
  }

  /** The loop keeps every stored id in place. */
  lemma {:induction false} ReconcileAllOrder(l: Ledger, fs: seq<Deposit>, toWithdraw: bool)
    requires l.Valid()
    ensures l.ids <= ReconcileAll(l, fs, toWithdraw).ids
    decreases |fs|
  {
    if fs != [] {
      var l1 := Reconcile(l, fs[0], toWithdraw);
      ReconcileKeys(l, fs[0], toWithdraw);
      ReconcileAllOrder(l1, fs[1..], toWithdraw);
      PrefixTransitive(l.ids, l1.ids, ReconcileAll(l1, fs[1..], toWithdraw).ids);
    }
  }

  /** The loop adds exactly the ids of the reconciled deposits to the keys. */
  lemma {:induction false} ReconcileAllKeys(l: Ledger, fs: seq<Deposit>, toWithdraw: bool)
    requires l.Valid()
    ensures ReconcileAll(l, fs, toWithdraw).records.Keys == l.records.Keys + IdsOf(fs)
    decreases |fs|
  {
    if fs != [] {
      var l1 := Reconcile(l, fs[0], toWithdraw);
      var keys := ReconcileAll(l1, fs[1..], toWithdraw).records.Keys;
      ReconcileKeys(l, fs[0], toWithdraw);
      ReconcileAllKeys(l1, fs[1..], toWithdraw);
      IdsOfCons(fs);
      assert keys == l1.records.Keys + IdsOf(fs[1..]);
      assert l1.records.Keys == l.records.Keys + {fs[0].id};
    }
  }

  /** The loop changes at most the state of a stored record, and leaves alone
      every stored record that no considered deposit names. */
  lemma {:induction false} ReconcileAllKnown(l: Ledger, fs: seq<Deposit>, toWithdraw: bool)
    requires l.Valid()
    ensures forall id | id in l.records ::
              id in ReconcileAll(l, fs, toWithdraw).records
              && SameButState(l.records[id], ReconcileAll(l, fs, toWithdraw).records[id])
    ensures forall id | id in l.records && id !in IdsOf(fs) ::
              ReconcileAll(l, fs, toWithdraw).records[id] == l.records[id]
    decreases |fs|
  {
    if fs != [] {
      var l1 := Reconcile(l, fs[0], toWithdraw);
      var r := ReconcileAll(l1, fs[1..], toWithdraw);
      ReconcileKeys(l, fs[0], toWithdraw);
      ReconcileRecords(l, fs[0], toWithdraw);
      ReconcileAllKnown(l1, fs[1..], toWithdraw);
      IdsOfCons(fs);
      forall id | id in l.records
        ensures id in r.records && SameButState(l.records[id], r.records[id])
      {
        assert SameButState(l1.records[id], r.records[id]);
      }
    }
  }

  /** A record the loop creates has no conversion progress, no orders, and
      `pending_withdrawal` set to the configured flag. */
  lemma {:induction false} ReconcileAllFresh(l: Ledger, fs: seq<Deposit>, toWithdraw: bool)
    requires l.Valid()
    ensures forall id | id in ReconcileAll(l, fs, toWithdraw).records && id !in l.records ::
              Untouched(ReconcileAll(l, fs, toWithdraw).records[id], toWithdraw)
    decreases |fs|
  {
    if fs != [] {
      var l1 := Reconcile(l, fs[0], toWithdraw);
      var r := ReconcileAll(l1, fs[1..], toWithdraw);
      ReconcileRecords(l, fs[0], toWithdraw);
      ReconcileAllFresh(l1, fs[1..], toWithdraw);
      ReconcileAllKnown(l1, fs[1..], toWithdraw);
      forall id | id in r.records && id !in l.records
        ensures Untouched(r.records[id], toWithdraw)
      {
        if id in l1.records {
          assert Untouched(l1.records[id], toWithdraw);
          assert SameButState(l1.records[id], r.records[id]);
        }
      }
    }
  }

  /** `update_deposits` on the exchange's list `ds`. */
  function UpdateDeposits(l: Ledger, ds: seq<Deposit>, fromAddress: string, startDate: int,
                          toWithdraw: bool): (r: Ledger)
    requires l.Valid()
    ensures r.Valid()
    ensures l.ids <= r.ids
    ensures forall d | d in ds && Admitted(d, fromAddress, startDate) :: d.id in r.records
    ensures forall id | id in r.records && id !in l.records ::
              exists d :: d in ds && Admitted(d, fromAddress, startDate) && d.id == id
    ensures forall id | id in l.records :: SameButState(l.records[id], r.records[id])
    ensures forall id | id in l.records && (forall d | d in ds && Admitted(d, fromAddress, startDate) :: d.id != id) ::
              r.records[id] == l.records[id]
    ensures forall id | id in r.records && id !in l.records :: Untouched(r.records[id], toWithdraw)
  {
    var fs := Considered(ds, fromAddress, startDate);
    var r := ReconcileAll(l, fs, toWithdraw);
    ReconcileAllOrder(l, fs, toWithdraw);
    ReconcileAllKeys(l, fs, toWithdraw);
    ReconcileAllKnown(l, fs, toWithdraw);
    ReconcileAllFresh(l, fs, toWithdraw);
    assert forall id | id in IdsOf(fs) :: exists d :: d in fs && d.id == id;
    r
  }

  lemma {:induction false} FilterConcat(a: seq<Deposit>, b: seq<Deposit>, keep: Deposit -> bool)
    ensures Filter(a + b, keep) == Filter(a, keep) + Filter(b, keep)
    decreases |a|
  {
    if a == [] {
      assert a + b == b;
    } else {
      assert (a + b)[0] == a[0];
      assert (a + b)[1..] == a[1..] + b;
      FilterConcat(a[1..], b, keep);
    }
  }

  lemma {:induction false} FilterKeepsDistinct(ds: seq<Deposit>, keep: Deposit -> bool)
    requires DistinctIds(ds)
    ensures DistinctIds(Filter(ds, keep))
    decreases |ds|
  {
    if ds != [] {
      FilterKeepsDistinct(ds[1..], keep);
      var rest := Filter(ds[1..], keep);
      if keep(ds[0]) {
        forall j | 0 <= j < |rest|
          ensures rest[j].id != ds[0].id
        {
          assert rest[j] in ds[1..];
        }
      }
    }
  }

  lemma ConsideredKeepsDistinct(ds: seq<Deposit>, fromAddress: string, startDate: int)
    requires DistinctIds(ds)
    ensures DistinctIds(Considered(ds, fromAddress, startDate))
  {
    var byAddress := if fromAddress != AnyAddress then Filter(ds, (d: Deposit) => d.address == fromAddress) else ds;
    FilterKeepsDistinct(ds, (d: Deposit) => d.address == fromAddress);
    FilterKeepsDistinct(byAddress, (d: Deposit) => d.createdAt >= startDate);
  }

  lemma DistinctTail(fs: seq<Deposit>)
    requires fs != [] && DistinctIds(fs)
    ensures DistinctIds(fs[1..])
    ensures fs[0].id !in IdsOf(fs[1..])
  {
    var rest := fs[1..];
    forall a, b | 0 <= a < b < |rest| ensures rest[a].id != rest[b].id {
      assert rest[a] == fs[a + 1] && rest[b] == fs[b + 1];
    }
    forall d | d in rest ensures d.id != fs[0].id {
      var j :| 0 <= j < |rest| && rest[j] == d;
      assert fs[j + 1] == d;
    }
  }

  /** When the considered deposits carry distinct ids, the `i`-th one's record
      ends up either as the stored record with the reported state copied in,
      or as the fresh record built from the deposit. */
  lemma {:induction false} ReconcileAllDistinct(l: Ledger, fs: seq<Deposit>, toWithdraw: bool, i: nat)
    requires l.Valid()
    requires DistinctIds(fs)
    requires i < |fs|
    ensures fs[i].id in ReconcileAll(l, fs, toWithdraw).records
    ensures ReconcileAll(l, fs, toWithdraw).records[fs[i].id] ==
              if fs[i].id in l.records then l.records[fs[i].id].(state := fs[i].state)
              else NewRecord(fs[i], toWithdraw)
    decreases i
  {
    var l1 := Reconcile(l, fs[0], toWithdraw);
    var rest := fs[1..];
    ReconcileKeys(l, fs[0], toWithdraw);
    ReconcileRecords(l, fs[0], toWithdraw);
    DistinctTail(fs);
    if i == 0 {
      ReconcileAllKnown(l1, rest, toWithdraw);
    } else {
      assert rest[i - 1] == fs[i];
      ReconcileAllDistinct(l1, rest, toWithdraw, i - 1);
    }
  }

  /** A newly observed id gets the fresh record: state copied from the deposit,
      `original_amount` equal to the deposited amount, nothing converted, no
      orders and `pending_withdrawal` equal to the configured flag. A known id
      keeps everything but takes the reported state. */
  lemma ObservedDeposit(l: Ledger, ds: seq<Deposit>, fromAddress: string, startDate: int,
                        toWithdraw: bool, d: Deposit)
    requires l.Valid()
    requires DistinctIds(ds)
    requires d in ds && Admitted(d, fromAddress, startDate)
    ensures var r := UpdateDeposits(l, ds, fromAddress, startDate, toWithdraw).records[d.id];
            && r.state == d.state
            && (d.id !in l.records ==>
                  && r.amounts == Amounts(d.amount, 0.0, 0.0)
                  && r.orders == []
                  && r.pendingWithdrawal == toWithdraw)
            && (d.id in l.records ==>
                  && r.amounts == l.records[d.id].amounts
                  && r.orders == l.records[d.id].orders
                  && r.pendingWithdrawal == l.records[d.id].pendingWithdrawal)
  {
    var fs := Considered(ds, fromAddress, startDate);
    ConsideredKeepsDistinct(ds, fromAddress, startDate);
    var i :| 0 <= i < |fs| && fs[i] == d;
    ReconcileAllDistinct(l, fs, toWithdraw, i);
  }

  /** Re-observing deposits whose ids are all stored with the same state leaves
      the ledger exactly as it was. */
  lemma {:induction false} ReobservedUnchanged(l: Ledger, fs: seq<Deposit>, toWithdraw: bool)
    requires l.Valid()
    requires forall d | d in fs :: d.id in l.records && l.records[d.id].state == d.state
    ensures ReconcileAll(l, fs, toWithdraw) == l
    decreases |fs|
  {
    if fs != [] {
      assert Reconcile(l, fs[0], toWithdraw) == l;
      ReobservedUnchanged(l, fs[1..], toWithdraw);
    }
  }

  /** `update_deposits` is a no-op when every deposit that passes the filters is
      already stored with the state the exchange reports. */
  lemma UnchangedFeedIsNoop(l: Ledger, ds: seq<Deposit>, fromAddress: string, startDate: int,
                            toWithdraw: bool)
    requires l.Valid()
    requires forall d | d in ds && Admitted(d, fromAddress, startDate) ::
               d.id in l.records && l.records[d.id].state == d.state
    ensures UpdateDeposits(l, ds, fromAddress, startDate, toWithdraw) == l
  {
    ReobservedUnchanged(l, Considered(ds, fromAddress, startDate), toWithdraw);
  }

  /** Running `update_deposits` twice on the same exchange list changes nothing
      the second time. */
  lemma UpdateDepositsIdempotent(l: Ledger, ds: seq<Deposit>, fromAddress: string, startDate: int,
                                 toWithdraw: bool)
    requires l.Valid()
    requires DistinctIds(ds)
    ensures var once := UpdateDeposits(l, ds, fromAddress, startDate, toWithdraw);
            UpdateDeposits(once, ds, fromAddress, startDate, toWithdraw) == once
  {
    var once := UpdateDeposits(l, ds, fromAddress, startDate, toWithdraw);
    forall d | d in ds && Admitted(d, fromAddress, startDate)
      ensures d.id in once.records && once.records[d.id].state == d.state
    {
      ObservedDeposit(l, ds, fromAddress, startDate, toWithdraw, d);
    }
    UnchangedFeedIsNoop(once, ds, fromAddress, startDate, toWithdraw);
  }

  lemma ConsideredConcat(a: seq<Deposit>, b: seq<Deposit>, fromAddress: string, startDate: int)
    ensures Considered(a + b, fromAddress, startDate)
         == Considered(a, fromAddress, startDate) + Considered(b, fromAddress, startDate)
  {
    var byAddress := (d: Deposit) => d.address == fromAddress;
    var byDate := (d: Deposit) => d.createdAt >= startDate;
    FilterConcat(a, b, byAddress);
    var pa := if fromAddress != AnyAddress then Filter(a, byAddress) else a;
    var pb := if fromAddress != AnyAddress then Filter(b, byAddress) else b;
    FilterConcat(pa, pb, byDate);
  }

  lemma RejectedAlone(d: Deposit, fromAddress: string, startDate: int)
    requires !Admitted(d, fromAddress, startDate)
    ensures Considered([d], fromAddress, startDate) == []
  {
    var byAddress := (d: Deposit) => d.address == fromAddress;
    var byDate := (d: Deposit) => d.createdAt >= startDate;
    FilterSingle(d, byAddress);
    var kept := if fromAddress != AnyAddress then Filter([d], byAddress) else [d];
    if kept == [d] {
      FilterSingle(d, byDate);
    }
  }

  lemma FilterSingle(d: Deposit, keep: Deposit -> bool)
    ensures Filter([d], keep) == if keep(d) then [d] else []
  {
    assert [d][1..] == [];
  }

  /** A deposit that fails the address or start-date filter has no effect,
      wherever it appears in the exchange's list. */
  lemma FilteredOutIgnored(l: Ledger, a: seq<Deposit>, d: Deposit, b: seq<Deposit>,
                           fromAddress: string, startDate: int, toWithdraw: bool)
    requires l.Valid()
    requires !Admitted(d, fromAddress, startDate)
    ensures UpdateDeposits(l, a + [d] + b, fromAddress, startDate, toWithdraw)
         == UpdateDeposits(l, a + b, fromAddress, startDate, toWithdraw)
  {
    ConsideredConcat(a + [d], b, fromAddress, startDate);
    ConsideredConcat(a, [d], fromAddress, startDate);
    ConsideredConcat(a, b, fromAddress, startDate);
    RejectedAlone(d, fromAddress, startDate);
    assert Considered(a, fromAddress, startDate) + [] == Considered(a, fromAddress, startDate);
  }

  /** A record the tracker creates satisfies `0 <= converted <= original`
      provided the exchange reports non-negative amounts, and stored records
      keep the invariant. */
  lemma {:induction false} ReconcileAllWellFormed(l: Ledger, fs: seq<Deposit>, toWithdraw: bool)
    requires l.Valid() && l.AllWellFormed()
    requires forall d | d in fs :: d.amount >= 0.0
    ensures ReconcileAll(l, fs, toWithdraw).AllWellFormed()
    decreases |fs|
  {
    if fs != [] {
      ReconcileRecords(l, fs[0], toWithdraw);
      ReconcileKeys(l, fs[0], toWithdraw);
      ReconcileAllWellFormed(Reconcile(l, fs[0], toWithdraw), fs[1..], toWithdraw);
    }
  }

  /** On a first run the ledger loads as empty; every record then created
      belongs to an admitted deposit and has nothing converted, no orders and
      the configured payout flag. */
  lemma FirstObservation(ds: seq<Deposit>, fromAddress: string, startDate: int, toWithdraw: bool)
    ensures var r := UpdateDeposits(Empty, ds, fromAddress, startDate, toWithdraw);
            forall id | id in r.records ::
              && Untouched(r.records[id], toWithdraw)
              && exists d :: d in ds && Admitted(d, fromAddress, startDate) && d.id == id
  {
  }
}
