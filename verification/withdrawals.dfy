/** `process_withdrawals`: pay out the value of each fully converted deposit. */
module WithdrawalEngine {
  import opened Results
  import opened Ledger

  /** The withdrawal state that counts as an accepted request. */
  const PendingPreparation: string := "pending_preparation"

  datatype WithdrawalReply = WithdrawalReply(id: int, state: string)

  /** A withdrawal request: `amount` of the target currency for `deposit`. */
  datatype WithdrawalRequest = WithdrawalRequest(deposit: DepositId, amount: real)

  /** A record the engine acts on: confirmed, awaiting payout and fully
      converted (no partial withdrawals). */
  predicate AwaitingWithdrawal(r: Record) {
    && r.state == Confirmed
    && r.pendingWithdrawal
    && r.amounts.original == r.amounts.converted
  }

  /** The payout goes ahead only when the truncated value fits the balance. */
  predicate Affordable(r: Record, truncate: real -> real, available: real) {
    truncate(r.amounts.value) <= available
  }

  /** One iteration of the loop: `available` is the balance read for this
      record and `reply` the exchange's answer to its withdrawal request. */
  function WithdrawRecord(r: Record, truncate: real -> real, available: real,
                          reply: WithdrawalReply): (w: Record)
    ensures w == r.(pendingWithdrawal := w.pendingWithdrawal)
    ensures w.pendingWithdrawal ==> r.pendingWithdrawal
    ensures !AwaitingWithdrawal(r) ==> w == r
  {
    if AwaitingWithdrawal(r) && Affordable(r, truncate, available) && reply.state == PendingPreparation
    then r.(pendingWithdrawal := false)
    else r
  }

  /** `process_withdrawals`, with the balance read and the withdrawal answer for
      each deposit supplied by `available` and `reply`. */
  function ProcessWithdrawals(l: Ledger, truncate: real -> real, available: DepositId -> real,
                              reply: DepositId -> WithdrawalReply): (r: Ledger)
    requires l.Valid()
    ensures r.Valid()
    ensures r.ids == l.ids && r.records.Keys == l.records.Keys
    ensures forall id | id in l.records ::
              r.records[id] == WithdrawRecord(l.records[id], truncate, available(id), reply(id))
  {
    UpdateEach(l, (id: DepositId, rec: Record) => WithdrawRecord(rec, truncate, available(id), reply(id)))
  }

  /** The requests `process_withdrawals` sends, in ledger order. */
  function Requests(l: Ledger, todo: seq<DepositId>, truncate: real -> real,
                    available: DepositId -> real): (qs: seq<WithdrawalRequest>)
    requires forall i | 0 <= i < |todo| :: todo[i] in l.records
    ensures forall q | q in qs ::
              && q.deposit in todo
              && AwaitingWithdrawal(l.records[q.deposit])
              && q.amount == truncate(l.records[q.deposit].amounts.value)
              && q.amount <= available(q.deposit)
    ensures forall id | id in todo && AwaitingWithdrawal(l.records[id])
                        && Affordable(l.records[id], truncate, available(id)) ::
              WithdrawalRequest(id, truncate(l.records[id].amounts.value)) in qs
    decreases |todo|
  {
    if todo == [] then []
    else
      var id := todo[0];
      var rec := l.records[id];
      var rest := Requests(l, todo[1..], truncate, available);
      if AwaitingWithdrawal(rec) && Affordable(rec, truncate, available(id))
      then [WithdrawalRequest(id, truncate(rec.amounts.value))] + rest
      else rest
  }

  /** The flag drops exactly when the record was awaiting payout, the balance
      covered the truncated value, and the exchange accepted the request;
      nothing else about the record ever changes, and the flag is never raised. */
  lemma WithdrawalGate(r: Record, truncate: real -> real, available: real, reply: WithdrawalReply)
    ensures var w := WithdrawRecord(r, truncate, available, reply);
            && w == r.(pendingWithdrawal := w.pendingWithdrawal)
            && (w.pendingWithdrawal ==> r.pendingWithdrawal)
            && (r.pendingWithdrawal && !w.pendingWithdrawal <==>
                  && AwaitingWithdrawal(r)
                  && truncate(r.amounts.value) <= available
                  && reply.state == PendingPreparation)
  {
  }

  /** No request exceeds the converted value it pays out, nor the balance
      read for it. */
  lemma RequestsBounded(l: Ledger, truncate: real -> real, available: DepositId -> real)
    requires l.Valid()
    requires TruncSound(truncate)
    requires forall id | id in l.records :: l.records[id].amounts.value >= 0.0
    ensures forall q | q in Requests(l, l.ids, truncate, available) ::
              0.0 <= q.amount <= l.records[q.deposit].amounts.value
              && q.amount <= available(q.deposit)
  {
  }

  /** The exception `process_withdrawals` raises as written. */
  datatype Fault = NameError(name: string)

  /** `process_withdrawals` as written: the affordable branch formats a message
      with the undefined name `converted_value` before requesting the
      withdrawal, and the unaffordable branch formats one with the undefined
      name `amount`, so the first record awaiting payout aborts the loop. */
  function WithdrawFromAsWritten(l: Ledger, todo: seq<DepositId>, truncate: real -> real,
                                 available: DepositId -> real): (r: Result<Ledger, Fault>)
    requires forall i | 0 <= i < |todo| :: todo[i] in l.records
    ensures r.Success? <==> forall i | 0 <= i < |todo| :: !AwaitingWithdrawal(l.records[todo[i]])
    ensures r.Success? ==> r.value == l
    decreases |todo|
  {
    if todo == [] then Success(l)
    else
      var rec := l.records[todo[0]];
      if AwaitingWithdrawal(rec) then
        if Affordable(rec, truncate, available(todo[0])) then Failure(NameError("converted_value"))
        else Failure(NameError("amount"))
      else
        var r := WithdrawFromAsWritten(l, todo[1..], truncate, available);
        assert forall i | 1 <= i < |todo| :: todo[i] == todo[1..][i - 1];
        r
  }

  function ProcessWithdrawalsAsWritten(l: Ledger, truncate: real -> real,
                                       available: DepositId -> real): (r: Result<Ledger, Fault>)
    requires l.Valid()
    ensures r.Success? <==> forall id | id in l.records :: !AwaitingWithdrawal(l.records[id])
    ensures r.Success? ==> r.value == l
  {
    WithdrawFromAsWritten(l, l.ids, truncate, available)
  }

  /** A fully converted, confirmed deposit awaiting payout of 1, a balance of
      10, and an exchange that accepts the request: the corrected engine clears
      the flag, while the code as written raises `NameError` before any
      withdrawal is requested. */
  lemma AsWrittenNeverPaysOut()
    ensures var rec := Record(Confirmed, Amounts(1.0, 1.0, 1.0), [7], true);
            var l := Ledger(["d1"], map["d1" := rec]);
            var truncate := (x: real) => x;
            var available := (id: DepositId) => 10.0;
            var reply := (id: DepositId) => WithdrawalReply(3, PendingPreparation);
            && l.Valid()
            && ProcessWithdrawalsAsWritten(l, truncate, available) == Failure(NameError("converted_value"))
            && !ProcessWithdrawals(l, truncate, available, reply).records["d1"].pendingWithdrawal
  {
    var rec := Record(Confirmed, Amounts(1.0, 1.0, 1.0), [7], true);
    var l := Ledger(["d1"], map["d1" := rec]);
    var truncate := (x: real) => x;
    var available := (id: DepositId) => 10.0;
    assert l.ids[0] == "d1";
    assert WithdrawFromAsWritten(l, l.ids, truncate, available) == Failure(NameError("converted_value"));
  }
}
