/** Which answer a settlement gets, and exactly why: the accepted proofs, the written row, and each refusal. */
module SettlementAnswers {
  import opened Text
  import opened PayRecords
  import opened PayStore
  import opened SettlementRuns

  // ---------------------------------------------------------------- the conditions

  /** Row `k` is the one stored under the token. */
  predicate IsRow(records: seq<PayRecord>, k: int, token: string)
  {
    0 <= k < |records| && records[k].token == token
  }

  /** The proof pays this open or cancelled request, in time. */
  predicate Payable(row: PayRecord, proof: PaidProof)
  {
    match proof
    case ProofV1(_) => !IsV2RequestId(row.id) && !row.cancelled
    case ProofV2(_, requestId, at, expiresAt) =>
      && IsV2RequestId(row.id) && Same(row.id, requestId)
      && IsSafe(at) && IsSafe(expiresAt) && 0 <= at < expiresAt
      && (row.cancelled ==> row.cancelledAtSeconds.Some? && IsSafe(row.cancelledAtSeconds.value) && at < row.cancelledAtSeconds.value)
  }

  /** The proof is for this cancelled request and in time for its expiry, but not known to come before the cancel. */
  predicate TooLate(row: PayRecord, proof: PaidProof)
  {
    && row.cancelled && proof.ProofV2? && IsV2RequestId(row.id) && Same(row.id, proof.requestId)
    && IsSafe(proof.blockTimestamp) && IsSafe(proof.expiresAt) && proof.blockTimestamp < proof.expiresAt
    && !(row.cancelledAtSeconds.Some? && IsSafe(row.cancelledAtSeconds.value) && proof.blockTimestamp < row.cancelledAtSeconds.value)
  }

  /** Another row carries the transaction. */
  ghost predicate Spent(records: seq<PayRecord>, token: string, tx: string)
  {
    exists i :: 0 <= i < |records| && records[i].token != token && records[i].paidTx.Some? && Same(records[i].paidTx.value, tx)
  }

  /** Another PAID row carries the V2 request of the proof. */
  ghost predicate Answered(records: seq<PayRecord>, token: string, proof: PaidProof)
  {
    proof.ProofV2?
    && exists i :: 0 <= i < |records| && records[i].token != token && records[i].paidTx.Some?
                   && IsV2RequestId(records[i].id) && Same(records[i].id, proof.requestId)
  }

  /** The row after the payment: every field is the old one but for the four that record it. */
  predicate PaidRow(row: PayRecord, next: PayRecord, proof: PaidProof)
  {
    && next.paidTx == Some(proof.tx) && !next.cancelled
    && next.paidBlockTimestamp == (if proof.ProofV2? then Some(proof.blockTimestamp) else row.paidBlockTimestamp)
    && next.cancelledAt == (if row.cancelled then None else row.cancelledAt)
    && next.token == row.token && next.id == row.id && next.to == row.to && next.amount == row.amount && next.memo == row.memo
    && next.createdAt == row.createdAt && next.views == row.views && next.lastViewedAt == row.lastViewedAt
    && next.cancelledAtSeconds == row.cancelledAtSeconds && next.submittedHashes == row.submittedHashes
    && next.lateSettlementTx == row.lateSettlementTx && next.webhookUrl == row.webhookUrl
  }

  // ---------------------------------------------------------------- the answers

  lemma UsedMeans(records: seq<PayRecord>, token: string, proof: PaidProof)
    ensures TxUsed(records, token, proof.tx) <==> Spent(records, token, proof.tx)
    ensures RequestUsed(records, token, proof) <==> Answered(records, token, proof)
  {
    hide Lower, IsV2RequestId, Same;
    if i :| 0 <= i < |records| && records[i].token != token && PaidWith(records[i], proof.tx) {}
    if i :| 0 <= i < |records| && records[i].token != token && records[i].paidTx.Some? && Same(records[i].paidTx.value, proof.tx) {
      assert PaidWith(records[i], proof.tx);
    }
    if proof.ProofV2? {
      if i :| 0 <= i < |records| && records[i].token != token && PaidFor(records[i], proof.requestId) {}
      if i :| 0 <= i < |records| && records[i].token != token && records[i].paidTx.Some?
              && IsV2RequestId(records[i].id) && Same(records[i].id, proof.requestId)
      {
        assert PaidFor(records[i], proof.requestId);
      }
    }
  }

  lemma PayableRow(row: PayRecord, proof: PaidProof)
    requires row.paidTx.None?
    ensures NextPaid(row, proof).Some? <==> Payable(row, proof)
    ensures NextPaid(row, proof).Some? ==> PaidRow(row, NextPaid(row, proof).value, proof)
    ensures IsLateSettlement(row, proof) <==> TooLate(row, proof)
  {
    hide IsV2RequestId, Same;
  }

  /** The row a token names is unique, and `Find` finds it. */
  lemma FoundRow(records: seq<PayRecord>, token: string)
    requires Keyed(records)
    ensures var k := Find(records, token);
            if k < |records| then forall i :: IsRow(records, i, token) <==> i == k else forall i :: !IsRow(records, i, token)
  {
  }

  /**
    The exact answers of a settlement on a keyed store. The row moves to PAID if and only if it is
    stored and unpaid, no other row carries the transaction or, being PAID, the request, and the proof
    pays it in time; the written row is the old one with the payment recorded. Paying again with the
    same transaction is accepted and moves nothing.
  */
  lemma {:induction false} SettlesExactly(records: seq<PayRecord>, token: string, proof: PaidProof)
    requires Keyed(records)
    ensures var r := SettleOn(records, token, proof);
            (r.Settled? && r.transitioned) <==>
              exists k :: IsRow(records, k, token) && records[k].paidTx.None? && !Spent(records, token, proof.tx)
                          && !Answered(records, token, proof) && Payable(records[k], proof)
    ensures var r := SettleOn(records, token, proof);
            (r.Settled? && !r.transitioned) <==>
              exists k :: IsRow(records, k, token) && records[k].paidTx.Some? && Same(records[k].paidTx.value, proof.tx)
    ensures var r := SettleOn(records, token, proof);
            forall k | IsRow(records, k, token) && r.Settled? ::
              if r.transitioned then PaidRow(records[k], r.record, proof) else r.record == records[k]
  {
    hide Lower, IsV2RequestId, Same, Find, TxUsed, RequestUsed, NextPaid, IsLateSettlement, Spent, Answered, Payable, TooLate, Keyed;
    var k := Find(records, token);
    FoundRow(records, token);
    UsedMeans(records, token, proof);
    if k < |records| {
      assert IsRow(records, k, token);
      SameTwice(proof.tx);
      if records[k].paidTx.None? { PayableRow(records[k], proof); }
    }
  }

  lemma SameTwice(tx: string)
    ensures Same(tx, tx)
  {
  }

  /**
    And the refusals: the token is unknown; the row is PAID with another transaction; another row
    carries the transaction; another PAID row carries the request; the proof is too late for the
    cancel; or it does not pay the request at all. Each one exactly when none before it applies.
  */
  lemma {:induction false} RefusesExactly(records: seq<PayRecord>, token: string, proof: PaidProof)
    requires Keyed(records)
    ensures var r := SettleOn(records, token, proof);
            && (r == Refused(NotFound, None) <==> forall k :: !IsRow(records, k, token))
            && forall k | IsRow(records, k, token) ::
                 var row := records[k];
                 && (r == Refused(AlreadyPaidDifferent, Some(row)) <==> row.paidTx.Some? && !Same(row.paidTx.value, proof.tx))
                 && (r == Refused(SettlementUsed, Some(row)) <==> row.paidTx.None? && Spent(records, token, proof.tx))
                 && (r == Refused(DuplicateRequest, Some(row)) <==>
                       row.paidTx.None? && !Spent(records, token, proof.tx) && Answered(records, token, proof))
                 && (r == Refused(LateSettlement, Some(row.(lateSettlementTx := Some(proof.tx)))) <==>
                       row.paidTx.None? && !Spent(records, token, proof.tx) && !Answered(records, token, proof) && TooLate(row, proof))
                 && (r == Refused(Rejected, Some(row)) <==>
                       row.paidTx.None? && !Spent(records, token, proof.tx) && !Answered(records, token, proof)
                       && !Payable(row, proof) && !TooLate(row, proof))
  {
    hide Lower, IsV2RequestId, Same, Find, TxUsed, RequestUsed, NextPaid, IsLateSettlement, Spent, Answered, Payable, TooLate, Keyed;
    var k := Find(records, token);
    FoundRow(records, token);
    UsedMeans(records, token, proof);
    if k < |records| {
      assert IsRow(records, k, token);
      SameTwice(proof.tx);
      if records[k].paidTx.None? {
        PayableRow(records[k], proof);
        NotBoth(records[k], proof);
      }
    }
  }

  lemma NotBoth(row: PayRecord, proof: PaidProof)
    ensures !(Payable(row, proof) && TooLate(row, proof))
  {
    hide IsV2RequestId, Same;
  }

  /** What a settlement leaves in the store: exactly the paid row or the late mark, in place. */
  lemma {:induction false} SettlementWrites(s: Store, op: Op)
    requires Keyed(s.records) && IsSettlement(op)
    ensures var r, after := SettleOn(s.records, op.token, op.proof), Next(s, op).records;
            && |after| == |s.records|
            && forall k | 0 <= k < |s.records| ::
                 after[k] == if s.records[k].token != op.token then s.records[k]
                             else if r.Settled? then r.record
                             else if r.code == LateSettlement then s.records[k].(lateSettlementTx := Some(op.proof.tx))
                             else s.records[k]
  {
    hide Lower, IsV2RequestId, Same, Find, Spent, Answered, Payable, TooLate, Keyed, SettleOn, Next;
    FoundRow(s.records, op.token);
    SettleRecords(s, op);
    SettlesExactly(s.records, op.token, op.proof);
    RefusesExactly(s.records, op.token, op.proof);
    var k := Find(s.records, op.token);
    if k < |s.records| { assert IsRow(s.records, k, op.token); }
    forall i | 0 <= i < |s.records| && s.records[i].token == op.token ensures i == k { assert IsRow(s.records, i, op.token); }
  }

  /** A settlement leaves every other section alone, and the deliveries too unless it enqueues a transition. */
  lemma SettlementSections(s: Store, op: Op)
    requires IsSettlement(op)
    ensures Next(s, op).others == s.others
    ensures !(op.SettleAndEnqueue? && Transitions(s, op)) ==> Next(s, op).webhooks == s.webhooks
    ensures Hooks(Next(s, op)).endpoints == Hooks(s).endpoints
  {
    hide SettleOn, SettledRecords, EnqueuePaid;
  }
}
