/** What every run of store operations keeps: unique settlements, frozen PAID rows, payment before cancel, the outbox. */
module SettlementRuns {
  import opened Text
  import opened PayRecords
  import opened Webhooks
  import opened PayStore

  /** The store after one atomic operation; an operation that throws leaves it alone. */
  function Next(s: Store, op: Op): Store
  {
    match Run(s, op)
    case Kept(after, _) => after
    case Thrown(_) => s
  }

  function At(ops: seq<Op>, k: nat): Store
    requires k <= |ops|
  {
    if k == 0 then EMPTY_STORE else Next(At(ops, k - 1), ops[k - 1])
  }

  // ---------------------------------------------------------------- row invariants

  /** Payment before cancel, and the other facts every stored row keeps. */
  ghost predicate RowOk(row: PayRecord)
  {
    && (row.paidTx.Some? ==> !row.cancelled)
    && (row.paidTx.Some? && row.cancelledAtSeconds.Some? ==>
          row.paidBlockTimestamp.Some? && row.paidBlockTimestamp.value < row.cancelledAtSeconds.value)
    && (row.paidTx.None? && !row.cancelled ==> row.cancelledAtSeconds.None?)
    && |row.submittedHashes| <= MAX_SUBMITTED_HASHES
  }

  ghost predicate Unpaid(row: PayRecord)
  {
    row.paidTx.None? && !row.cancelled && row.cancelledAtSeconds.None? && |row.submittedHashes| <= MAX_SUBMITTED_HASHES
  }

  /** Registrations bring unpaid rows, and payment.paid rows come from settlements only. */
  ghost predicate Plain(op: Op)
  {
    (op.Create? || op.Upsert? ==> Unpaid(op.record)) && (op.Hook? ==> !op.op.Announce?)
  }

  /** A PAID row keeps its settlement and the request it settles. */
  ghost predicate Frozen(row: PayRecord, next: PayRecord)
  {
    next == row.(views := next.views, lastViewedAt := next.lastViewedAt, webhookUrl := next.webhookUrl, submittedHashes := next.submittedHashes)
  }

  ghost predicate Quiet(row: PayRecord, next: PayRecord)
  {
    && next.token == row.token && next.paidTx == row.paidTx
    && (row.paidTx.Some? ==> Frozen(row, next))
    && (row.paidTx.None? && row.cancelled ==> next.cancelled)
    && (row.lateSettlementTx.Some? ==> next.lateSettlementTx.Some?)
    && (RowOk(row) ==> RowOk(next))
  }

  ghost predicate Clash(a: PayRecord, b: PayRecord)
  {
    && a.paidTx.Some? && b.paidTx.Some?
    && (Same(a.paidTx.value, b.paidTx.value) || (IsV2RequestId(a.id) && IsV2RequestId(b.id) && Same(a.id, b.id)))
  }

  ghost predicate Unique(records: seq<PayRecord>)
  {
    forall i, j | 0 <= i < j < |records| :: !Clash(records[i], records[j])
  }

  ghost predicate RowsOk(records: seq<PayRecord>)
  {
    Keyed(records) && Unique(records) && forall i | 0 <= i < |records| :: RowOk(records[i])
  }

  // ---------------------------------------------------------------- the shape of one step

  lemma MergeIsQuiet(row: PayRecord, incoming: PayRecord)
    requires Unpaid(incoming)
    ensures Quiet(row, Merge(Some(row), incoming).(token := row.token)) && Merge(Some(row), incoming).token == row.token
  {
  }

  lemma CancelIsQuiet(row: PayRecord, command: CancelCommand, cancelledAt: string, clock: nat)
    ensures Quiet(row, Cancelling(row, command, cancelledAt, clock))
  {
    hide Lower;
  }

  lemma SubmitIsQuiet(row: PayRecord, hash: string)
    ensures Quiet(row, Submitted(row, hash))
  {
    hide Lower;
  }

  /** Every operation but a settlement changes at most one row, quietly, or appends an unpaid one. */
  ghost predicate QuietStep(before: seq<PayRecord>, after: seq<PayRecord>)
  {
    || after == before
    || (exists k, row :: 0 <= k < |before| && after == before[k := row] && Quiet(before[k], row))
    || (exists row :: after == before + [row] && Unpaid(row) && Find(before, row.token) == |before|)
  }

  lemma QuietChange(before: seq<PayRecord>, k: nat, row: PayRecord)
    requires k < |before| && Quiet(before[k], row)
    ensures QuietStep(before, before[k := row])
  {
  }

  lemma NonSettlementIsQuiet(s: Store, op: Op)
    requires Plain(op) && !op.Settle? && !op.SettleAndEnqueue?
    ensures QuietStep(s.records, Next(s, op).records)
  {
    hide Quiet, QuietStep, Find, Merge, NextCancelled, MayCancel, Submitted, Apply, Collides, OwnedBy, Lower, Frozen, RowOk;
    match op
    case Create(record, _, _, _) =>
      var k := Find(s.records, record.token);
      if k < |s.records| {
        MergeIsQuiet(s.records[k], record);
        SameToken(s.records[k], Merge(Some(s.records[k]), record));
        QuietChange(s.records, k, Merge(Some(s.records[k]), record));
      } else {
        Appended(s.records, record);
        Unchanged(s.records);
      }
    case Upsert(record) =>
      var k := Find(s.records, record.token);
      if k < |s.records| {
        MergeIsQuiet(s.records[k], record);
        SameToken(s.records[k], Merge(Some(s.records[k]), record));
        QuietChange(s.records, k, Merge(Some(s.records[k]), record));
      } else {
        MergeOfNone(record);
        Appended(s.records, record);
      }
    case View(token, at) =>
      var k := Find(s.records, token);
      if k < |s.records| {
        var row := s.records[k].(views := s.records[k].views + 1, lastViewedAt := Some(at));
        ViewIsQuiet(s.records[k], at);
        QuietChange(s.records, k, row);
      } else {
        Unchanged(s.records);
      }
    case Cancel(token, command, cancelledAt, clock) =>
      var k := Find(s.records, token);
      Unchanged(s.records);
      if k < |s.records| {
        CancelIsQuiet(s.records[k], command, cancelledAt, clock);
        QuietChange(s.records, k, Cancelling(s.records[k], command, cancelledAt, clock));
      }
    case Submit(token, hash) =>
      var k := Find(s.records, token);
      Unchanged(s.records);
      if k < |s.records| {
        SubmitIsQuiet(s.records[k], hash);
        QuietChange(s.records, k, Submitted(s.records[k], hash));
      }
    case _ => Unchanged(s.records);
  }

  lemma SameToken(row: PayRecord, next: PayRecord)
    requires next.token == row.token
    ensures next.(token := row.token) == next
  {
  }

  lemma ViewIsQuiet(row: PayRecord, at: string)
    ensures Quiet(row, row.(views := row.views + 1, lastViewedAt := Some(at)))
  {
  }

  lemma MergeOfNone(record: PayRecord)
    ensures Merge(None, record) == record
  {
  }

  lemma Appended(records: seq<PayRecord>, row: PayRecord)
    requires Unpaid(row) && Find(records, row.token) == |records|
    ensures QuietStep(records, records + [row])
  {
  }

  lemma Unchanged(records: seq<PayRecord>)
    ensures QuietStep(records, records)
  {
  }

  ghost predicate IsSettlement(op: Op)
  {
    op.Settle? || op.SettleAndEnqueue?
  }

  /** The operation moves its row to PAID. */
  ghost predicate Transitions(s: Store, op: Op)
  {
    IsSettlement(op) && SettleOn(s.records, op.token, op.proof).Settled? && SettleOn(s.records, op.token, op.proof).transitioned
  }

  /** A transition writes one unpaid row, whose transaction and request no other row has been paid with. */
  lemma {:induction false} TransitionShape(s: Store, op: Op)
    requires Keyed(s.records) && Transitions(s, op)
    ensures var k := Find(s.records, op.token);
            var record := SettleOn(s.records, op.token, op.proof).record;
            && k < |s.records| && s.records[k].paidTx.None?
            && NextPaid(s.records[k], op.proof) == Some(record) && record.paidTx == Some(op.proof.tx)
            && Next(s, op).records == s.records[k := record]
            && (forall i | 0 <= i < |s.records| && i != k ::
                  !PaidWith(s.records[i], op.proof.tx) && (op.proof.ProofV2? ==> !PaidFor(s.records[i], op.proof.requestId)))
  {
    hide Lower, Find, IsV2RequestId, IsSafe;
    var k := Find(s.records, op.token);
    assert forall i | 0 <= i < |s.records| && i != k :: s.records[i].token != op.token;
  }

  lemma OtherwiseQuiet(s: Store, op: Op)
    requires IsSettlement(op) && !Transitions(s, op)
    ensures QuietStep(s.records, Next(s, op).records)
  {
    hide Lower, Find, IsV2RequestId, IsSafe, TxUsed, RequestUsed, NextPaid, QuietStep, EnqueuePaid;
    var k := Find(s.records, op.token);
    Unchanged(s.records);
    if k < |s.records| && IsLateSettlement(s.records[k], op.proof) {
      QuietChange(s.records, k, s.records[k].(lateSettlementTx := Some(op.proof.tx)));
    }
  }

  // ---------------------------------------------------------------- the invariant

  lemma QuietKeepsRows(before: seq<PayRecord>, after: seq<PayRecord>)
    requires RowsOk(before) && QuietStep(before, after)
    ensures RowsOk(after)
  {
    hide IsV2RequestId, Lower;
    if after == before {
    } else if k, row :| 0 <= k < |before| && after == before[k := row] && Quiet(before[k], row) {
      QuietKeepsUnique(before, k, row);
    } else {
      var row :| after == before + [row] && Unpaid(row) && Find(before, row.token) == |before|;
      assert after[|before|] == row;
    }
  }

  lemma QuietKeepsUnique(before: seq<PayRecord>, k: nat, row: PayRecord)
    requires k < |before| && Unique(before) && Quiet(before[k], row)
    ensures Unique(before[k := row])
  {
    hide IsV2RequestId, Lower;
    var after := before[k := row];
    forall i, j | 0 <= i < j < |after| ensures !Clash(after[i], after[j]) {
      assert !Clash(before[i], before[j]);
    }
  }

  lemma PaidRowOk(row: PayRecord, proof: PaidProof)
    requires RowOk(row) && row.paidTx.None? && NextPaid(row, proof).Some?
    ensures var next := NextPaid(row, proof).value;
            && RowOk(next) && next.id == row.id && next.token == row.token && next.paidTx == Some(proof.tx)
            && (if proof.ProofV2? then Same(next.id, proof.requestId) else !IsV2RequestId(next.id))
  {
    hide IsV2RequestId, Lower;
  }

  lemma TransitionKeepsRows(s: Store, op: Op)
    requires RowsOk(s.records) && Transitions(s, op)
    ensures RowsOk(Next(s, op).records)
  {
    hide IsV2RequestId, Lower, NextPaid, Find, Next, SettleOn, RowOk;
    TransitionShape(s, op);
    var k := Find(s.records, op.token);
    var after := Next(s, op).records;
    PaidRowOk(s.records[k], op.proof);
    forall i, j | 0 <= i < j < |after| ensures !Clash(after[i], after[j]) {
      assert !Clash(s.records[i], s.records[j]);
    }
  }

  lemma {:induction false} StepKeepsRows(s: Store, op: Op)
    requires RowsOk(s.records) && Plain(op)
    ensures RowsOk(Next(s, op).records)
  {
    hide *;
    if Transitions(s, op) {
      TransitionKeepsRows(s, op);
    } else {
      StepIsQuiet(s, op);
      QuietKeepsRows(s.records, Next(s, op).records);
    }
  }

  lemma StepIsQuiet(s: Store, op: Op)
    requires Plain(op) && !Transitions(s, op)
    ensures QuietStep(s.records, Next(s, op).records)
  {
    hide Next, QuietStep, Transitions, Plain;
    if IsSettlement(op) {
      OtherwiseQuiet(s, op);
    } else {
      NonSettlementIsQuiet(s, op);
    }
  }

  ghost predicate AllPlain(ops: seq<Op>)
  {
    forall k | 0 <= k < |ops| :: Plain(ops[k])
  }

  lemma {:induction false} RowsStayOk(ops: seq<Op>, k: nat)
    requires AllPlain(ops) && k <= |ops|
    ensures RowsOk(At(ops, k).records)
    decreases k
  {
    hide Next, RowOk, Clash, Plain;
    if k > 0 {
      RowsStayOk(ops, k - 1);
      StepKeepsRows(At(ops, k - 1), ops[k - 1]);
    }
  }

  /**
    Settlement uniqueness. In every reachable store no two rows share a transaction, no two PAID
    rows share a V2 request id, and a PAID row is not cancelled and was mined before any cancel.
  */
  lemma {:induction false} SettlementsAreUnique(ops: seq<Op>, k: nat, i: nat, j: nat)
    requires AllPlain(ops) && k <= |ops| && i < |At(ops, k).records| && j < |At(ops, k).records|
    ensures var a, b := At(ops, k).records[i], At(ops, k).records[j];
            i != j && a.paidTx.Some? && b.paidTx.Some? ==>
              !Same(a.paidTx.value, b.paidTx.value) && !(IsV2RequestId(a.id) && IsV2RequestId(b.id) && Same(a.id, b.id))
    ensures var a := At(ops, k).records[i];
            a.paidTx.Some? ==>
              !a.cancelled
              && (a.cancelledAtSeconds.Some? ==>
                    a.paidBlockTimestamp.Some? && a.paidBlockTimestamp.value < a.cancelledAtSeconds.value)
    ensures |At(ops, k).records[i].submittedHashes| <= 3
  {
    hide At, IsV2RequestId, Lower;
    RowsStayOk(ops, k);
    var records := At(ops, k).records;
    assert RowOk(records[i]);
    if i < j { assert !Clash(records[i], records[j]); }
    if j < i { assert !Clash(records[j], records[i]); }
  }

  // ---------------------------------------------------------------- PAID is for good

  lemma StepFreezes(s: Store, op: Op, r: nat)
    requires RowsOk(s.records) && Plain(op) && r < |s.records|
    ensures r < |Next(s, op).records| && Next(s, op).records[r].token == s.records[r].token
    ensures s.records[r].paidTx.Some? ==> Frozen(s.records[r], Next(s, op).records[r])
  {
    hide Next, SettleOn, NextPaid, Transitions, RowOk, Plain, Clash, Unpaid;
    if Transitions(s, op) {
      TransitionShape(s, op);
      PaidToken(s, op);
    } else {
      StepIsQuiet(s, op);
    }
  }

  lemma PaidToken(s: Store, op: Op)
    requires Keyed(s.records) && Transitions(s, op)
    ensures SettleOn(s.records, op.token, op.proof).record.token == op.token
  {
    hide Lower, IsV2RequestId, IsSafe, SettleOn, Next;
    TransitionShape(s, op);
  }

  /** A PAID row keeps its place, its transaction, its block time and its request in every later store. */
  lemma {:induction false} PaidIsFrozen(ops: seq<Op>, i: nat, j: nat, r: nat)
    requires AllPlain(ops) && i <= j <= |ops| && r < |At(ops, i).records| && At(ops, i).records[r].paidTx.Some?
    ensures r < |At(ops, j).records| && Frozen(At(ops, i).records[r], At(ops, j).records[r])
    decreases j
  {
    hide Next, RowsOk, Plain;
    if i < j {
      PaidIsFrozen(ops, i, j - 1, r);
      RowsStayOk(ops, j - 1);
      StepFreezes(At(ops, j - 1), ops[j - 1], r);
    }
  }

  /** PAID is absorbing: whatever the clocks say, a row that was PAID is PAID. */
  lemma {:induction false} PaidPhaseStays(ops: seq<Op>, i: nat, j: nat, r: nat, now: int, later: int, expiresAt: Option<int>)
    requires AllPlain(ops) && i <= j <= |ops| && r < |At(ops, i).records|
    requires Phase(At(ops, i).records[r], now, expiresAt) == Paid
    ensures r < |At(ops, j).records| && Phase(At(ops, j).records[r], later, expiresAt) == Paid
  {
    hide At, Plain;
    PaidIsFrozen(ops, i, j, r);
  }

  /** Over a whole run a token moves to PAID at most once. */
  lemma {:induction false} AtMostOneTransition(ops: seq<Op>, i: nat, j: nat)
    requires AllPlain(ops) && i < j < |ops| && Transitions(At(ops, i), ops[i]) && Transitions(At(ops, j), ops[j])
    ensures ops[i].token != ops[j].token
  {
    hide Next, SettleOn, NextPaid, Clash, RowOk, Plain, Find;
    RowsStayOk(ops, i);
    RowsStayOk(ops, j);
    TransitionShape(At(ops, i), ops[i]);
    TransitionShape(At(ops, j), ops[j]);
    var r := Find(At(ops, i).records, ops[i].token);
    assert At(ops, i + 1) == Next(At(ops, i), ops[i]);
    PaidIsFrozen(ops, i + 1, j, r);
    PaidToken(At(ops, i), ops[i]);
    if ops[i].token == ops[j].token {
      FindAt(At(ops, j).records, r);
    }
  }

  lemma FindAt(records: seq<PayRecord>, r: nat)
    requires Keyed(records) && r < |records|
    ensures Find(records, records[r].token) == r
  {
  }

  // ---------------------------------------------------------------- payment before cancel, in either order

  /** A signed cancel at a time before the request expires, on a row that is open. */
  ghost predicate Cancels(s: Store, cancel: Op)
  {
    && cancel.Cancel? && cancel.command.CancelV2?
    && IsSafe(cancel.command.nowSeconds) && 0 <= cancel.command.nowSeconds < cancel.command.expiresAt
    && var k := Find(s.records, cancel.token);
       k < |s.records| && s.records[k].paidTx.None? && !s.records[k].cancelled && MayCancel(s.records[k], cancel.command)
  }

  function CancelledRow(row: PayRecord, cancel: Op): PayRecord
    requires cancel.Cancel? && cancel.command.CancelV2?
  {
    row.(cancelled := true, cancelledAt := Some(cancel.cancelledAt), cancelledAtSeconds := Some(cancel.command.nowSeconds))
  }

  lemma CancelWrites(s: Store, cancel: Op)
    requires Keyed(s.records) && Cancels(s, cancel)
    ensures var k := Find(s.records, cancel.token);
            Next(s, cancel).records == s.records[k := CancelledRow(s.records[k], cancel)]
            && Find(Next(s, cancel).records, cancel.token) == k && Keyed(Next(s, cancel).records)
  {
    hide Lower, Find, IsV2RequestId;
    var k := Find(s.records, cancel.token);
    FindAt(Next(s, cancel).records, k);
  }

  lemma SettleAfterCancel(s: Store, cancel: Op, settle: Op)
    requires Keyed(s.records) && Cancels(s, cancel) && Transitions(s, settle)
    requires settle.proof.ProofV2? && settle.token == cancel.token
    ensures var k := Find(s.records, cancel.token); var row := CancelledRow(s.records[k], cancel);
            var late := Next(Next(s, cancel), settle).records;
            late == if settle.proof.blockTimestamp < cancel.command.nowSeconds
                    then s.records[k := row.(paidTx := Some(settle.proof.tx), paidBlockTimestamp := Some(settle.proof.blockTimestamp),
                                             cancelled := false, cancelledAt := None)]
                    else s.records[k := row.(lateSettlementTx := Some(settle.proof.tx))]
  {
    hide Lower, Find, IsV2RequestId, IsSafe, EnqueuePaid, MayCancel, TxUsed, RequestUsed, Run, Keyed;
    var k, proof := Find(s.records, cancel.token), settle.proof;
    CancelWrites(s, cancel);
    TransitionShape(s, settle);
    var s1 := Next(s, cancel);
    NotUsed(s, s1, k, proof);
    SettleRecords(s1, settle);
  }

  /** Another row's use of a transaction or a request does not depend on this row. */
  lemma NotUsed(s: Store, s1: Store, k: nat, proof: PaidProof)
    requires k < |s.records| && |s1.records| == |s.records| && s1.records[k].token == s.records[k].token
    requires forall i | 0 <= i < |s.records| && i != k ::
      s1.records[i] == s.records[i] && !PaidWith(s.records[i], proof.tx) && (proof.ProofV2? ==> !PaidFor(s.records[i], proof.requestId))
    ensures !TxUsed(s1.records, s1.records[k].token, proof.tx) && !RequestUsed(s1.records, s1.records[k].token, proof)
  {
    hide Lower, PaidWith, PaidFor;
  }

  lemma SettleRecords(s: Store, op: Op)
    requires IsSettlement(op)
    ensures Next(s, op).records == SettledRecords(s.records, op.token, SettleOn(s.records, op.token, op.proof))
  {
    hide SettleOn, EnqueuePaid, SettledRecords;
  }

  /**
    A cancel at C and a proof mined at b for the same open request. If b < C both orders end PAID
    with the same transaction and not cancelled; they differ only in the recorded cancel time. If
    b >= C, the cancel that came first stands and the transaction is recorded as late.
  */
  lemma {:induction false} CancelAndSettleOrders(s: Store, cancel: Op, settle: Op)
    requires Keyed(s.records) && Cancels(s, cancel) && Transitions(s, settle)
    requires settle.proof.ProofV2? && settle.token == cancel.token
    ensures var k := Find(s.records, cancel.token);
            var paidFirst, cancelFirst := Next(Next(s, settle), cancel).records, Next(Next(s, cancel), settle).records;
            && |paidFirst| == |cancelFirst| == |s.records|
            && (forall i | 0 <= i < |s.records| && i != k :: paidFirst[i] == cancelFirst[i] == s.records[i])
            && paidFirst[k].paidTx == Some(settle.proof.tx) && !paidFirst[k].cancelled
            && (if settle.proof.blockTimestamp < cancel.command.nowSeconds
                then cancelFirst[k] == paidFirst[k].(cancelledAtSeconds := Some(cancel.command.nowSeconds), cancelledAt := None)
                else cancelFirst[k].paidTx == None && cancelFirst[k].cancelled
                     && cancelFirst[k].lateSettlementTx == Some(settle.proof.tx))
  {
    hide Lower, Find, IsV2RequestId, IsSafe, SettleOn, Keyed;
    SettleAfterCancel(s, cancel, settle);
    TransitionShape(s, settle);
    PaidIgnoresCancel(s, cancel, settle);
  }

  lemma PaidIgnoresCancel(s: Store, cancel: Op, settle: Op)
    requires Keyed(s.records) && cancel.Cancel? && Transitions(s, settle) && settle.token == cancel.token
    ensures Next(Next(s, settle), cancel).records == Next(s, settle).records
  {
    hide Lower, Find, IsV2RequestId, IsSafe, SettleOn, SettledStore, NextPaid, MayCancel;
    TransitionShape(s, settle);
    PaidToken(s, settle);
    var k := Find(s.records, settle.token);
    var after := Next(s, settle);
    FindAt(after.records, k);
  }
}
