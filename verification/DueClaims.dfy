/**
  When a claim wins, over every run: what a stored row says about its lease and its schedule is what
  the claims and finalizes of the run made it say.
*/
module DueClaims {
  import opened Text
  import opened Webhooks
  import opened LeaseRuns

  /** Operation `m` is the last finalize before `k` that wrote this row. */
  ghost predicate LastFinalize(ops: seq<HookOp>, m: nat, k: nat, id: string)
    requires k <= |ops|
  {
    m < k && ops[m].Finalize? && Finalizes(ops, m, id) && forall j: nat | m < j < k :: !Finalizes(ops, j, id)
  }

  ghost predicate NoFinalize(ops: seq<HookOp>, k: nat, id: string)
    requires k <= |ops|
  {
    forall m: nat | m < k :: !Finalizes(ops, m, id)
  }

  // ---------------------------------------------------------------- the schedule

  /** The row is as it was enqueued, or carries the status and the next time of its last finalize. */
  ghost predicate Scheduled(ops: seq<HookOp>, k: nat, id: string)
    requires k <= |ops| && id in After(ops, k)
  {
    var row := After(ops, k)[id];
    && (NoFinalize(ops, k, id) ==> row.status == Pending && row.nextRetryAt.None?)
    && (forall m: nat | LastFinalize(ops, m, k, id) :: row.status == ops[m].patch.status && row.nextRetryAt == ops[m].patch.nextRetryAt)
  }

  lemma NewRowIsPending(ops: seq<HookOp>, k: nat, id: string)
    requires Legal(ops) && 0 < k <= |ops| && Enqueues(ops[k - 1]) && ops[k - 1].id == id && id in After(ops, k)
    ensures After(ops, k)[id].status == Pending && After(ops, k)[id].nextRetryAt.None?
    ensures NoFinalize(ops, k, id)
  {
    hide Legal, Apply;
    RowsStayOk(ops, k - 1);
    if id in After(ops, k - 1) {
      var e :| 0 <= e < k - 1 && Enqueues(ops[e]) && ops[e].id == id;
      IdUsedOnce(ops, e, k - 1);
    }
    NewRow(After(ops, k - 1), ops[k - 1], id);
    forall m: nat | m < k ensures !Finalizes(ops, m, id) {
      if Finalizes(ops, m, id) {
        RowsStayOk(ops, m);
        var e :| 0 <= e < m && Enqueues(ops[e]) && ops[e].id == id;
        IdUsedOnce(ops, e, k - 1);
      }
    }
  }

  lemma NewRow(d: Deliveries, op: HookOp, id: string)
    requires Enqueues(op) && op.id == id && id !in d && id in Apply(d, op)
    ensures Apply(d, op)[id].status == Pending && Apply(d, op)[id].nextRetryAt.None?
  {
    hide HasFor, HasFirst;
  }

  lemma {:induction false} ScheduleIsItsHistory(ops: seq<HookOp>, k: nat, id: string)
    requires Legal(ops) && k <= |ops| && id in After(ops, k)
    ensures Scheduled(ops, k, id)
    decreases k, 1
  {
    hide Legal, Apply, Finalizes, Enqueues;
    if k > 0 {
      if Enqueues(ops[k - 1]) && ops[k - 1].id == id {
        NewRowIsPending(ops, k, id);
      } else {
        ScheduleStep(ops, k, id);
      }
    }
  }

  lemma {:induction false} ScheduleStep(ops: seq<HookOp>, k: nat, id: string)
    requires Legal(ops) && 0 < k <= |ops| && id in After(ops, k) && !(Enqueues(ops[k - 1]) && ops[k - 1].id == id)
    ensures Scheduled(ops, k, id)
    decreases k, 0
  {
    hide Legal, Apply, Enqueues, IsDue;
    var d := After(ops, k - 1);
    RowSteps(d, ops[k - 1], id);
    ScheduleIsItsHistory(ops, k - 1, id);
    if Finalizes(ops, k - 1, id) {
      assert LastFinalize(ops, k - 1, k, id);
    } else {
      assert NoFinalize(ops, k, id) ==> NoFinalize(ops, k - 1, id);
      assert forall m: nat | LastFinalize(ops, m, k, id) :: LastFinalize(ops, m, k - 1, id);
    }
  }

  // ---------------------------------------------------------------- the lease

  /** Some claim that is still the latest holds the row beyond `now`. */
  ghost predicate LeaseStands(ops: seq<HookOp>, k: nat, id: string, now: int)
    requires k <= |ops|
  {
    exists i: nat :: i < k && LatestClaim(ops, i, k, id) && ops[i].now + 60 > now
  }

  /** A latest claim is on the row, with its minute. */
  lemma {:induction false} LatestIsOnTheRow(ops: seq<HookOp>, i: nat, k: nat, id: string)
    requires Legal(ops) && i < k <= |ops| && LatestClaim(ops, i, k, id) && id in After(ops, k)
    ensures After(ops, k)[id].leaseOwner.Some? && After(ops, k)[id].leaseExpiresAt == Some(ops[i].now + 60)
    decreases k
  {
    hide IsDue, Apply, Seen;
    if Enqueues(ops[k - 1]) && i < k - 1 { IdUsedOnce(ops, i, k - 1); }
    RowSteps(After(ops, k - 1), ops[k - 1], id);
    if i + 1 < k {
      assert !Claims(ops, k - 1, id) && !Finalizes(ops, k - 1, id);
      LatestIsOnTheRow(ops, i, k - 1, id);
    }
  }

  lemma LeaseIsItsHistory(ops: seq<HookOp>, k: nat, id: string, now: int)
    requires Legal(ops) && k <= |ops| && id in After(ops, k)
    ensures LeaseActive(After(ops, k)[id], now) <==> LeaseStands(ops, k, id, now)
  {
    hide Legal, After, Claims, Finalizes;
    if LeaseActive(After(ops, k)[id], now) {
      OwnerHasItsClaim(ops, k, id);
      var i: nat :| i < k && LatestClaim(ops, i, k, id);
      LatestIsOnTheRow(ops, i, k, id);
    }
    if i: nat :| i < k && LatestClaim(ops, i, k, id) && ops[i].now + 60 > now {
      LatestIsOnTheRow(ops, i, k, id);
    }
  }

  // ---------------------------------------------------------------- the claim

  /** Nothing was written since it was enqueued, or the last finalize set a next time that has come. */
  ghost predicate ScheduleReached(ops: seq<HookOp>, k: nat, id: string, now: int)
    requires k <= |ops|
  {
    || NoFinalize(ops, k, id)
    || exists m: nat :: LastFinalize(ops, m, k, id) && ops[m].patch.status == Retrying
                        && ops[m].patch.nextRetryAt.Some? && ops[m].patch.nextRetryAt.value <= now
  }

  /**
    Over every run, a claim of a stored row wins if and only if no other claimer's minute stands and
    its schedule has been reached: never before the time that the last attempt set.
  */
  lemma {:induction false} ClaimWinsExactly(ops: seq<HookOp>, k: nat, id: string)
    requires Legal(ops) && k < |ops| && ops[k].Claim? && ops[k].id == id && id in After(ops, k)
    ensures Claims(ops, k, id) <==> !LeaseStands(ops, k, id, ops[k].now) && ScheduleReached(ops, k, id, ops[k].now)
  {
    hide After, Finalizes, LatestClaim, LeaseActive, Enqueues;
    LeaseIsItsHistory(ops, k, id, ops[k].now);
    ScheduleIsItsHistory(ops, k, id);
    if !NoFinalize(ops, k, id) {
      var m := FindLast(ops, k, id);
      assert LastFinalize(ops, m, k, id);
    }
  }

  lemma {:induction false} FindLast(ops: seq<HookOp>, k: nat, id: string) returns (m: nat)
    requires k <= |ops| && !NoFinalize(ops, k, id)
    ensures LastFinalize(ops, m, k, id)
    decreases k
  {
    hide After;
    if Finalizes(ops, k - 1, id) {
      m := k - 1;
    } else {
      m := FindLast(ops, k - 1, id);
    }
  }

  /** What a winning claim does: the row is leased to the token for a minute, and nothing else changes. */
  lemma WinningClaimLeases(ops: seq<HookOp>, k: nat, id: string)
    requires Claims(ops, k, id) && ops[k].Claim?
    ensures var before, after := After(ops, k), After(ops, k + 1);
            && id in before && after == before[id := after[id]]
            && after[id] == before[id].(leaseOwner := Some(ops[k].token), leaseExpiresAt := Some(ops[k].now + 60))
  {
    hide IsDue;
  }

  // ---------------------------------------------------------------- what the other operations do to the rows

  /** An enqueue adds its row unless one for the event, endpoint and attempt is there; only old rows of the same endpoint are pruned. */
  lemma EnqueuesExactly(d: Deliveries, row: Delivery, dropped: set<string>)
    requires row.deliveryId !in d
    ensures var after := Enqueued(d, row, dropped);
            if exists id :: id in d && d[id].eventId == row.eventId && d[id].webhookId == row.webhookId && (row.attempt == 1 || d[id].attempt == row.attempt)
            then after == d
            else
              && (row.deliveryId !in dropped ==> row.deliveryId in after && after[row.deliveryId] == row)
              && (forall id | id in after && id != row.deliveryId :: id in d && after[id] == d[id])
              && (forall id | id in d && id !in after :: id in dropped && d[id].webhookId == row.webhookId)
              && (forall id | id in d && id in dropped && d[id].webhookId == row.webhookId :: id !in after)
  {
  }

  /** A finalize that writes ends the lease, records what its patch says, and changes nothing else of the row or of any other. */
  lemma FinalizesExactly(ops: seq<HookOp>, k: nat, id: string)
    requires Finalizes(ops, k, id) && ops[k].Finalize?
    ensures var before, after, p := After(ops, k), After(ops, k + 1), ops[k].patch;
            && id in before && after == before[id := after[id]]
            && after[id].leaseOwner.None? && after[id].leaseExpiresAt.None?
            && after[id].status == p.status && after[id].nextRetryAt == p.nextRetryAt
            && after[id].httpStatus == (if p.httpStatus.Some? then p.httpStatus.value else before[id].httpStatus)
            && after[id].attemptedAt == (if p.attemptedAt.Some? then p.attemptedAt.value else before[id].attemptedAt)
            && after[id].error == (if p.error.Some? then p.error.value else before[id].error)
            && after[id].deliveryId == before[id].deliveryId && after[id].eventId == before[id].eventId
            && after[id].webhookId == before[id].webhookId && after[id].merchant == before[id].merchant
            && after[id].attempt == before[id].attempt && after[id].createdAt == before[id].createdAt && after[id].body == before[id].body
  {
    hide IsDue;
  }
}
