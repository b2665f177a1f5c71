/**
  The webhook delivery rows of the store and the lease protocol over them, src/lib/webhooks.ts.
  Times are unix seconds. An HTTP result is an input; tokens and ids are inputs that a run takes fresh.
*/
module Webhooks {
  import opened Text

  const WEBHOOK_MAX_ATTEMPTS: nat := 5
  const WEBHOOK_CLAIM_LEASE_SECONDS: int := 60

  datatype DeliveryStatus = Pending | Success | Failed | Retrying

  /** The id of a payment.paid event is a digest of the request and the transaction; every other id is random. */
  datatype EventId = PaidEvent(request: string, tx: string) | RandomEvent(id: string)

  datatype Delivery = Delivery(deliveryId: string, eventId: EventId, webhookId: string, merchant: string, attempt: nat,
                               status: DeliveryStatus, httpStatus: Option<int>, createdAt: int, attemptedAt: Option<int>,
                               nextRetryAt: Option<int>, error: Option<string>, body: string,
                               leaseOwner: Option<string>, leaseExpiresAt: Option<int>)

  type Deliveries = map<string, Delivery>

  function NewDelivery(id: string, eventId: EventId, webhookId: string, merchant: string, attempt: nat, now: int, body: string): Delivery
  {
    Delivery(id, eventId, webhookId, merchant, attempt, Pending, None, now, None, None, None, body, None, None)
  }

  // ---------------------------------------------------------------- pure rules

  function RetryDelay(failedAttempt: nat): Option<int>
  {
    match failedAttempt
    case 1 => Some(60)
    case 2 => Some(300)
    case 3 => Some(900)
    case 4 => Some(3600)
    case _ => None
  }

  predicate LeaseActive(row: Delivery, now: int)
  {
    row.leaseOwner.Some? && row.leaseExpiresAt.Some? && row.leaseExpiresAt.value > now
  }

  predicate IsDue(row: Delivery, now: int)
  {
    && !LeaseActive(row, now)
    && match row.status
       case Pending => row.nextRetryAt.None? || row.nextRetryAt.value <= now
       case Retrying => row.nextRetryAt.Some? && row.nextRetryAt.value <= now
       case _ => false
  }

  datatype Verdict = Delivered | Retryable | Permanent

  function Classify(httpStatus: Option<int>, networkError: bool): Verdict
  {
    if networkError || httpStatus.None? then Retryable
    else if 200 <= httpStatus.value < 300 then Delivered
    else if httpStatus.value == 408 || httpStatus.value == 429 then Retryable
    else if 500 <= httpStatus.value <= 599 then Retryable
    else Permanent
  }

  /** The fields a finalize overwrites; an outer None leaves the field alone. */
  datatype Patch = Patch(status: DeliveryStatus, httpStatus: Option<Option<int>>, attemptedAt: Option<Option<int>>,
                         nextRetryAt: Option<int>, error: Option<Option<string>>)

  function Or<T>(change: Option<T>, present: T): T
  {
    if change.Some? then change.value else present
  }

  /** What `deliverOnce` writes back after the HTTP result of this attempt. */
  function ResultPatch(attempt: nat, httpStatus: Option<int>, networkError: bool, error: Option<string>, now: int): Patch
  {
    var verdict := Classify(httpStatus, networkError);
    var delay := RetryDelay(attempt);
    var status :=
      if verdict == Delivered then Success else if verdict == Retryable && delay.Some? then Retrying else Failed;
    Patch(status, Some(httpStatus), Some(Some(now)),
          if status == Retrying then Some(now + delay.value) else None, Some(error))
  }

  /** The waits between the five attempts. */
  const BACKOFF: seq<int> := [60, 300, 900, 3600]

  /** What the HTTP result of an attempt leads to: success for a 2xx, a retry after the attempt's wait where one helps, failure otherwise. */
  lemma {:induction false} RetriesExactly(attempt: nat, httpStatus: Option<int>, networkError: bool, error: Option<string>, now: int)
    ensures var p := ResultPatch(attempt, httpStatus, networkError, error, now);
            && (p.status == Success <==> !networkError && httpStatus.Some? && 200 <= httpStatus.value <= 299)
            && (p.status == Retrying <==>
                  1 <= attempt < WEBHOOK_MAX_ATTEMPTS
                  && (networkError || httpStatus.None? || httpStatus.value in {408, 429} || 500 <= httpStatus.value <= 599))
            && p.nextRetryAt == (if p.status == Retrying then Some(now + BACKOFF[attempt - 1]) else None)
            && p.status != Pending
            && p.httpStatus == Some(httpStatus) && p.attemptedAt == Some(Some(now)) && p.error == Some(error)
  {
  }

  // ---------------------------------------------------------------- atomic steps on the rows

  predicate HasFor(d: Deliveries, eventId: EventId, webhookId: string, attempt: nat)
  {
    exists id :: id in d && d[id].eventId == eventId && d[id].webhookId == webhookId && (attempt == 1 || d[id].attempt == attempt)
  }

  /** Pruning may drop rows of the one endpoint; which ones depends on their age. */
  function Pruned(d: Deliveries, webhookId: string, dropped: set<string>): Deliveries
  {
    map id | id in d && !(id in dropped && d[id].webhookId == webhookId) :: d[id]
  }

  datatype HookOp =
    | Emit(id: string, event: string, webhookId: string, merchant: string, body: string, now: int, dropped: set<string>)
    | Announce(id: string, request: string, tx: string, webhookId: string, merchant: string, body: string, now: int)
    | Retry(id: string, prior: Delivery, now: int, dropped: set<string>)
    | Claim(id: string, token: string, now: int)
    | Finalize(id: string, token: string, patch: Patch)

  /** A settlement looks only for a first-attempt row of the event, and does not prune. */
  predicate HasFirst(d: Deliveries, eventId: EventId, webhookId: string)
  {
    exists id :: id in d && d[id].eventId == eventId && d[id].webhookId == webhookId && d[id].attempt == 1
  }

  function Announced(d: Deliveries, row: Delivery): Deliveries
  {
    if HasFirst(d, row.eventId, row.webhookId) then d else d[row.deliveryId := row]
  }

  function Enqueued(d: Deliveries, row: Delivery, dropped: set<string>): Deliveries
  {
    if HasFor(d, row.eventId, row.webhookId, row.attempt) then d
    else Pruned(d[row.deliveryId := row], row.webhookId, dropped)
  }

  /** The row a retry enqueues: the next attempt of the same event, unless the attempts are used up. */
  function RetryRow(op: HookOp): Option<Delivery>
    requires op.Retry?
  {
    if op.prior.attempt + 1 > WEBHOOK_MAX_ATTEMPTS then None
    else Some(NewDelivery(op.id, op.prior.eventId, op.prior.webhookId, op.prior.merchant, op.prior.attempt + 1, op.now, op.prior.body))
  }

  predicate Wins(d: Deliveries, op: HookOp)
  {
    op.Claim? && op.id in d && IsDue(d[op.id], op.now)
  }

  predicate Settles(d: Deliveries, op: HookOp)
  {
    op.Finalize? && op.id in d && d[op.id].leaseOwner == Some(op.token)
  }

  function Leased(row: Delivery, token: string, now: int): Delivery
  {
    row.(leaseOwner := Some(token), leaseExpiresAt := Some(now + WEBHOOK_CLAIM_LEASE_SECONDS))
  }

  function Finalized(row: Delivery, patch: Patch): Delivery
  {
    row.(status := patch.status, httpStatus := Or(patch.httpStatus, row.httpStatus),
         attemptedAt := Or(patch.attemptedAt, row.attemptedAt), nextRetryAt := patch.nextRetryAt,
         error := Or(patch.error, row.error), leaseOwner := None, leaseExpiresAt := None)
  }

  function Apply(d: Deliveries, op: HookOp): Deliveries
  {
    match op
    case Emit(id, event, webhookId, merchant, body, now, dropped) =>
      Enqueued(d, NewDelivery(id, RandomEvent(event), webhookId, merchant, 1, now, body), dropped)
    case Announce(id, request, tx, webhookId, merchant, body, now) =>
      Announced(d, NewDelivery(id, PaidEvent(request, tx), webhookId, merchant, 1, now, body))
    case Retry(_, _, _, dropped) =>
      var row := RetryRow(op);
      if row.None? then d else Enqueued(d, row.value, dropped)
    case Claim(id, token, now) =>
      if Wins(d, op) then d[id := Leased(d[id], token, now)] else d
    case Finalize(id, token, patch) =>
      if Settles(d, op) then d[id := Finalized(d[id], patch)] else d
  }

  // ---------------------------------------------------------------- the mutators, in place

  /** `store.webhooks.deliveries` inside one store mutation. */
  class DeliverySection {
    var deliveries: Deliveries

    constructor (d: Deliveries)
      ensures deliveries == d
    {
      deliveries := d;
    }

    /** `hasDeliveryForEventEndpoint`. */
    method HasDelivery(eventId: EventId, webhookId: string, attempt: nat) returns (found: bool)
      ensures found == HasFor(deliveries, eventId, webhookId, attempt)
    {
      var rest := deliveries.Keys;
      while rest != {}
        invariant rest <= deliveries.Keys
        invariant forall id | id in deliveries && id !in rest ::
          !(deliveries[id].eventId == eventId && deliveries[id].webhookId == webhookId && (attempt == 1 || deliveries[id].attempt == attempt))
        decreases rest
      {
        var id :| id in rest;
        var row := deliveries[id];
        if row.eventId == eventId && row.webhookId == webhookId && (attempt == 1 || row.attempt == attempt) { return true; }
        rest := rest - {id};
      }
      return false;
    }

    /** The mutation of `enqueuePendingDelivery`. */
    method Enqueue(row: Delivery, dropped: set<string>) returns (inserted: Option<Delivery>)
      modifies this
      ensures deliveries == Enqueued(old(deliveries), row, dropped)
      ensures inserted == if HasFor(old(deliveries), row.eventId, row.webhookId, row.attempt) then None else Some(row)
    {
      var found := HasDelivery(row.eventId, row.webhookId, row.attempt);
      if found { return None; }
      deliveries := deliveries[row.deliveryId := row];
      deliveries := Pruned(deliveries, row.webhookId, dropped);
      return Some(row);
    }

    /** The mutation of `claimDelivery`. */
    method ClaimDelivery(id: string, token: string, now: int) returns (claimed: Option<Delivery>)
      modifies this
      ensures deliveries == Apply(old(deliveries), Claim(id, token, now))
      ensures claimed.Some? <==> Wins(old(deliveries), Claim(id, token, now))
      ensures claimed.Some? ==> claimed.value == deliveries[id]
    {
      if id !in deliveries || !IsDue(deliveries[id], now) { return None; }
      var next := deliveries[id].(leaseOwner := Some(token), leaseExpiresAt := Some(now + WEBHOOK_CLAIM_LEASE_SECONDS));
      deliveries := deliveries[id := next];
      return Some(next);
    }

    /** The mutation of `finalizeClaimedDelivery`. */
    method FinalizeDelivery(id: string, token: string, patch: Patch) returns (out: Option<Delivery>)
      modifies this
      ensures deliveries == Apply(old(deliveries), Finalize(id, token, patch))
      ensures out.Some? <==> Settles(old(deliveries), Finalize(id, token, patch))
      ensures out.Some? ==> out.value == deliveries[id]
    {
      if id !in deliveries || deliveries[id].leaseOwner != Some(token) { return None; }
      deliveries := deliveries[id := Finalized(deliveries[id], patch)];
      return Some(deliveries[id]);
    }
  }
}

/** Every run of emits, retries, claims and finalizes over one store, in the order they commit. */
module LeaseRuns {
  import opened Text
  import opened Webhooks

  function After(ops: seq<HookOp>, k: nat): Deliveries
    requires k <= |ops|
  {
    if k == 0 then map[] else Apply(After(ops, k - 1), ops[k - 1])
  }

  /** A retry works from a row some worker has seen stored, however long ago. */
  ghost predicate Seen(ops: seq<HookOp>, j: nat, row: Delivery)
    requires j <= |ops|
  {
    exists k, id :: 0 <= k <= j && id in After(ops, k) && After(ops, k)[id] == row
  }

  predicate Enqueues(op: HookOp)
  {
    op.Emit? || op.Announce? || op.Retry?
  }

  /** Row ids and lease tokens are fresh, and no finalize says "pending". Commits may come out of clock order. */
  ghost predicate Legal(ops: seq<HookOp>)
  {
    && (forall i, j | 0 <= i < j < |ops| && Enqueues(ops[j]) :: ops[i].id != ops[j].id)
    && (forall i, j | 0 <= i < j < |ops| && ops[i].Claim? && ops[j].Claim? :: ops[i].token != ops[j].token)
    && (forall j | 0 <= j < |ops| && ops[j].Finalize? :: ops[j].patch.status != Pending)
    && (forall j | 0 <= j < |ops| && ops[j].Retry? :: Seen(ops, j, ops[j].prior))
  }

  // ---------------------------------------------------------------- rows and attempts

  ghost predicate RowOk(d: Deliveries, id: string)
    requires id in d
  {
    && d[id].deliveryId == id
    && 1 <= d[id].attempt <= WEBHOOK_MAX_ATTEMPTS
    && (d[id].status in {Success, Failed} ==> d[id].leaseOwner == None)
  }

  ghost predicate Distinct(d: Deliveries)
  {
    forall a, b | a in d && b in d && d[a].eventId == d[b].eventId && d[a].webhookId == d[b].webhookId && d[a].attempt == d[b].attempt :: a == b
  }

  ghost predicate RowsOk(d: Deliveries)
  {
    Distinct(d) && forall id | id in d :: RowOk(d, id)
  }

  lemma EnqueuedOk(d: Deliveries, row: Delivery, dropped: set<string>)
    requires RowsOk(d) && row.deliveryId !in d && 1 <= row.attempt <= WEBHOOK_MAX_ATTEMPTS && row.status == Pending
    ensures RowsOk(Enqueued(d, row, dropped))
  {
    var after := Enqueued(d, row, dropped);
    forall id | id in after ensures RowOk(after, id) {
      if id != row.deliveryId { assert RowOk(d, id); }
    }
  }

  lemma AnnouncedOk(d: Deliveries, row: Delivery)
    requires RowsOk(d) && row.deliveryId !in d && row.attempt == 1 && row.status == Pending
    ensures RowsOk(Announced(d, row))
  {
    var after := Announced(d, row);
    forall id | id in after ensures RowOk(after, id) {
      if id != row.deliveryId { assert RowOk(d, id); }
    }
  }

  /** `k` operations in, every stored row is keyed by its id, one per event, endpoint and attempt, and finished rows hold no lease. */
  lemma {:induction false} RowsStayOk(ops: seq<HookOp>, k: nat)
    requires Legal(ops) && k <= |ops|
    ensures RowsOk(After(ops, k))
    ensures forall id | id in After(ops, k) :: exists i :: 0 <= i < k && Enqueues(ops[i]) && ops[i].id == id
    decreases k
  {
    hide HasFor, IsDue, Pruned;
    if k > 0 {
      var d, op := After(ops, k - 1), ops[k - 1];
      RowsStayOk(ops, k - 1);
      IdsGrow(d, op);
      if Enqueues(op) {
        assert op.id !in d;
        if op.Retry? {
          SeenAttempts(ops, k - 1, op.prior);
          if RetryRow(op).Some? { EnqueuedOk(d, RetryRow(op).value, op.dropped); }
        } else if op.Announce? {
          AnnouncedOk(d, NewDelivery(op.id, PaidEvent(op.request, op.tx), op.webhookId, op.merchant, 1, op.now, op.body));
        } else {
          EnqueuedOk(d, NewDelivery(op.id, RandomEvent(op.event), op.webhookId, op.merchant, 1, op.now, op.body), op.dropped);
        }
      } else {
        UpdatedOk(d, op);
      }
      forall id | id in After(ops, k) ensures exists i :: 0 <= i < k && Enqueues(ops[i]) && ops[i].id == id {
        if id in d {
        } else {
          assert Enqueues(ops[k - 1]) && ops[k - 1].id == id;
        }
      }
    }
  }

  lemma IdsGrow(d: Deliveries, op: HookOp)
    ensures forall id | id in Apply(d, op) :: id in d || (Enqueues(op) && id == op.id)
  {
  }

  lemma UpdatedOk(d: Deliveries, op: HookOp)
    requires RowsOk(d) && !Enqueues(op)
    ensures RowsOk(Apply(d, op))
  {
    var after := Apply(d, op);
    forall id | id in after ensures RowOk(after, id) {
      assert RowOk(d, id);
    }
  }

  lemma {:induction false} SeenAttempts(ops: seq<HookOp>, j: nat, row: Delivery)
    requires Legal(ops) && j <= |ops| && Seen(ops, j, row)
    ensures 1 <= row.attempt <= WEBHOOK_MAX_ATTEMPTS
    decreases j, 1
  {
    hide RowsOk;
    var k, id :| 0 <= k <= j && id in After(ops, k) && After(ops, k)[id] == row;
    AttemptsBounded(ops, k, id);
  }

  lemma {:induction false} AttemptsBounded(ops: seq<HookOp>, k: nat, id: string)
    requires Legal(ops) && k <= |ops| && id in After(ops, k)
    ensures 1 <= After(ops, k)[id].attempt <= WEBHOOK_MAX_ATTEMPTS
    decreases k, 0
  {
    hide Apply, Seen;
    assert k > 0;
    var d, op := After(ops, k - 1), ops[k - 1];
    AttemptStep(d, op, id);
    if op.Retry? {
      SeenAttempts(ops, k - 1, op.prior);
    }
    if id in d {
      AttemptsBounded(ops, k - 1, id);
    }
  }

  lemma AttemptStep(d: Deliveries, op: HookOp, id: string)
    requires id in Apply(d, op)
    ensures (id in d && Apply(d, op)[id].attempt == d[id].attempt)
            || Apply(d, op)[id].attempt == 1
            || (op.Retry? && Apply(d, op)[id].attempt == op.prior.attempt + 1 <= WEBHOOK_MAX_ATTEMPTS)
  {
    hide HasFor, HasFirst, IsDue;
  }

  /** At any time there is at most one row per event, endpoint and attempt, and the attempt is 1 to 5. */
  lemma OneRowPerAttempt(ops: seq<HookOp>, k: nat, a: string, b: string)
    requires Legal(ops) && k <= |ops| && a in After(ops, k) && b in After(ops, k)
    ensures 1 <= After(ops, k)[a].attempt <= 5
    ensures var d := After(ops, k);
            d[a].eventId == d[b].eventId && d[a].webhookId == d[b].webhookId && d[a].attempt == d[b].attempt ==> a == b
  {
    RowsStayOk(ops, k);
    assert RowOk(After(ops, k), a);
  }

  // ---------------------------------------------------------------- leases

  /** From just after operation `i` to just after `j`, what one operation can do to a row that stays. */
  lemma RowSteps(d: Deliveries, op: HookOp, id: string)
    requires id in Apply(d, op) && !(Enqueues(op) && op.id == id)
    ensures id in d
    ensures Apply(d, op)[id] == (if Wins(d, op) && op.id == id then Leased(d[id], op.token, op.now)
                                 else if Settles(d, op) && op.id == id then Finalized(d[id], op.patch)
                                 else d[id])
  {
  }

  lemma IdUsedOnce(ops: seq<HookOp>, i: nat, j: nat)
    requires Legal(ops) && i < j < |ops| && Enqueues(ops[j])
    ensures ops[j].id != ops[i].id
  {
  }

  ghost predicate Finalizes(ops: seq<HookOp>, k: nat, id: string)
  {
    k < |ops| && Settles(After(ops, k), ops[k]) && ops[k].id == id
  }

  ghost predicate Claims(ops: seq<HookOp>, k: nat, id: string)
  {
    k < |ops| && Wins(After(ops, k), ops[k]) && ops[k].id == id
  }

  /** Until somebody finalizes it, a claimed row stays leased for the claimer's minute or longer. */
  lemma {:induction false} StaysLeased(ops: seq<HookOp>, i: nat, j: nat, id: string)
    requires Legal(ops) && i < j <= |ops| && Claims(ops, i, id)
    requires forall k | i < k < j :: !Finalizes(ops, k, id)
    ensures id in After(ops, j) ==>
              && After(ops, j)[id].leaseOwner.Some? && After(ops, j)[id].leaseExpiresAt.Some?
              && After(ops, j)[id].leaseExpiresAt.value >= ops[i].now + WEBHOOK_CLAIM_LEASE_SECONDS
    decreases j
  {
    hide Apply, Seen;
    if i + 1 < j {
      StaysLeased(ops, i, j - 1, id);
      if Enqueues(ops[j - 1]) { IdUsedOnce(ops, i, j - 1); }
    }
    if id in After(ops, j) {
      if i + 1 == j {
        RowSteps(After(ops, i), ops[i], id);
      } else {
        RowSteps(After(ops, j - 1), ops[j - 1], id);
        assert !Finalizes(ops, j - 1, id);
      }
    }
  }

  /** Two claims of one delivery are separated by a finalize or by the first lease running out. */
  lemma ClaimsAreSeparated(ops: seq<HookOp>, i: nat, j: nat, id: string)
    requires Legal(ops) && i < j && Claims(ops, i, id) && Claims(ops, j, id)
    ensures (exists k :: i < k < j && Finalizes(ops, k, id)) || ops[j].now >= ops[i].now + 60
  {
    hide After, Legal;
    if forall k | i < k < j :: !Finalizes(ops, k, id) {
      StaysLeased(ops, i, j, id);
    }
  }

  /** Once a token is superseded or used, the row never carries it again. */
  lemma {:induction false} TokenIsGone(ops: seq<HookOp>, i: nat, k: nat, j: nat, id: string)
    requires Legal(ops) && i < k < j <= |ops| && Claims(ops, i, id) && (Claims(ops, k, id) || Finalizes(ops, k, id))
    ensures id in After(ops, j) ==> After(ops, j)[id].leaseOwner != Some(ops[i].token)
    decreases j
  {
    hide IsDue, Apply, Seen;
    if id in After(ops, j) {
      if Enqueues(ops[j - 1]) { IdUsedOnce(ops, i, j - 1); }
      RowSteps(After(ops, j - 1), ops[j - 1], id);
      if k + 1 < j {
        TokenIsGone(ops, i, k, j - 1, id);
      }
    }
  }

  /** A finalize by a worker whose claim was superseded, or already finalized, writes nothing. */
  lemma StaleFinalizeWritesNothing(ops: seq<HookOp>, i: nat, k: nat, j: nat, id: string)
    requires Legal(ops) && i < k < j < |ops| && Claims(ops, i, id) && (Claims(ops, k, id) || Finalizes(ops, k, id))
    requires ops[j].Finalize? && ops[j].id == id && ops[j].token == ops[i].token
    ensures After(ops, j + 1) == After(ops, j)
  {
    hide Legal, Claims, Finalizes;
    TokenIsGone(ops, i, k, j, id);
  }

  /** Operation `i` claimed the row and nobody has claimed or finalized it since. */
  ghost predicate LatestClaim(ops: seq<HookOp>, i: nat, j: nat, id: string)
  {
    i < |ops| && ops[i].Claim? && Claims(ops, i, id) && forall k | i < k < j :: !Claims(ops, k, id) && !Finalizes(ops, k, id)
  }

  /** A finalize that writes comes from the worker of the latest claim, and nobody finalized in between. */
  lemma FinalizeHasItsClaim(ops: seq<HookOp>, j: nat, id: string)
    requires Legal(ops) && Finalizes(ops, j, id)
    ensures exists i :: 0 <= i < j && LatestClaim(ops, i, j, id) && ops[i].token == ops[j].token
  {
    hide Legal, LatestClaim;
    OwnerHasItsClaim(ops, j, id);
  }

  lemma NewRowIsFree(ops: seq<HookOp>, j: nat, id: string)
    requires Legal(ops) && 0 < j <= |ops| && Enqueues(ops[j - 1]) && ops[j - 1].id == id && id in After(ops, j)
    ensures After(ops, j)[id].leaseOwner.None?
  {
    hide Legal;
    RowsStayOk(ops, j - 1);
    if id in After(ops, j - 1) {
      var e :| 0 <= e < j - 1 && Enqueues(ops[e]) && ops[e].id == id;
      IdUsedOnce(ops, e, j - 1);
    }
  }

  /** A leased row is leased by the operation just done, or was leased to the same token before it. */
  lemma OwnerStep(ops: seq<HookOp>, j: nat, id: string)
    requires Legal(ops) && 0 < j <= |ops| && id in After(ops, j) && After(ops, j)[id].leaseOwner.Some?
    ensures if Claims(ops, j - 1, id) then After(ops, j)[id].leaseOwner == Some(ops[j - 1].token)
            else !Finalizes(ops, j - 1, id) && id in After(ops, j - 1) && After(ops, j - 1)[id].leaseOwner == After(ops, j)[id].leaseOwner
  {
    hide IsDue, Legal, Apply, Enqueues;
    if Enqueues(ops[j - 1]) && ops[j - 1].id == id {
      NewRowIsFree(ops, j, id);
    } else {
      RowSteps(After(ops, j - 1), ops[j - 1], id);
    }
  }

  lemma ClaimIsClaim(ops: seq<HookOp>, k: nat, id: string)
    requires Claims(ops, k, id)
    ensures ops[k].Claim?
  {
  }

  lemma {:induction false} OwnerHasItsClaim(ops: seq<HookOp>, j: nat, id: string)
    requires Legal(ops) && j <= |ops| && id in After(ops, j) && After(ops, j)[id].leaseOwner.Some?
    ensures exists i :: 0 <= i < j && LatestClaim(ops, i, j, id) && After(ops, j)[id].leaseOwner == Some(ops[i].token)
    decreases j
  {
    hide Legal, Apply, Claims, Finalizes;
    assert j > 0;
    OwnerStep(ops, j, id);
    if Claims(ops, j - 1, id) {
      ClaimIsClaim(ops, j - 1, id);
      assert LatestClaim(ops, j - 1, j, id);
    } else {
      OwnerHasItsClaim(ops, j - 1, id);
      var i :| 0 <= i < j - 1 && LatestClaim(ops, i, j - 1, id) && After(ops, j - 1)[id].leaseOwner == Some(ops[i].token);
      assert LatestClaim(ops, i, j, id);
    }
  }

  /** While nobody claims or finalizes a claimed row, its claimer's token stays on it. */
  lemma {:induction false} KeepsToken(ops: seq<HookOp>, i: nat, k: nat, id: string)
    requires Legal(ops) && i < k <= |ops| && Claims(ops, i, id)
    requires forall m | i < m < k :: !Claims(ops, m, id) && !Finalizes(ops, m, id)
    ensures id in After(ops, k) ==> After(ops, k)[id].leaseOwner == Some(ops[i].token)
    decreases k
  {
    hide IsDue, Apply, Seen;
    if id in After(ops, k) {
      if Enqueues(ops[k - 1]) && i < k - 1 { IdUsedOnce(ops, i, k - 1); }
      RowSteps(After(ops, k - 1), ops[k - 1], id);
      if i + 1 < k {
        KeepsToken(ops, i, k - 1, id);
        assert !Claims(ops, k - 1, id) && !Finalizes(ops, k - 1, id);
      }
    }
  }

  /**
    A claimer's finalize writes if and only if the row is still stored and its claim is still the
    latest one, nobody having claimed or finalized the row since.
  */
  lemma {:induction false} FinalizeWritesExactly(ops: seq<HookOp>, i: nat, k: nat, id: string)
    requires Legal(ops) && i < k < |ops| && Claims(ops, i, id)
    requires ops[k].Finalize? && ops[k].id == id && ops[k].token == ops[i].token
    ensures Finalizes(ops, k, id) <==> id in After(ops, k) && LatestClaim(ops, i, k, id)
  {
    hide IsDue, Seen, After, Apply;
    ClaimIsClaim(ops, i, id);
    if Finalizes(ops, k, id) {
      FinalizeHasItsClaim(ops, k, id);
      var m :| 0 <= m < k && LatestClaim(ops, m, k, id) && ops[m].token == ops[k].token;
      assert m == i;
    }
    if LatestClaim(ops, i, k, id) {
      KeepsToken(ops, i, k, id);
    }
  }

  // ---------------------------------------------------------------- statuses

  /** Success and failed are final, and pending is never entered again, for as long as the row is kept. */
  lemma {:induction false} StatusMovesForward(ops: seq<HookOp>, i: nat, j: nat, id: string)
    requires Legal(ops) && i <= j <= |ops| && id in After(ops, i) && id in After(ops, j)
    ensures After(ops, i)[id].status in {Success, Failed} ==> After(ops, j)[id] == After(ops, i)[id]
    ensures After(ops, i)[id].status != Pending ==> After(ops, j)[id].status != Pending
    decreases j
  {
    hide Apply, Seen;
    if i < j {
      RowsStayOk(ops, i);
      var e :| 0 <= e < i && Enqueues(ops[e]) && ops[e].id == id;
      if Enqueues(ops[j - 1]) { IdUsedOnce(ops, e, j - 1); }
      RowSteps(After(ops, j - 1), ops[j - 1], id);
      StatusMovesForward(ops, i, j - 1, id);
      assert RowOk(After(ops, i), id);
    }
  }
}
