/**
  ONE due row in `processDueWebhookDeliveries` and `deliverOnce`: the operations a worker commits,
  with what it finds out between them (endpoint, body, HTTP result, who won a claim) as inputs.
*/
module WebhookWorker {
  import opened Text
  import opened Webhooks
  import opened LeaseRuns

  /** What the HTTP attempt came to. */
  datatype Http = Http(status: Option<int>, networkError: bool, error: Option<string>)

  /**
    What a worker meets on its way. `won` says whether a claim it makes succeeds; the clock is read
    for the first claim, again after it, and a last time after the second claim.
  */
  datatype Findings = Findings(endpointKnown: bool, endpointEnabled: bool, bodyParses: bool, won: bool, wonNext: bool, http: Http,
                               token: string, nextToken: string, nextId: string, dropped: set<string>, now: int, later: int, last: int)

  /** A finalize as failed, with the fields the caller sets. */
  function GivenUp(error: Option<string>, attemptedAt: Option<int>): Patch
  {
    Patch(Failed, None, if attemptedAt.Some? then Some(attemptedAt) else None, None, if error.Some? then Some(error) else None)
  }

  /** The tail of `deliverOnce` once the row is there: claim it, and if that wins, finalize with what happened. */
  function Deliver(id: string, attempt: nat, token: string, won: bool, enabled: bool, http: Http, now: int, later: int): seq<HookOp>
  {
    [Claim(id, token, now)] +
    (if !won then []
     else if !enabled then [Finalize(id, token, GivenUp(Some("endpoint_unavailable"), Some(later)).(httpStatus := Some(None)))]
     else [Finalize(id, token, ResultPatch(attempt, http.status, http.networkError, http.error, later))])
  }

  /** The slot of a retry is used up before the next attempt is enqueued. */
  function SlotUsed(prior: Delivery): Patch
  {
    Patch(if prior.attempt >= WEBHOOK_MAX_ATTEMPTS then Failed else Retrying, None, None, None, Some(prior.error))
  }

  function ProcessPending(prior: Delivery, f: Findings): seq<HookOp>
  {
    if !f.endpointKnown then
      [Claim(prior.deliveryId, f.token, f.now)]
      + (if f.won then [Finalize(prior.deliveryId, f.token, GivenUp(Some("endpoint_unavailable"), Some(f.later)))] else [])
    else if !f.bodyParses then
      [Claim(prior.deliveryId, f.token, f.now)]
      + (if f.won then [Finalize(prior.deliveryId, f.token, GivenUp(Some("invalid_body"), Some(f.later)))] else [])
    else Deliver(prior.deliveryId, prior.attempt, f.token, f.won, f.endpointEnabled, f.http, f.now, f.later)
  }

  function ProcessRetrying(prior: Delivery, f: Findings): seq<HookOp>
  {
    [Claim(prior.deliveryId, f.token, f.now)] +
    (if !f.won then []
     else if !f.endpointKnown || !f.endpointEnabled then [Finalize(prior.deliveryId, f.token, GivenUp(Some("endpoint_unavailable"), None))]
     else if !f.bodyParses then [Finalize(prior.deliveryId, f.token, GivenUp(Some("invalid_body"), None))]
     else if prior.attempt + 1 > WEBHOOK_MAX_ATTEMPTS then [Finalize(prior.deliveryId, f.token, GivenUp(None, None))]
     else [Finalize(prior.deliveryId, f.token, SlotUsed(prior)), Retry(f.nextId, prior, f.later, f.dropped)]
          + Deliver(f.nextId, prior.attempt + 1, f.nextToken, f.wonNext, f.endpointEnabled, f.http, f.later, f.last))
  }

  function Process(prior: Delivery, f: Findings): seq<HookOp>
  {
    if prior.status == Pending then ProcessPending(prior, f) else ProcessRetrying(prior, f)
  }

  // ---------------------------------------------------------------- the plan

  /** The plan ends by failing the prior row, with this error or the one it has. */
  predicate GivesUp(ops: seq<HookOp>, prior: Delivery, error: Option<string>)
  {
    && |ops| == 2 && ops[1].Finalize? && ops[1].id == prior.deliveryId && ops[1].patch.status == Failed && ops[1].patch.nextRetryAt.None?
    && (if error.Some? then ops[1].patch.error == Some(error) else ops[1].patch.error.None?)
  }

  /** The plan finalizes operation `x`'s row with what the HTTP request of this attempt came to. */
  predicate Sends(ops: seq<HookOp>, x: nat, id: string, attempt: nat, f: Findings, at: int)
  {
    |ops| == x + 1 && ops[x].Finalize? && ops[x].id == id
    && ops[x].patch == ResultPatch(attempt, f.http.status, f.http.networkError, f.http.error, at)
  }

  /**
    A worker does nothing to a row it does not claim. A pending row is sent once exactly when its
    endpoint is known and enabled and its body parses. A due retry goes on to the next attempt on the
    same conditions, unless the attempts are used up. Otherwise the row is given up, and why is recorded.
  */
  lemma {:induction false} PlansExactly(prior: Delivery, f: Findings)
    requires prior.status in {Pending, Retrying}
    ensures var ops := Process(prior, f); var usable := f.endpointKnown && f.endpointEnabled;
            && |ops| > 0 && ops[0] == Claim(prior.deliveryId, f.token, f.now)
            && (|ops| == 1 <==> !f.won)
            && (f.won && prior.status == Pending ==>
                  if usable && f.bodyParses then Sends(ops, 1, prior.deliveryId, prior.attempt, f, f.later)
                  else GivesUp(ops, prior, Some(if f.endpointKnown && !f.bodyParses then "invalid_body" else "endpoint_unavailable")))
            && (f.won && prior.status == Retrying ==>
                  if !usable then GivesUp(ops, prior, Some("endpoint_unavailable"))
                  else if !f.bodyParses then GivesUp(ops, prior, Some("invalid_body"))
                  else if prior.attempt >= 5 then GivesUp(ops, prior, None)
                  else
                    && |ops| >= 4 && ops[1].Finalize? && ops[1].id == prior.deliveryId && ops[1].patch.status == Retrying
                    && ops[1].patch.nextRetryAt.None? && ops[1].patch.error == Some(prior.error)
                    && ops[2] == Retry(f.nextId, prior, f.later, f.dropped) && ops[3] == Claim(f.nextId, f.nextToken, f.later)
                    && (if f.wonNext then Sends(ops, 4, f.nextId, prior.attempt + 1, f, f.last) else |ops| == 4))
  {
    hide ResultPatch;
  }

  // ---------------------------------------------------------------- a worker inside a run

  /**
    The worker's operations are commits of the run, in their order, at these places; it has won a
    claim exactly when that claim wrote.
  */
  ghost predicate Works(ops: seq<HookOp>, at: seq<nat>, prior: Delivery, f: Findings)
  {
    && |at| == |Process(prior, f)|
    && (forall x, y | 0 <= x < y < |at| :: at[x] < at[y])
    && (forall x | 0 <= x < |at| :: at[x] < |ops| && ops[at[x]] == Process(prior, f)[x])
    && (f.won <==> Claims(ops, at[0], prior.deliveryId))
    && (|at| > 3 ==> (f.wonNext <==> Claims(ops, at[3], f.nextId)))
  }

  /** Every finalize of a plan follows a claim of the same row with the same token that the worker won. */
  lemma FinalizeFollowsClaim(prior: Delivery, f: Findings, x: nat) returns (y: nat)
    requires x < |Process(prior, f)| && Process(prior, f)[x].Finalize?
    ensures Process(prior, f)[x].patch.status != Pending
    ensures y < x && Process(prior, f)[y].Claim? && (if y == 0 then f.won else y == 3 && f.wonNext)
    ensures Process(prior, f)[y].id == Process(prior, f)[x].id && Process(prior, f)[y].token == Process(prior, f)[x].token
    ensures Process(prior, f)[y].id == if y == 0 then prior.deliveryId else f.nextId
  {
    hide Classify, RetryDelay;
    y := if x == 1 then 0 else 3;
  }

  /**
    In a run, a finalize that a worker commits never says "pending", and it writes if and only if the
    row is still stored and the worker's own claim is still the latest.
  */
  lemma {:induction false} FinalizesWhatItClaimed(ops: seq<HookOp>, at: seq<nat>, prior: Delivery, f: Findings, x: nat) returns (y: nat)
    requires Legal(ops) && Works(ops, at, prior, f) && x < |at| && Process(prior, f)[x].Finalize?
    ensures ops[at[x]].Finalize? && ops[at[x]].patch.status != Pending
    ensures y < x && Claims(ops, at[y], ops[at[x]].id)
    ensures Finalizes(ops, at[x], ops[at[x]].id) <==>
              ops[at[x]].id in After(ops, at[x]) && LatestClaim(ops, at[y], at[x], ops[at[x]].id)
  {
    hide Process, Legal, Claims, Finalizes, LatestClaim, After;
    y := FinalizeFollowsClaim(prior, f, x);
    FinalizeWritesExactly(ops, at[y], at[x], ops[at[x]].id);
  }

  // ---------------------------------------------------------------- the slot of a retry

  /** A retrying row without a next time is spent: no later operation changes it, whatever the clock. */
  predicate Spent(row: Delivery)
  {
    row.status == Retrying && row.nextRetryAt.None? && row.leaseOwner.None?
  }

  lemma {:induction false} SpentIsFinal(ops: seq<HookOp>, i: nat, j: nat, id: string)
    requires Legal(ops) && i <= j <= |ops| && id in After(ops, i) && id in After(ops, j) && Spent(After(ops, i)[id])
    ensures After(ops, j)[id] == After(ops, i)[id]
    decreases j
  {
    hide Apply, Seen;
    if i < j {
      RowsStayOk(ops, i);
      var e :| 0 <= e < i && Enqueues(ops[e]) && ops[e].id == id;
      if Enqueues(ops[j - 1]) { IdUsedOnce(ops, e, j - 1); }
      RowSteps(After(ops, j - 1), ops[j - 1], id);
      SpentIsFinal(ops, i, j - 1, id);
    }
  }

  /** Operation `m` spends the row: a finalize that writes "retrying" and no next time. */
  ghost predicate Spends(ops: seq<HookOp>, m: nat, id: string)
  {
    m < |ops| && ops[m].Finalize? && ops[m].id == id && ops[m].patch.status == Retrying && ops[m].patch.nextRetryAt.None?
    && Finalizes(ops, m, id)
  }

  /** Since it was claimed, a row has been spent if and only if some finalize has spent it. */
  lemma {:induction false} SpentByFinalize(ops: seq<HookOp>, i: nat, k: nat, id: string)
    requires Legal(ops) && i < k <= |ops| && Claims(ops, i, id) && id in After(ops, k)
    ensures Spent(After(ops, k)[id]) <==> exists m: nat :: i < m < k && Spends(ops, m, id)
    decreases k
  {
    hide IsDue, Apply, Seen;
    if Enqueues(ops[k - 1]) && i < k - 1 { IdUsedOnce(ops, i, k - 1); }
    RowSteps(After(ops, k - 1), ops[k - 1], id);
    if i + 1 < k {
      SpentByFinalize(ops, i, k - 1, id);
      if Spent(After(ops, k - 1)[id]) { SpentIsFinal(ops, k - 1, k, id); }
      assert Spends(ops, k - 1, id) ==> Spent(After(ops, k)[id]);
      if Spent(After(ops, k)[id]) && !Spent(After(ops, k - 1)[id]) { assert Spends(ops, k - 1, id); }
    }
  }

  /** The plan of a worker that goes on to the next attempt. */
  lemma RetryPlan(prior: Delivery, f: Findings, x: nat)
    requires x < |Process(prior, f)| && Process(prior, f)[x].Retry?
    ensures x == 2 && f.won && prior.attempt < WEBHOOK_MAX_ATTEMPTS
    ensures Process(prior, f)[0] == Claim(prior.deliveryId, f.token, f.now)
    ensures Process(prior, f)[1] == Finalize(prior.deliveryId, f.token, SlotUsed(prior))
    ensures Process(prior, f)[2] == Retry(f.nextId, prior, f.later, f.dropped)
    ensures RetryRow(Process(prior, f)[2]).Some? && RetryRow(Process(prior, f)[2]).value.attempt == prior.attempt + 1 <= WEBHOOK_MAX_ATTEMPTS
    ensures RetryRow(Process(prior, f)[2]).value.eventId == prior.eventId
  {
    hide Classify, RetryDelay;
  }

  /**
    In a run, a worker enqueues the next attempt only below the fifth, for the same event, and after
    a finalize that is to use the slot up. While the prior row is kept, that finalize leaves it spent
    if and only if the worker's claim was still the latest, or another worker had spent it before.
  */
  lemma {:induction false} RetriesUseTheSlot(ops: seq<HookOp>, at: seq<nat>, prior: Delivery, f: Findings, x: nat)
    requires Legal(ops) && Works(ops, at, prior, f) && x < |at| && Process(prior, f)[x].Retry?
    ensures x == 2 && at[0] < at[1] < at[2] && Claims(ops, at[0], prior.deliveryId)
    ensures RetryRow(ops[at[2]]).Some? && RetryRow(ops[at[2]]).value.attempt == prior.attempt + 1 <= 5
    ensures RetryRow(ops[at[2]]).value.eventId == prior.eventId
    ensures var id := prior.deliveryId;
            id in After(ops, at[1] + 1) ==>
              (Spent(After(ops, at[1] + 1)[id]) <==>
               LatestClaim(ops, at[0], at[1], id) || exists m: nat :: at[0] < m < at[1] && Spends(ops, m, id))
  {
    hide Process, Legal, Claims, Finalizes, LatestClaim, After, Spent;
    RetryPlan(prior, f, x);
    if prior.deliveryId in After(ops, at[1] + 1) { SlotFinalize(ops, at[0], at[1], prior); }
  }

  lemma {:induction false} SlotFinalize(ops: seq<HookOp>, i: nat, k: nat, prior: Delivery)
    requires Legal(ops) && i < k < |ops| && Claims(ops, i, prior.deliveryId) && prior.attempt < WEBHOOK_MAX_ATTEMPTS
    requires ops[i].Claim? && ops[k] == Finalize(prior.deliveryId, ops[i].token, SlotUsed(prior))
    requires prior.deliveryId in After(ops, k + 1)
    ensures Spent(After(ops, k + 1)[prior.deliveryId]) <==>
              LatestClaim(ops, i, k, prior.deliveryId) || exists m: nat :: i < m < k && Spends(ops, m, prior.deliveryId)
  {
    hide IsDue, Seen, Legal, LatestClaim, Spent;
    var id := prior.deliveryId;
    assert id in After(ops, k);
    FinalizeWritesExactly(ops, i, k, id);
    SpentByFinalize(ops, i, k, id);
    SpentByFinalize(ops, i, k + 1, id);
    if Finalizes(ops, k, id) { assert Spends(ops, k, id); }
  }

  /** Once a worker's finalize has used a row's slot up, nobody claims or finalizes that row again. */
  lemma {:induction false} SlotIsUsedOnce(ops: seq<HookOp>, k: nat, j: nat, prior: Delivery, id: string)
    requires Legal(ops) && k < j < |ops| && Finalizes(ops, k, id) && ops[k].patch == SlotUsed(prior) && prior.attempt < WEBHOOK_MAX_ATTEMPTS
    ensures !Claims(ops, j, id) && !Finalizes(ops, j, id)
  {
    hide Legal;
    var d := After(ops, k);
    assert After(ops, k + 1)[id] == Finalized(d[id], ops[k].patch);
    if id in After(ops, j) {
      SpentIsFinal(ops, k + 1, j, id);
    }
  }

  // ---------------------------------------------------------------- a retry from a slot that is not spent

  /** The row, as its first attempt leaves it at 0: due again at 60. */
  const FAILED_ONCE: Delivery :=
    NewDelivery("a", RandomEvent("e"), "w", "m", 1, 0, "").(status := Retrying, httpStatus := Some(500), attemptedAt := Some(0), nextRetryAt := Some(60))

  const SLOW: Findings :=
    Findings(true, true, true, true, true, Http(Some(200), false, None), "t2", "t4", "b", {}, 60, 130, 131)

  /** A slow worker claims at 60, another at 120; only then does the slow one finalize and go on to the second attempt. */
  const SLOW_RUN: seq<HookOp> :=
    [Emit("a", "e", "w", "m", "", 0, {}),
     Claim("a", "t1", 0),
     Finalize("a", "t1", Patch(Retrying, Some(Some(500)), Some(Some(0)), Some(60), Some(None))),
     Claim("a", "t2", 60),
     Claim("a", "t3", 120),
     Finalize("a", "t2", SlotUsed(FAILED_ONCE)),
     Retry("b", FAILED_ONCE, 130, {}),
     Claim("b", "t4", 130),
     Finalize("b", "t4", ResultPatch(2, Some(200), false, None, 131))]

  const LEASED_AGAIN: Delivery := Leased(Leased(FAILED_ONCE, "t2", 60), "t3", 120)

  const SECOND: Delivery := NewDelivery("b", RandomEvent("e"), "w", "m", 2, 130, "")

  /** The second attempt is in the store while the slot it came from is leased to the other worker, not spent. */
  lemma RetryFromUnspentSlot()
    ensures Legal(SLOW_RUN) && Works(SLOW_RUN, [3, 5, 6, 7, 8], FAILED_ONCE, SLOW)
    ensures !Finalizes(SLOW_RUN, 5, "a")
    ensures var d := After(SLOW_RUN, 7);
            && "b" in d && d["b"].attempt == 2 && d["b"].eventId == RandomEvent("e")
            && "a" in d && !Spent(d["a"]) && d["a"].leaseOwner == Some("t3")
  {
    hide After, Apply, Process;
    Names();
    SlowStart();
    SlowMiddle();
    assert After(SLOW_RUN, 7)["b"] == SECOND;
    assert SLOW_RUN[7] == Claim("b", "t4", 130) && SLOW_RUN[3] == Claim("a", "t2", 60);
    assert Claims(SLOW_RUN, 3, "a") && Claims(SLOW_RUN, 7, "b");
    assert Seen(SLOW_RUN, 6, FAILED_ONCE) by { assert "a" in After(SLOW_RUN, 3) && After(SLOW_RUN, 3)["a"] == FAILED_ONCE; }
    SlowPlan();
    SlowIsLegal();
  }

  lemma Names()
    ensures "a" != "b" && "t1" != "t2" && "t1" != "t3" && "t2" != "t3" && "t1" != "t4" && "t2" != "t4" && "t3" != "t4"
  {
    assert "a"[0] != "b"[0] && "t1"[1] == '1' && "t2"[1] == '2' && "t3"[1] == '3' && "t4"[1] == '4';
  }

  lemma AfterStep(ops: seq<HookOp>, k: nat)
    requires k < |ops|
    ensures After(ops, k + 1) == Apply(After(ops, k), ops[k])
  {
    hide Apply;
  }

  lemma SlowStart()
    ensures After(SLOW_RUN, 3) == map["a" := FAILED_ONCE]
  {
    hide After;
    Names();
    var first := NewDelivery("a", RandomEvent("e"), "w", "m", 1, 0, "");
    assert After(SLOW_RUN, 0) == map[] by { NothingYet(SLOW_RUN); }
    AfterStep(SLOW_RUN, 0);
    assert After(SLOW_RUN, 1) == map["a" := first];
    AfterStep(SLOW_RUN, 1);
    assert After(SLOW_RUN, 2) == map["a" := Leased(first, "t1", 0)];
    AfterStep(SLOW_RUN, 2);
  }

  lemma NothingYet(ops: seq<HookOp>)
    ensures After(ops, 0) == map[]
  {
  }

  lemma SlowMiddle()
    ensures After(SLOW_RUN, 5) == map["a" := LEASED_AGAIN]
    ensures After(SLOW_RUN, 7) == map["a" := LEASED_AGAIN, "b" := SECOND]
  {
    hide After;
    Names();
    SlowStart();
    AfterStep(SLOW_RUN, 3);
    assert After(SLOW_RUN, 4) == map["a" := Leased(FAILED_ONCE, "t2", 60)];
    AfterStep(SLOW_RUN, 4);
    AfterStep(SLOW_RUN, 5);
    assert After(SLOW_RUN, 6) == map["a" := LEASED_AGAIN];
    AfterStep(SLOW_RUN, 6);
  }

  lemma SlowPlan()
    ensures Process(FAILED_ONCE, SLOW) == [SLOW_RUN[3], SLOW_RUN[5], SLOW_RUN[6], SLOW_RUN[7], SLOW_RUN[8]]
  {
  }

  lemma SlowIsLegal()
    requires Seen(SLOW_RUN, 6, FAILED_ONCE)
    ensures Legal(SLOW_RUN)
  {
    hide Seen;
    Names();
  }
}
