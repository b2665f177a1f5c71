/** The payment.paid outbox: the commit that moves a row to PAID also holds its deliveries, exactly once. */
module Outbox {
  import opened Text
  import opened PayRecords
  import opened Webhooks
  import opened PayStore
  import opened SettlementRuns

  // ---------------------------------------------------------------- one enqueue

  /** Ids drawn for the rows: different from each other and from every stored row. */
  ghost predicate FreshSupply(d: Deliveries, supply: nat -> string)
  {
    (forall i: nat, j: nat | i < j :: supply(i) != supply(j)) && (forall i: nat :: supply(i) !in d)
  }

  ghost predicate DistinctEndpoints(endpoints: seq<Endpoint>)
  {
    forall i, j | 0 <= i < j < |endpoints| :: endpoints[i].id != endpoints[j].id
  }

  ghost predicate NoEvent(d: Deliveries, event: EventId)
  {
    forall id | id in d :: d[id].eventId != event
  }

  function FirstRow(endpoint: Endpoint, id: string, event: EventId, now: int, body: string): Delivery
  {
    NewDelivery(id, event, endpoint.id, endpoint.merchant, 1, now, body)
  }

  /** `id` names a row of `after` that was there before, or the row of one subscribed endpoint. */
  ghost predicate Accounted(d: Deliveries, after: Deliveries, id: string, endpoints: seq<Endpoint>, merchant: string,
                            event: EventId, now: int, body: string, supply: nat -> string)
    requires id in after
  {
    || (id in d && after[id] == d[id])
    || (exists i: nat :: i < |endpoints| && id == supply(i) && Subscribed(endpoints[i], merchant)
                         && after[id] == FirstRow(endpoints[i], supply(i), event, now, body))
  }

  ghost predicate Placed(after: Deliveries, endpoints: seq<Endpoint>, i: nat, merchant: string, event: EventId, now: int, body: string, supply: nat -> string)
    requires i < |endpoints|
  {
    Subscribed(endpoints[i], merchant) ==>
      supply(i) in after && after[supply(i)] == FirstRow(endpoints[i], supply(i), event, now, body)
  }

  ghost predicate Enqueuing(d: Deliveries, after: Deliveries, endpoints: seq<Endpoint>, merchant: string,
                            event: EventId, now: int, body: string, supply: nat -> string)
  {
    && (forall id | id in d :: id in after && after[id] == d[id])
    && (forall id | id in after :: Accounted(d, after, id, endpoints, merchant, event, now, body, supply))
    && (forall i: nat | i < |endpoints| :: Placed(after, endpoints, i, merchant, event, now, body, supply))
  }

  lemma {:induction false} EnqueuedRows(d: Deliveries, endpoints: seq<Endpoint>, merchant: string, event: EventId, now: int, body: string, supply: nat -> string)
    requires event.PaidEvent? && FreshSupply(d, supply) && DistinctEndpoints(endpoints) && NoEvent(d, event)
    ensures Enqueuing(d, EnqueuePaid(d, endpoints, merchant, event, now, body, supply), endpoints, merchant, event, now, body, supply)
    decreases |endpoints|
  {
    hide Subscribed, Lower;
    if endpoints != [] {
      var n := |endpoints| - 1;
      var front := endpoints[..n];
      EnqueuedRows(d, front, merchant, event, now, body, supply);
      var before := EnqueuePaid(d, front, merchant, event, now, body, supply);
      var after := EnqueuePaid(d, endpoints, merchant, event, now, body, supply);
      hide Apply, HasFirst, FirstRow;
      NoneYet(d, before, endpoints, n, merchant, event, now, body, supply);
      OneMore(before, after, endpoints[n], merchant, supply(n), event, now, body);
      hide Accounted, Placed;
      MoreAccounted(d, before, after, endpoints, merchant, event, now, body, supply);
      MorePlaced(before, after, endpoints, merchant, event, now, body, supply);
    }
  }

  lemma MoreAccounted(d: Deliveries, before: Deliveries, after: Deliveries, endpoints: seq<Endpoint>, merchant: string, event: EventId, now: int, body: string, supply: nat -> string)
    requires endpoints != []
    requires var n := |endpoints| - 1;
             && (forall id | id in before :: Accounted(d, before, id, endpoints[..n], merchant, event, now, body, supply))
             && after == (if Subscribed(endpoints[n], merchant) then before[supply(n) := FirstRow(endpoints[n], supply(n), event, now, body)] else before)
             && supply(n) !in before
    ensures forall id | id in after :: Accounted(d, after, id, endpoints, merchant, event, now, body, supply)
  {
    hide Subscribed, FirstRow;
    var n := |endpoints| - 1;
    forall id | id in after ensures Accounted(d, after, id, endpoints, merchant, event, now, body, supply) {
      if id in before { assert Accounted(d, before, id, endpoints[..n], merchant, event, now, body, supply); }
    }
  }

  lemma MorePlaced(before: Deliveries, after: Deliveries, endpoints: seq<Endpoint>, merchant: string, event: EventId, now: int, body: string, supply: nat -> string)
    requires endpoints != []
    requires var n := |endpoints| - 1;
             && (forall i: nat | i < n :: Placed(before, endpoints[..n], i, merchant, event, now, body, supply))
             && after == (if Subscribed(endpoints[n], merchant) then before[supply(n) := FirstRow(endpoints[n], supply(n), event, now, body)] else before)
             && supply(n) !in before
    ensures forall i: nat | i < |endpoints| :: Placed(after, endpoints, i, merchant, event, now, body, supply)
  {
    hide Subscribed, FirstRow;
    var n := |endpoints| - 1;
    forall i: nat | i < |endpoints| ensures Placed(after, endpoints, i, merchant, event, now, body, supply) {
      if i < n { assert Placed(before, endpoints[..n], i, merchant, event, now, body, supply); }
    }
  }

  /** What one endpoint's turn adds. */
  lemma OneMore(before: Deliveries, after: Deliveries, endpoint: Endpoint, merchant: string, id: string, event: EventId, now: int, body: string)
    requires event.PaidEvent? && !HasFirst(before, event, endpoint.id) && id !in before
    requires after == if Subscribed(endpoint, merchant) then Apply(before, AnnounceFor(endpoint, id, event, now, body)) else before
    ensures after == if Subscribed(endpoint, merchant) then before[id := FirstRow(endpoint, id, event, now, body)] else before
  {
    hide Subscribed, HasFirst;
  }

  /** Before its turn, an endpoint has no first-attempt row of the event. */
  lemma NoneYet(d: Deliveries, before: Deliveries, endpoints: seq<Endpoint>, n: nat, merchant: string, event: EventId, now: int, body: string, supply: nat -> string)
    requires n < |endpoints| && FreshSupply(d, supply) && DistinctEndpoints(endpoints) && NoEvent(d, event)
    requires forall id | id in before :: Accounted(d, before, id, endpoints[..n], merchant, event, now, body, supply)
    ensures !HasFirst(before, event, endpoints[n].id) && supply(n) !in before
  {
    hide Subscribed;
    forall id | id in before ensures !(before[id].eventId == event && before[id].webhookId == endpoints[n].id) && id != supply(n) {
      assert Accounted(d, before, id, endpoints[..n], merchant, event, now, body, supply);
    }
  }

  /** An endpoint's first-attempt rows of an event, by id. */
  ghost function FirstRows(d: Deliveries, event: EventId, webhookId: string): set<string>
  {
    set id | id in d && d[id].eventId == event && d[id].webhookId == webhookId && d[id].attempt == 1
  }

  /** An enabled endpoint of this merchant, in any spelling of the address, that asked for payments. */
  predicate IsSubscriber(endpoint: Endpoint, merchant: string)
  {
    endpoint.enabled && Lower(endpoint.merchant) == Lower(merchant) && "payment.paid" in endpoint.events
  }

  /** A first attempt that is due at once, with nothing sent yet. */
  predicate FirstAttempt(row: Delivery, id: string, endpoint: Endpoint, event: EventId, now: int, body: string)
  {
    && row.deliveryId == id && row.eventId == event && row.webhookId == endpoint.id && row.merchant == endpoint.merchant
    && row.attempt == 1 && row.status == Pending && row.createdAt == now && row.body == body
    && row.nextRetryAt.None? && row.leaseOwner.None? && row.httpStatus.None? && row.attemptedAt.None? && row.error.None?
  }

  /** Exactly one first attempt of the event per subscriber, no other row of the event, and every older row as it was. */
  ghost predicate AnnouncedExactly(before: Deliveries, after: Deliveries, endpoints: seq<Endpoint>, merchant: string,
                                   event: EventId, now: int, body: string, supply: nat -> string)
  {
    && (forall i: nat | i < |endpoints| ::
          FirstRows(after, event, endpoints[i].id) == if IsSubscriber(endpoints[i], merchant) then {supply(i)} else {})
    && (forall i: nat | i < |endpoints| && IsSubscriber(endpoints[i], merchant) ::
          supply(i) in after && FirstAttempt(after[supply(i)], supply(i), endpoints[i], event, now, body))
    && (forall id | id in before :: id in after && after[id] == before[id])
    && (forall id | id in after && id !in before :: exists i: nat :: i < |endpoints| && IsSubscriber(endpoints[i], merchant) && id == supply(i))
  }

  lemma {:induction false} EnqueuedExactly(d: Deliveries, endpoints: seq<Endpoint>, merchant: string, event: EventId, now: int, body: string, supply: nat -> string)
    requires event.PaidEvent? && FreshSupply(d, supply) && DistinctEndpoints(endpoints) && NoEvent(d, event)
    ensures AnnouncedExactly(d, EnqueuePaid(d, endpoints, merchant, event, now, body, supply), endpoints, merchant, event, now, body, supply)
  {
    hide *;
    EnqueuedRows(d, endpoints, merchant, event, now, body, supply);
    EnqueuingIsExact(d, EnqueuePaid(d, endpoints, merchant, event, now, body, supply), endpoints, merchant, event, now, body, supply);
  }

  lemma SubscriberIs(endpoint: Endpoint, merchant: string)
    ensures Subscribed(endpoint, merchant) <==> IsSubscriber(endpoint, merchant)
  {
    hide Lower;
  }

  lemma EnqueuingIsExact(d: Deliveries, after: Deliveries, endpoints: seq<Endpoint>, merchant: string, event: EventId, now: int, body: string, supply: nat -> string)
    requires FreshSupply(d, supply) && DistinctEndpoints(endpoints) && NoEvent(d, event)
    requires Enqueuing(d, after, endpoints, merchant, event, now, body, supply)
    ensures AnnouncedExactly(d, after, endpoints, merchant, event, now, body, supply)
  {
    hide Subscribed, IsSubscriber;
    forall i: nat | i < |endpoints|
      ensures FirstRows(after, event, endpoints[i].id) == if IsSubscriber(endpoints[i], merchant) then {supply(i)} else {}
    {
      SubscriberIs(endpoints[i], merchant);
      assert Placed(after, endpoints, i, merchant, event, now, body, supply);
      forall id | id in FirstRows(after, event, endpoints[i].id) ensures id == supply(i) && IsSubscriber(endpoints[i], merchant) {
        assert Accounted(d, after, id, endpoints, merchant, event, now, body, supply);
      }
    }
    forall i: nat | i < |endpoints| && IsSubscriber(endpoints[i], merchant)
      ensures supply(i) in after && FirstAttempt(after[supply(i)], supply(i), endpoints[i], event, now, body)
    {
      SubscriberIs(endpoints[i], merchant);
      assert Placed(after, endpoints, i, merchant, event, now, body, supply);
    }
    forall id | id in after && id !in d ensures exists i: nat :: i < |endpoints| && IsSubscriber(endpoints[i], merchant) && id == supply(i) {
      assert Accounted(d, after, id, endpoints, merchant, event, now, body, supply);
      var i: nat :| i < |endpoints| && id == supply(i) && Subscribed(endpoints[i], merchant);
      SubscriberIs(endpoints[i], merchant);
    }
  }

  // ---------------------------------------------------------------- no event before its payment

  function Rows(ops: seq<Op>, k: nat): Deliveries
    requires k <= |ops|
  {
    Hooks(At(ops, k)).deliveries
  }

  ghost predicate PaidTx(records: seq<PayRecord>, tx: string)
  {
    exists r :: 0 <= r < |records| && records[r].paidTx.Some? && Lower(records[r].paidTx.value) == tx
  }

  ghost predicate SeenRow(ops: seq<Op>, j: nat, row: Delivery)
    requires j <= |ops|
  {
    exists k: nat, id :: k <= j && id in Rows(ops, k) && Rows(ops, k)[id] == row
  }

  /** Retries work from rows that were stored, settlements draw fresh row ids, endpoint ids are keys. */
  ghost predicate LegalAt(ops: seq<Op>, j: nat)
    requires j < |ops|
  {
    && Plain(ops[j])
    && (ops[j].Hook? && ops[j].op.Retry? ==> SeenRow(ops, j, ops[j].op.prior))
    && (ops[j].SettleAndEnqueue? ==> FreshSupply(Rows(ops, j), ops[j].supply))
    && (ops[j].SetEndpoints? ==> DistinctEndpoints(ops[j].endpoints))
  }

  ghost predicate LegalRun(ops: seq<Op>)
  {
    forall j | 0 <= j < |ops| :: LegalAt(ops, j)
  }

  lemma LegalIsPlain(ops: seq<Op>)
    requires LegalRun(ops)
    ensures AllPlain(ops)
  {
    hide Plain, SeenRow, FreshSupply;
    forall k | 0 <= k < |ops| ensures Plain(ops[k]) {
      assert LegalAt(ops, k);
    }
  }

  /** Where a row of the next store comes from. */
  lemma HookRowOrigin(d: Deliveries, op: HookOp, id: string)
    requires id in Apply(d, op) && !op.Announce?
    ensures (id in d && Apply(d, op)[id].eventId == d[id].eventId)
            || Apply(d, op)[id].eventId.RandomEvent?
            || (op.Retry? && Apply(d, op)[id].eventId == op.prior.eventId)
  {
    hide HasFor, IsDue;
  }

  lemma {:induction false} EnqueueRowOrigin(d: Deliveries, endpoints: seq<Endpoint>, merchant: string, event: EventId, now: int, body: string, supply: nat -> string, id: string)
    requires event.PaidEvent? && id in EnqueuePaid(d, endpoints, merchant, event, now, body, supply)
    ensures var after := EnqueuePaid(d, endpoints, merchant, event, now, body, supply);
            (id in d && after[id].eventId == d[id].eventId) || after[id].eventId == event
    decreases |endpoints|
  {
    hide Subscribed, HasFirst;
    if endpoints != [] {
      var n := |endpoints| - 1;
      if id in EnqueuePaid(d, endpoints[..n], merchant, event, now, body, supply) {
        EnqueueRowOrigin(d, endpoints[..n], merchant, event, now, body, supply, id);
      }
    }
  }

  lemma {:induction false} PaidTxStays(ops: seq<Op>, i: nat, j: nat, tx: string)
    requires AllPlain(ops) && i <= j <= |ops| && PaidTx(At(ops, i).records, tx)
    ensures PaidTx(At(ops, j).records, tx)
  {
    hide At, Plain;
    var r :| 0 <= r < |At(ops, i).records| && At(ops, i).records[r].paidTx.Some? && Lower(At(ops, i).records[r].paidTx.value) == tx;
    PaidIsFrozen(ops, i, j, r);
  }

  lemma TransitionPays(ops: seq<Op>, j: nat)
    requires AllPlain(ops) && j < |ops| && Transitions(At(ops, j), ops[j])
    ensures PaidTx(At(ops, j + 1).records, Lower(ops[j].proof.tx))
  {
    hide Next, SettleOn, NextPaid, Plain, Find, Lower;
    RowsStayOk(ops, j);
    TransitionShape(At(ops, j), ops[j]);
    var k := Find(At(ops, j).records, ops[j].token);
    assert At(ops, j + 1) == Next(At(ops, j), ops[j]);
    assert At(ops, j + 1).records[k].paidTx == Some(ops[j].proof.tx);
  }

  /** The rows a settlement leaves: the old ones, and on a transition those of its own event. */
  lemma SettlementRowOrigin(s: Store, op: Op, id: string)
    requires Keyed(s.records) && IsSettlement(op) && id in Hooks(Next(s, op)).deliveries
    ensures var row := Hooks(Next(s, op)).deliveries[id];
            (id in Hooks(s).deliveries && row.eventId == Hooks(s).deliveries[id].eventId)
            || (Transitions(s, op) && row.eventId.PaidEvent? && row.eventId.tx == Lower(op.proof.tx))
  {
    hide SettleOn, EnqueuePaid, SettledRecords, Find, Lower;
    if Transitions(s, op) && op.SettleAndEnqueue? {
      TransitionShape(s, op);
      var record := SettleOn(s.records, op.token, op.proof).record;
      EnqueueRowOrigin(Hooks(s).deliveries, Hooks(s).endpoints, record.to, PaymentPaidEventId(record, record.paidTx.value),
                       op.now, op.body, op.supply, id);
    }
  }

  ghost predicate Backed(ops: seq<Op>, k: nat, j: nat)
    requires k <= |ops| && j <= |ops|
  {
    forall id | id in Rows(ops, k) && Rows(ops, k)[id].eventId.PaidEvent? :: PaidTx(At(ops, j).records, Rows(ops, k)[id].eventId.tx)
  }

  lemma SameHooks(s: Store, op: Op)
    requires !IsSettlement(op) && !op.Hook? && Plain(op)
    ensures Hooks(Next(s, op)).deliveries == Hooks(s).deliveries
  {
    hide CreateOn, Merge, Lookup, Find, Cancelling, Submitted, Put, Changed, MayCancel;
    ChangedHooks(s);
  }

  lemma ChangedHooks(s: Store)
    ensures forall token, next :: Hooks(Changed(s, token, next)) == Hooks(s)
  {
  }

  /** Every payment.paid row, at any time so far, names a transaction that some row is PAID with. */
  lemma {:induction false} EventsAreBacked(ops: seq<Op>, k: nat)
    requires LegalRun(ops) && k <= |ops|
    ensures Backed(ops, k, k)
    decreases k
  {
    hide Next, Apply, PaidTx, Plain, FreshSupply, DistinctEndpoints;
    LegalIsPlain(ops);
    if k > 0 {
      var op := ops[k - 1];
      assert LegalAt(ops, k - 1);
      EventsAreBacked(ops, k - 1);
      RowsStayOk(ops, k - 1);
      forall id | id in Rows(ops, k) && Rows(ops, k)[id].eventId.PaidEvent? ensures PaidTx(At(ops, k).records, Rows(ops, k)[id].eventId.tx) {
        RowIsBacked(ops, k, id);
      }
    }
  }

  lemma {:induction false} RowIsBacked(ops: seq<Op>, k: nat, id: string)
    requires LegalRun(ops) && 0 < k <= |ops| && LegalAt(ops, k - 1) && AllPlain(ops)
    requires Backed(ops, k - 1, k - 1) && RowsOk(At(ops, k - 1).records)
    requires id in Rows(ops, k) && Rows(ops, k)[id].eventId.PaidEvent?
    ensures PaidTx(At(ops, k).records, Rows(ops, k)[id].eventId.tx)
    decreases k, 0
  {
    hide Next, Apply, PaidTx, FreshSupply, DistinctEndpoints, LegalRun, AllPlain;
    var s, op := At(ops, k - 1), ops[k - 1];
    var tx := Rows(ops, k)[id].eventId.tx;
    if IsSettlement(op) {
      SettlementRowOrigin(s, op, id);
      if Transitions(s, op) { TransitionPays(ops, k - 1); }
    } else if op.Hook? {
      HookRows(s, op.op);
      HookRowOrigin(Hooks(s).deliveries, op.op, id);
    } else {
      SameHooks(s, op);
    }
    if id in Rows(ops, k - 1) && Rows(ops, k - 1)[id].eventId == Rows(ops, k)[id].eventId {
      PaidTxStays(ops, k - 1, k, tx);
    } else if op.Hook? && op.op.Retry? && Rows(ops, k)[id].eventId == op.op.prior.eventId {
      var e: nat, earlier :| e <= k - 1 && earlier in Rows(ops, e) && Rows(ops, e)[earlier] == op.op.prior;
      EventsAreBacked(ops, e);
      PaidTxStays(ops, e, k, tx);
    }
  }

  lemma HookRows(s: Store, hook: HookOp)
    ensures Hooks(Next(s, Hook(hook))).deliveries == Apply(Hooks(s).deliveries, hook)
  {
    hide Apply;
  }

  // ---------------------------------------------------------------- exactly once

  lemma {:induction false} EndpointsAreKeys(ops: seq<Op>, k: nat)
    requires LegalRun(ops) && k <= |ops|
    ensures DistinctEndpoints(Hooks(At(ops, k)).endpoints)
    decreases k
  {
    hide Next, Plain, SeenRow, FreshSupply;
    if k > 0 {
      EndpointsAreKeys(ops, k - 1);
      assert LegalAt(ops, k - 1);
      SameEndpoints(At(ops, k - 1), ops[k - 1]);
    }
  }

  lemma SameEndpoints(s: Store, op: Op)
    ensures Hooks(Next(s, op)).endpoints == if op.SetEndpoints? then op.endpoints else Hooks(s).endpoints
  {
    hide CreateOn, Merge, Lookup, Find, Cancelling, Submitted, Put, Changed, MayCancel, SettleOn, SettledRecords, EnqueuePaid, Apply;
    ChangedHooks(s);
  }

  lemma NoEventBefore(ops: seq<Op>, j: nat)
    requires LegalRun(ops) && j < |ops| && Transitions(At(ops, j), ops[j])
    ensures var record := SettleOn(At(ops, j).records, ops[j].token, ops[j].proof).record;
            record.paidTx == Some(ops[j].proof.tx) && NoEvent(Rows(ops, j), PaymentPaidEventId(record, ops[j].proof.tx))
  {
    hide At, SettleOn, NextPaid, Find, Next, Lower;
    LegalIsPlain(ops);
    RowsStayOk(ops, j);
    EventsAreBacked(ops, j);
    TransitionShape(At(ops, j), ops[j]);
  }

  /**
    Outbox exactly once. The commit of a `settleAndEnqueue` that moves its row to PAID holds exactly
    one first-attempt row of the event for every enabled, subscribed endpoint of the payee, none for
    any other endpoint, and before it no row of that event existed.
  */
  lemma TransitionAnnouncesOnce(ops: seq<Op>, j: nat)
    requires LegalRun(ops) && j < |ops| && ops[j].SettleAndEnqueue? && Transitions(At(ops, j), ops[j])
    ensures var record := SettleOn(At(ops, j).records, ops[j].token, ops[j].proof).record;
            var event := PaymentPaidEventId(record, ops[j].proof.tx);
            var endpoints := Hooks(At(ops, j)).endpoints;
            && NoEvent(Rows(ops, j), event)
            && AnnouncedExactly(Rows(ops, j), Rows(ops, j + 1), endpoints, record.to, event, ops[j].now, ops[j].body, ops[j].supply)
  {
    hide SettleOn, EnqueuePaid, FreshSupply, DistinctEndpoints, NoEvent, Lower, SettledRecords, Subscribed, PaymentPaidEventId, AnnouncedExactly;
    var s, op := At(ops, j), ops[j];
    var record := SettleOn(s.records, op.token, op.proof).record;
    NoEventBefore(ops, j);
    EndpointsAreKeys(ops, j);
    assert LegalAt(ops, j);
    PaidEventId(record, op.proof.tx);
    EnqueuedExactly(Hooks(s).deliveries, Hooks(s).endpoints, record.to, PaymentPaidEventId(record, op.proof.tx), op.now, op.body, op.supply);
    assert At(ops, j + 1) == Next(s, op);
  }

  lemma PaidEventId(row: PayRecord, tx: string)
    ensures PaymentPaidEventId(row, tx).PaidEvent?
  {
  }

  /** Two event ids are one exactly when request, by its id or else its token, and transaction are the same in any spelling. */
  lemma EventIdsExactly(a: PayRecord, tx: string, b: PayRecord, tx': string)
    ensures var nameA, nameB := if a.id == "" then a.token else a.id, if b.id == "" then b.token else b.id;
            PaymentPaidEventId(a, tx) == PaymentPaidEventId(b, tx') <==> Same(nameA, nameB) && Same(tx, tx')
  {
    hide Lower;
  }

  /** Rows that are PAID at the same time have different event ids. */
  lemma {:induction false} EventIdsDiffer(ops: seq<Op>, k: nat, i: nat, j: nat)
    requires LegalRun(ops) && k <= |ops| && i < j < |At(ops, k).records|
    requires At(ops, k).records[i].paidTx.Some? && At(ops, k).records[j].paidTx.Some?
    ensures var a, b := At(ops, k).records[i], At(ops, k).records[j];
            PaymentPaidEventId(a, a.paidTx.value) != PaymentPaidEventId(b, b.paidTx.value)
  {
    hide At, Lower;
    LegalIsPlain(ops);
    SettlementsAreUnique(ops, k, i, j);
  }
}
