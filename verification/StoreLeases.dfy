/** The delivery rows of a store run are a run of delivery operations, so the lease protocol holds for them. */
module StoreLeases {
  import opened PayRecords
  import opened Webhooks
  import opened PayStore
  import opened SettlementRuns
  import opened Outbox
  import LeaseRuns

  /** The announcements of one settlement, endpoint by endpoint. */
  function Announcements(endpoints: seq<Endpoint>, merchant: string, event: EventId, now: int, body: string, supply: nat -> string): seq<HookOp>
    requires event.PaidEvent?
  {
    if endpoints == [] then []
    else
      var n := |endpoints| - 1;
      Announcements(endpoints[..n], merchant, event, now, body, supply)
      + (if Subscribed(endpoints[n], merchant) then [AnnounceFor(endpoints[n], supply(n), event, now, body)] else [])
  }

  /** The delivery operations inside one store operation. */
  function HookSteps(s: Store, op: Op): seq<HookOp>
  {
    match op
    case Hook(hook) => [hook]
    case SettleAndEnqueue(token, proof, now, body, supply) =>
      var result := SettleOn(s.records, token, proof);
      if result.Settled? && result.transitioned && result.record.paidTx.Some? then
        Announcements(Hooks(s).endpoints, result.record.to, PaymentPaidEventId(result.record, result.record.paidTx.value), now, body, supply)
      else []
    case _ => []
  }

  function Trace(ops: seq<Op>, k: nat): seq<HookOp>
    requires k <= |ops|
  {
    if k == 0 then [] else Trace(ops, k - 1) + HookSteps(At(ops, k - 1), ops[k - 1])
  }

  function ApplyAll(d: Deliveries, hooks: seq<HookOp>): Deliveries
  {
    if hooks == [] then d else Apply(ApplyAll(d, hooks[..|hooks| - 1]), hooks[|hooks| - 1])
  }

  lemma {:induction false} ApplyAllJoin(d: Deliveries, a: seq<HookOp>, b: seq<HookOp>)
    ensures ApplyAll(d, a + b) == ApplyAll(ApplyAll(d, a), b)
    decreases |b|
  {
    hide Apply;
    if b == [] {
      assert a + b == a;
    } else {
      var n := |b| - 1;
      ApplyAllJoin(d, a, b[..n]);
      assert (a + b)[..|a + b| - 1] == a + b[..n];
    }
  }

  lemma {:induction false} RunIsApplyAll(hooks: seq<HookOp>, k: nat)
    requires k <= |hooks|
    ensures LeaseRuns.After(hooks, k) == ApplyAll(map[], hooks[..k])
    decreases k
  {
    hide Apply;
    if k > 0 {
      RunIsApplyAll(hooks, k - 1);
      assert hooks[..k][..k - 1] == hooks[..k - 1];
    }
  }

  lemma {:induction false} EnqueueIsApplyAll(d: Deliveries, endpoints: seq<Endpoint>, merchant: string, event: EventId, now: int, body: string, supply: nat -> string)
    requires event.PaidEvent?
    ensures EnqueuePaid(d, endpoints, merchant, event, now, body, supply)
            == ApplyAll(d, Announcements(endpoints, merchant, event, now, body, supply))
    decreases |endpoints|
  {
    hide Apply, Subscribed;
    if endpoints != [] {
      var n := |endpoints| - 1;
      var before := Announcements(endpoints[..n], merchant, event, now, body, supply);
      EnqueueIsApplyAll(d, endpoints[..n], merchant, event, now, body, supply);
      if Subscribed(endpoints[n], merchant) {
        ApplyAllJoin(d, before, [AnnounceFor(endpoints[n], supply(n), event, now, body)]);
        OneStep(ApplyAll(d, before), AnnounceFor(endpoints[n], supply(n), event, now, body));
      } else {
        assert Announcements(endpoints, merchant, event, now, body, supply) == before;
      }
    }
  }

  lemma OneStep(d: Deliveries, hook: HookOp)
    ensures ApplyAll(d, [hook]) == Apply(d, hook)
  {
    hide Apply;
    assert [hook][..0] == [];
  }

  lemma StepIsApplyAll(s: Store, op: Op)
    ensures Hooks(Next(s, op)).deliveries == ApplyAll(Hooks(s).deliveries, HookSteps(s, op))
  {
    hide Apply, ApplyAll, SettleOn, EnqueuePaid, Announcements, SettledRecords, PaymentPaidEventId;
    match op
    case Hook(hook) =>
      HookRows(s, hook);
      OneStep(Hooks(s).deliveries, hook);
    case SettleAndEnqueue(token, proof, now, body, supply) =>
      var result := SettleOn(s.records, token, proof);
      if result.Settled? && result.transitioned && result.record.paidTx.Some? {
        PaidEventId(result.record, result.record.paidTx.value);
        EnqueueIsApplyAll(Hooks(s).deliveries, Hooks(s).endpoints, result.record.to,
                          PaymentPaidEventId(result.record, result.record.paidTx.value), now, body, supply);
      } else {
        NoSteps(Hooks(s).deliveries);
      }
    case _ =>
      NoSteps(Hooks(s).deliveries);
      if IsSettlement(op) { } else { OtherHooks(s, op); }
  }

  lemma NoSteps(d: Deliveries)
    ensures ApplyAll(d, []) == d
  {
  }

  lemma OtherHooks(s: Store, op: Op)
    requires !IsSettlement(op) && !op.Hook?
    ensures Hooks(Next(s, op)).deliveries == Hooks(s).deliveries
  {
    hide CreateOn, Merge, Lookup, Find, Cancelling, Submitted, PayStore.Put, Changed, MayCancel;
    ChangedHooks(s);
  }

  /** The deliveries of a store run are what its delivery operations, in commit order, leave. */
  lemma {:induction false} DeliveriesAreARun(ops: seq<Op>, k: nat)
    requires k <= |ops|
    ensures Rows(ops, k) == LeaseRuns.After(Trace(ops, k), |Trace(ops, k)|)
    decreases k
  {
    hide Next, HookSteps, ApplyAll;
    var hooks := Trace(ops, k);
    RunIsApplyAll(hooks, |hooks|);
    assert hooks[..|hooks|] == hooks;
    if k == 0 {
      NoSteps(map[]);
    } else {
      var before := Trace(ops, k - 1);
      DeliveriesAreARun(ops, k - 1);
      RunIsApplyAll(before, |before|);
      assert before[..|before|] == before;
      StepIsApplyAll(At(ops, k - 1), ops[k - 1]);
      ApplyAllJoin(map[], before, HookSteps(At(ops, k - 1), ops[k - 1]));
    }
  }

  /** In a store run, too, there is at most one row per event, endpoint and attempt, and the attempt is 1 to 5. */
  lemma OneStoredRowPerAttempt(ops: seq<Op>, k: nat, a: string, b: string)
    requires k <= |ops| && LeaseRuns.Legal(Trace(ops, k)) && a in Rows(ops, k) && b in Rows(ops, k)
    ensures 1 <= Rows(ops, k)[a].attempt <= 5
    ensures var d := Rows(ops, k);
            d[a].eventId == d[b].eventId && d[a].webhookId == d[b].webhookId && d[a].attempt == d[b].attempt ==> a == b
  {
    hide Trace, LeaseRuns.Legal, LeaseRuns.After;
    DeliveriesAreARun(ops, k);
    LeaseRuns.OneRowPerAttempt(Trace(ops, k), |Trace(ops, k)|, a, b);
  }
}
