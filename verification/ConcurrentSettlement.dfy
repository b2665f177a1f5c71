/** What concurrent settle calls are told: whatever the interleaving, one call per token reports the transition. */
module ConcurrentSettlement {
  import opened Text
  import opened PayRecords
  import opened Webhooks
  import opened PayStore
  import opened SettlementRuns
  import opened PayStoreCas
  import opened Outbox

  // ---------------------------------------------------------------- the stored values of one run

  /** No stored value after a first one that parses is malformed, and each keeps the row invariants. */
  lemma {:induction false} HistoryIsOk(start: Raw, events: seq<Event>, k: nat)
    requires GoodStart(start) && GoodEvents(events) && k < |RunEvents(start, events).history|
    ensures var raw := RunEvents(start, events).history[k];
            (k > 0 ==> !raw.Malformed?) && (!raw.Malformed? ==> RowsOk(Parsed(raw).records))
    decreases k
  {
    hide RunEvents, RowsOk, ClientOk, Plain, Next, PayStore.Run;
    RunOk(start, events);
    var s := RunEvents(start, events);
    if k > 0 {
      assert LinearAt(s.history[k - 1], s.history[k], s.writes[k - 1]);
      HistoryIsOk(start, events, k - 1);
      StepKeepsRows(s.writes[k - 1].before, s.writes[k - 1].op);
    }
  }

  /** A row that is PAID in one stored value is the same settlement at the same place in every later one. */
  lemma {:induction false} PaidStaysStored(start: Raw, events: seq<Event>, i: nat, j: nat, r: nat)
    requires GoodStart(start) && GoodEvents(events) && i <= j < |RunEvents(start, events).history|
    requires var raw := RunEvents(start, events).history[i];
             !raw.Malformed? && r < |Parsed(raw).records| && Parsed(raw).records[r].paidTx.Some?
    ensures var s := RunEvents(start, events);
            && !s.history[j].Malformed? && r < |Parsed(s.history[j]).records|
            && Frozen(Parsed(s.history[i]).records[r], Parsed(s.history[j]).records[r])
    decreases j
  {
    hide RunEvents, RowsOk, ClientOk, Plain, Next, PayStore.Run;
    RunOk(start, events);
    var s := RunEvents(start, events);
    if i < j {
      PaidStaysStored(start, events, i, j - 1, r);
      HistoryIsOk(start, events, j - 1);
      assert LinearAt(s.history[j - 1], s.history[j], s.writes[j - 1]);
      StepFreezes(s.writes[j - 1].before, s.writes[j - 1].op, r);
    }
  }

  // ---------------------------------------------------------------- one announcer

  /** The call returned "settled" and said that it was the one that moved the row to PAID. */
  predicate ToldTransition(client: Client)
  {
    && client.Returned? && client.result.Answered? && client.result.answer.Settlement?
    && client.result.answer.result.Settled? && client.result.answer.result.transitioned
  }

  /** The token of the record the call was handed. */
  function TokenTold(client: Client): string
    requires ToldTransition(client)
  {
    client.result.answer.result.record.token
  }

  lemma SettlementIsTransition(base: Store, op: Op, result: SettleResult)
    requires PayStore.Run(base, op) == Kept(Next(base, op), Settlement(result)) && result.Settled? && result.transitioned
    ensures Transitions(base, op) && SettleOn(base.records, op.token, op.proof) == result
  {
    hide SettleOn, SettledStore, CreateOn, Merge, Lookup, Changed, Put, Cancelling, Submitted, Apply;
  }

  lemma TransitionWrites(base: Store, op: Op)
    requires Keyed(base.records) && Transitions(base, op)
    ensures Next(base, op) != base
  {
    hide SettleOn, NextPaid, Find, Lower, Next, IsV2RequestId;
    TransitionShape(base, op);
  }

  /** The one commit behind a transition a call was told of. */
  ghost predicate CommittedAt(s: State, c: nat, k: nat)
    requires c in s.clients && ToldTransition(s.clients[c])
  {
    var result := s.clients[c].result;
    && OnlyWrite(s.writes, c, k) && s.writes[k].op == result.op && s.writes[k].before == result.base
    && Transitions(result.base, result.op) && SettleOn(result.base.records, result.op.token, result.op.proof) == result.answer.result
  }

  /** A call that is told of a transition committed it itself, in one write. */
  lemma {:induction false} ToldIsCommitted(start: Raw, events: seq<Event>, c: nat) returns (k: nat)
    requires GoodStart(start) && GoodEvents(events)
    requires c in RunEvents(start, events).clients && ToldTransition(RunEvents(start, events).clients[c])
    ensures CommittedAt(RunEvents(start, events), c, k)
  {
    hide RunEvents, RowOk, Unique, Plain, Next, PayStore.Run, Transitions, SettleOn, GoodCall;
    AnswersAreAtomic(start, events, c);
    var s := RunEvents(start, events);
    var client := s.clients[c];
    var base, op := client.result.base, client.result.op;
    RunGivesNext(base, op);
    SettlementIsTransition(base, op, client.result.answer.result);
    if NoWrite(s.writes, c) && Next(base, op) == base {
      var h: nat :| h < |s.history| && s.history[h] == Canonical(base);
      HistoryIsOk(start, events, h);
      TransitionWrites(base, op);
      assert false;
    }
    k :| client.since <= k + 1 && OnlyWrite(s.writes, c, k) && s.writes[k].op == op && s.writes[k].before == base;
  }

  lemma RunGivesNext(base: Store, op: Op)
    requires PayStore.Run(base, op).Kept?
    ensures PayStore.Run(base, op) == Kept(Next(base, op), PayStore.Run(base, op).answer)
  {
    hide PayStore.Run;
  }

  /** After the commit the row of the token is PAID in every stored value. */
  lemma {:induction false} CommitStays(start: Raw, events: seq<Event>, c: nat, k: nat, j: nat)
    requires GoodStart(start) && GoodEvents(events)
    requires c in RunEvents(start, events).clients && ToldTransition(RunEvents(start, events).clients[c])
    requires CommittedAt(RunEvents(start, events), c, k) && k < j < |RunEvents(start, events).history|
    ensures var s := RunEvents(start, events); var token := s.clients[c].result.op.token;
            && !s.history[j].Malformed?
            && var row := Lookup(Parsed(s.history[j]).records, token);
               row.Some? && row.value.paidTx == Some(s.clients[c].result.op.proof.tx)
  {
    hide RunEvents, ClientOk, Clash, RowOk, Plain, Next, PayStore.Run, SettleOn, NextPaid, Find, Lower, IsV2RequestId;
    RunOk(start, events);
    var s := RunEvents(start, events);
    var w := s.writes[k];
    assert LinearAt(s.history[k], s.history[k + 1], w);
    HistoryIsOk(start, events, k);
    TransitionShape(w.before, w.op);
    PaidToken(w.before, w.op);
    var r := Find(w.before.records, w.op.token);
    PaidStaysStored(start, events, k + 1, j, r);
    HistoryIsOk(start, events, j);
    FindAt(Parsed(s.history[j]).records, r);
  }

  /**
    One announcer. However many calls run at once, and whatever is lost or retried, two calls that are
    told that they moved the same token to PAID are the same call.
  */
  lemma {:induction false} OneCallIsTold(start: Raw, events: seq<Event>, c: nat, d: nat)
    requires GoodStart(start) && GoodEvents(events)
    requires c in RunEvents(start, events).clients && ToldTransition(RunEvents(start, events).clients[c])
    requires d in RunEvents(start, events).clients && ToldTransition(RunEvents(start, events).clients[d])
    requires TokenTold(RunEvents(start, events).clients[c]) == TokenTold(RunEvents(start, events).clients[d])
    ensures c == d
  {
    hide RunEvents, ClientOk, RowsOk, Plain, Next, PayStore.Run, Transitions, SettleOn, Lookup;
    var k := ToldIsCommitted(start, events, c);
    var l := ToldIsCommitted(start, events, d);
    if k < l {
      LaterIsRefused(start, events, c, k, d, l);
    } else if l < k {
      LaterIsRefused(start, events, d, l, c, k);
    }
  }

  lemma {:induction false} LaterIsRefused(start: Raw, events: seq<Event>, c: nat, k: nat, d: nat, l: nat)
    requires GoodStart(start) && GoodEvents(events)
    requires c in RunEvents(start, events).clients && ToldTransition(RunEvents(start, events).clients[c])
    requires d in RunEvents(start, events).clients && ToldTransition(RunEvents(start, events).clients[d])
    requires CommittedAt(RunEvents(start, events), c, k) && CommittedAt(RunEvents(start, events), d, l) && k < l
    ensures TokenTold(RunEvents(start, events).clients[c]) != TokenTold(RunEvents(start, events).clients[d])
  {
    hide RunEvents, ClientOk, Clash, RowOk, Plain, Next, PayStore.Run, SettleOn, NextPaid, Find, Lower, IsV2RequestId;
    RunOk(start, events);
    var s := RunEvents(start, events);
    assert LinearAt(s.history[l], s.history[l + 1], s.writes[l]);
    CommitStays(start, events, c, k, l);
    HistoryIsOk(start, events, l);
    TransitionShape(s.writes[l].before, s.writes[l].op);
    PaidToken(s.writes[l].before, s.writes[l].op);
    assert LinearAt(s.history[k], s.history[k + 1], s.writes[k]);
    HistoryIsOk(start, events, k);
    PaidToken(s.writes[k].before, s.writes[k].op);
  }

  // ---------------------------------------------------------------- and its deliveries

  /**
    The outbox under concurrency. A call that is told of a transition stored, with one write, the paid
    row and exactly one first delivery of the event for every subscribed endpoint; the value it
    replaced held no delivery of that event.
  */
  lemma {:induction false} ToldIsAnnounced(events: seq<Event>, c: nat) returns (k: nat)
    requires GoodEvents(events) && LegalRun(Ops(RunEvents(Missing, events).writes))
    requires c in RunEvents(Missing, events).clients && ToldTransition(RunEvents(Missing, events).clients[c])
    requires RunEvents(Missing, events).clients[c].result.op.SettleAndEnqueue?
    ensures var s := RunEvents(Missing, events); var result := s.clients[c].result;
            && OnlyWrite(s.writes, c, k) && k + 1 < |s.history| && !s.history[k].Malformed? && !s.history[k + 1].Malformed?
            && var record := result.answer.result.record; var event := PaymentPaidEventId(record, result.op.proof.tx);
               var before, after := Parsed(s.history[k]), Parsed(s.history[k + 1]);
               && Lookup(after.records, result.op.token) == Some(record)
               && NoEvent(Hooks(before).deliveries, event)
               && AnnouncedExactly(Hooks(before).deliveries, Hooks(after).deliveries, Hooks(before).endpoints, record.to, event,
                                   result.op.now, result.op.body, result.op.supply)
  {
    hide RunEvents, ClientOk, RowOk, LegalAt, At, Next, PayStore.Run, Transitions, SettleOn, NoEvent, AnnouncedExactly, PaymentPaidEventId;
    k := ToldIsCommitted(Missing, events, c);
    var s := RunEvents(Missing, events);
    WritesAreAtomic(Missing, events, k);
    StoreIsAtomicRun(events, k);
    StoreIsAtomicRun(events, k + 1);
    TransitionAnnouncesOnce(Ops(s.writes), k);
    CommittedRow(events, k);
  }

  lemma CommittedRow(events: seq<Event>, k: nat)
    requires GoodEvents(events) && k < |RunEvents(Missing, events).writes|
    requires var w := RunEvents(Missing, events).writes[k]; Transitions(w.before, w.op)
    ensures var s := RunEvents(Missing, events); var w := s.writes[k];
            && k + 1 < |s.history| && !s.history[k + 1].Malformed?
            && Lookup(Parsed(s.history[k + 1]).records, w.op.token) == Some(SettleOn(w.before.records, w.op.token, w.op.proof).record)
  {
    hide RunEvents, ClientOk, Clash, RowOk, Plain, Next, PayStore.Run, SettleOn, NextPaid, Find, Lower, IsV2RequestId;
    RunOk(Missing, events);
    var s := RunEvents(Missing, events);
    var w := s.writes[k];
    assert LinearAt(s.history[k], s.history[k + 1], w);
    HistoryIsOk(Missing, events, k);
    HistoryIsOk(Missing, events, k + 1);
    TransitionShape(w.before, w.op);
    PaidToken(w.before, w.op);
    FindAt(Parsed(s.history[k + 1]).records, Find(w.before.records, w.op.token));
  }
}
