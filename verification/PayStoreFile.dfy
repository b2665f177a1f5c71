/** The store object a mutator works on: the loops of payStore.ts and settlement.ts, in place. */
module PayStoreFile {
  import opened Text
  import opened PayRecords
  import opened Webhooks
  import opened PayStore

  class StoreFile {
    var records: seq<PayRecord>
    var endpoints: seq<Endpoint>
    var deliveries: Deliveries

    constructor (rows: seq<PayRecord>, hooks: HookSection)
      ensures records == rows && endpoints == hooks.endpoints && deliveries == hooks.deliveries
    {
      records, endpoints, deliveries := rows, hooks.endpoints, hooks.deliveries;
    }

    /** `applySettlementToStore`. */
    method ApplySettlement(token: string, proof: PaidProof) returns (result: SettleResult)
      requires Keyed(records)
      modifies `records
      ensures result == SettleOn(old(records), token, proof)
      ensures records == SettledRecords(old(records), token, result)
    {
      var k := Find(records, token);
      if k == |records| { return Refused(NotFound, None); }
      var row := records[k];
      if row.paidTx.Some? && Same(row.paidTx.value, proof.tx) { return Settled(row, false); }
      if row.paidTx.Some? && !Same(row.paidTx.value, proof.tx) { return Refused(AlreadyPaidDifferent, Some(row)); }
      var used := TxIsUsed(token, proof.tx);
      if used { return Refused(SettlementUsed, Some(row)); }
      if proof.ProofV2? {
        var taken := RequestIsUsed(token, proof);
        if taken { return Refused(DuplicateRequest, Some(row)); }
      }
      var next := NextPaid(row, proof);
      if next.Some? && next.value.paidTx.Some? && Same(next.value.paidTx.value, proof.tx) {
        records := records[k := next.value];
        return Settled(next.value, true);
      }
      if IsLateSettlement(row, proof) {
        var late := row.(lateSettlementTx := Some(proof.tx));
        records := records[k := late];
        return Refused(LateSettlement, Some(late));
      }
      return Refused(Rejected, Some(row));
    }

    method TxIsUsed(token: string, tx: string) returns (used: bool)
      ensures used == TxUsed(records, token, tx)
    {
      for i := 0 to |records|
        invariant forall j | 0 <= j < i :: records[j].token == token || !PaidWith(records[j], tx)
      {
        if records[i].token != token && PaidWith(records[i], tx) { return true; }
      }
      return false;
    }

    method RequestIsUsed(token: string, proof: PaidProof) returns (used: bool)
      requires proof.ProofV2?
      ensures used == RequestUsed(records, token, proof)
    {
      for i := 0 to |records|
        invariant forall j | 0 <= j < i :: records[j].token == token || !PaidFor(records[j], proof.requestId)
      {
        if records[i].token != token && PaidFor(records[i], proof.requestId) { return true; }
      }
      return false;
    }

    /** The mutation of `createPayRecord`. */
    method CreateRow(record: PayRecord, merchant: string, owns: string -> bool, limit: nat) returns (result: CreateResult)
      modifies `records
      ensures result == CreateOn(old(records), record, merchant, owns, limit)
      ensures records == match result
                         case Merged(saved) => old(records)[Find(old(records), record.token) := saved]
                         case Created(saved) => old(records) + [saved]
                         case _ => old(records)
    {
      var k := Find(records, record.token);
      if k < |records| {
        var saved := Merge(Some(records[k]), record);
        records := records[k := saved];
        return Merged(saved);
      }
      if IsV2RequestId(record.id) {
        for i := 0 to |records|
          invariant forall j | 0 <= j < i :: !Collides(records[j], record, merchant)
          invariant records == old(records)
        {
          if Collides(records[i], record, merchant) { return Duplicate; }
        }
      }
      var owned := 0;
      for i := 0 to |records|
        invariant owned == OwnedBy(records[..i], owns)
        invariant records == old(records)
      {
        assert records[..i + 1][..i] == records[..i];
        if owns(records[i].token) { owned := owned + 1; }
      }
      assert records[..|records|] == records;
      if owned >= limit { return LimitReached; }
      records := records + [record];
      return Created(record);
    }

    /** `enqueuePaymentPaidInStore`; returns the ids of the rows it added. */
    method EnqueuePaymentPaid(row: PayRecord, paidTx: string, now: int, body: string, supply: nat -> string) returns (inserted: seq<string>)
      modifies `deliveries
      ensures deliveries == if PaidWith(row, paidTx)
                            then EnqueuePaid(old(deliveries), endpoints, row.to, PaymentPaidEventId(row, paidTx), now, body, supply)
                            else old(deliveries)
      ensures forall id | id in deliveries && id !in old(deliveries) :: id in inserted
      ensures forall id | id in inserted :: id in deliveries
    {
      inserted := [];
      if !PaidWith(row, paidTx) { return; }
      var event := PaymentPaidEventId(row, paidTx);
      for i := 0 to |endpoints|
        invariant deliveries == EnqueuePaid(old(deliveries), endpoints[..i], row.to, event, now, body, supply)
        invariant forall id | id in deliveries && id !in old(deliveries) :: id in inserted
        invariant forall id | id in inserted :: id in deliveries
      {
        assert endpoints[..i + 1][..i] == endpoints[..i];
        var endpoint := endpoints[i];
        if !Subscribed(endpoint, row.to) { continue; }
        var seen := FirstAttemptExists(event, endpoint.id);
        if seen { continue; }
        deliveries := deliveries[supply(i) := NewDelivery(supply(i), event, endpoint.id, endpoint.merchant, 1, now, body)];
        inserted := inserted + [supply(i)];
      }
      assert endpoints[..|endpoints|] == endpoints;
    }

    /** `hasDelivery`. */
    method FirstAttemptExists(event: EventId, webhookId: string) returns (found: bool)
      ensures found == HasFirst(deliveries, event, webhookId)
    {
      var rest := deliveries.Keys;
      while rest != {}
        invariant rest <= deliveries.Keys
        invariant forall id | id in deliveries && id !in rest ::
          !(deliveries[id].eventId == event && deliveries[id].webhookId == webhookId && deliveries[id].attempt == 1)
        decreases rest
      {
        var id :| id in rest;
        var row := deliveries[id];
        if row.eventId == event && row.webhookId == webhookId && row.attempt == 1 { return true; }
        rest := rest - {id};
      }
      return false;
    }

    /** `preserveDurableFlags`: the rows being written keep what the stored rows had recorded. */
    method PreserveDurableFlags(current: seq<PayRecord>)
      modifies `records
      ensures records == KeepRows(current, old(records))
    {
      for i := 0 to |current|
        invariant records == KeepRows(current[..i], old(records))
      {
        assert current[..i + 1][..i] == current[..i];
        var stored := current[i];
        var k := Find(records, stored.token);
        if k == |records| {
          if stored.paidTx.Some? || stored.cancelled { records := records + [stored]; }
          continue;
        }
        var next := records[k];
        if stored.paidTx.Some? && next.paidTx.None? {
          next := next.(paidTx := stored.paidTx);
          if stored.paidBlockTimestamp.Some? && next.paidBlockTimestamp.None? {
            next := next.(paidBlockTimestamp := stored.paidBlockTimestamp);
          }
        }
        if stored.cancelled && !next.cancelled && next.paidTx.None? {
          next := next.(cancelled := true, cancelledAt := stored.cancelledAt);
          if stored.cancelledAtSeconds.Some? { next := next.(cancelledAtSeconds := stored.cancelledAtSeconds); }
        }
        if stored.lateSettlementTx.Some? && next.lateSettlementTx.None? {
          next := next.(lateSettlementTx := stored.lateSettlementTx);
        }
        records := records[k := next];
      }
      assert current[..|current|] == current;
    }
  }
}
