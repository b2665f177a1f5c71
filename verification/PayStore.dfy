/**
  The mutators that run inside one compare-and-set on the shared pay store, src/lib/payStore.ts and
  src/lib/settlement.ts: each takes the store it read to the store it wants written and an answer.
*/
module PayStore {
  import opened Text
  import opened PayRecords
  import opened Webhooks

  datatype Endpoint = Endpoint(id: string, merchant: string, enabled: bool, events: seq<string>)

  datatype HookSection = HookSection(endpoints: seq<Endpoint>, deliveries: Deliveries)

  /** The sections the payment code never looks into. */
  datatype Others = Others(apiKeys: Option<string>, escrows: Option<string>, agents: Option<string>,
                           policies: Option<string>, walletAuth: Option<string>)

  /** `records` in insertion order; a row is stored under its own token. */
  datatype Store = Store(records: seq<PayRecord>, webhooks: Option<HookSection>, others: Others)

  /** The sections that are set in `over`, and the others as they are in `base`. */
  function Overlay(over: Others, base: Others): Others
  {
    Others(OrElse(over.apiKeys, base.apiKeys), OrElse(over.escrows, base.escrows), OrElse(over.agents, base.agents),
           OrElse(over.policies, base.policies), OrElse(over.walletAuth, base.walletAuth))
  }

  const EMPTY_STORE: Store := Store([], None, Others(None, None, None, None, None))

  ghost predicate Keyed(records: seq<PayRecord>)
  {
    forall i, j | 0 <= i < j < |records| :: records[i].token != records[j].token
  }

  function Find(records: seq<PayRecord>, token: string): (k: nat)
    ensures k <= |records| && (k < |records| ==> records[k].token == token)
    ensures forall i | 0 <= i < k :: records[i].token != token
  {
    if records == [] then 0 else if records[0].token == token then 0 else 1 + Find(records[1..], token)
  }

  function Lookup(records: seq<PayRecord>, token: string): (row: Option<PayRecord>)
  {
    var k := Find(records, token);
    if k < |records| then Some(records[k]) else None
  }

  function Put(records: seq<PayRecord>, row: PayRecord): seq<PayRecord>
  {
    var k := Find(records, row.token);
    if k < |records| then records[k := row] else records + [row]
  }

  function Hooks(s: Store): HookSection
  {
    if s.webhooks.Some? then s.webhooks.value else HookSection([], map[])
  }

  // ---------------------------------------------------------------- create and cancel

  predicate Collides(other: PayRecord, record: PayRecord, merchant: string)
  {
    && other.token != record.token && IsV2RequestId(record.id) && IsV2RequestId(other.id)
    && Same(other.id, record.id) && Same(other.to, merchant)
  }

  /** `owns` says whether a token decodes to a request of the owner. */
  function OwnedBy(records: seq<PayRecord>, owns: string -> bool): nat
  {
    if records == [] then 0
    else OwnedBy(records[..|records| - 1], owns) + (if owns(records[|records| - 1].token) then 1 else 0)
  }

  datatype CreateResult = Merged(record: PayRecord) | Created(record: PayRecord) | Duplicate | LimitReached

  function CreateOn(records: seq<PayRecord>, record: PayRecord, merchant: string, owns: string -> bool, limit: nat): CreateResult
  {
    var existing := Lookup(records, record.token);
    if existing.Some? then Merged(Merge(existing, record))
    else if exists i :: 0 <= i < |records| && Collides(records[i], record, merchant) then Duplicate
    else if OwnedBy(records, owns) >= limit then LimitReached
    else Created(record)
  }

  predicate MayCancel(row: PayRecord, command: CancelCommand)
  {
    match command
    case CancelV1(payee) => Same(row.to, payee)
    case CancelV2(requestId, _, _) => IsV2RequestId(row.id) && Same(row.id, requestId)
  }

  function Cancelling(row: PayRecord, command: CancelCommand, cancelledAt: string, clock: nat): PayRecord
  {
    NextCancelled(row, cancelledAt, command, if command.CancelV2? then command.nowSeconds else clock, clock)
  }

  // ---------------------------------------------------------------- settlement

  datatype Refusal = NotFound | SettlementUsed | DuplicateRequest | AlreadyPaidDifferent | Rejected | LateSettlement

  datatype SettleResult =
    | Settled(record: PayRecord, transitioned: bool)
    | Refused(code: Refusal, row: Option<PayRecord>)

  predicate PaidWith(row: PayRecord, tx: string)
  {
    row.paidTx.Some? && Same(row.paidTx.value, tx)
  }

  predicate PaidFor(row: PayRecord, requestId: string)
  {
    IsV2RequestId(row.id) && Same(row.id, requestId) && row.paidTx.Some?
  }

  predicate TxUsed(records: seq<PayRecord>, token: string, tx: string)
  {
    exists i :: 0 <= i < |records| && records[i].token != token && PaidWith(records[i], tx)
  }

  predicate RequestUsed(records: seq<PayRecord>, token: string, proof: PaidProof)
  {
    proof.ProofV2? && exists i :: 0 <= i < |records| && records[i].token != token && PaidFor(records[i], proof.requestId)
  }

  function SettleOn(records: seq<PayRecord>, token: string, proof: PaidProof): SettleResult
  {
    var k := Find(records, token);
    if k == |records| then Refused(NotFound, None)
    else
      var row := records[k];
      if row.paidTx.Some? then
        if Same(row.paidTx.value, proof.tx) then Settled(row, false) else Refused(AlreadyPaidDifferent, Some(row))
      else if TxUsed(records, token, proof.tx) then Refused(SettlementUsed, Some(row))
      else if RequestUsed(records, token, proof) then Refused(DuplicateRequest, Some(row))
      else
        var next := NextPaid(row, proof);
        if next.Some? && next.value.paidTx.Some? && Same(next.value.paidTx.value, proof.tx) then Settled(next.value, true)
        else if IsLateSettlement(row, proof) then Refused(LateSettlement, Some(row.(lateSettlementTx := Some(proof.tx))))
        else Refused(Rejected, Some(row))
  }

  /** The rows after a settlement attempt with this result. */
  function SettledRecords(records: seq<PayRecord>, token: string, result: SettleResult): seq<PayRecord>
  {
    var k := Find(records, token);
    if k == |records| then records
    else match result
      case Settled(record, true) => records[k := record]
      case Refused(LateSettlement, Some(row)) => records[k := row]
      case _ => records
  }

  // ---------------------------------------------------------------- the outbox

  function PaymentPaidEventId(row: PayRecord, tx: string): EventId
  {
    PaidEvent(Lower(if row.id != "" then row.id else row.token), Lower(tx))
  }

  predicate Subscribed(endpoint: Endpoint, merchant: string)
  {
    endpoint.enabled && Same(endpoint.merchant, merchant) && "payment.paid" in endpoint.events
  }

  /** The row an endpoint gets; `supply(i)` is the id drawn for the i-th endpoint. */
  function AnnounceFor(endpoint: Endpoint, id: string, event: EventId, now: int, body: string): HookOp
    requires event.PaidEvent?
  {
    Announce(id, event.request, event.tx, endpoint.id, endpoint.merchant, body, now)
  }

  function EnqueuePaid(d: Deliveries, endpoints: seq<Endpoint>, merchant: string, event: EventId, now: int, body: string, supply: nat -> string): Deliveries
    requires event.PaidEvent?
  {
    if endpoints == [] then d
    else
      var n := |endpoints| - 1;
      var before := EnqueuePaid(d, endpoints[..n], merchant, event, now, body, supply);
      if Subscribed(endpoints[n], merchant) then Apply(before, AnnounceFor(endpoints[n], supply(n), event, now, body)) else before
  }

  // ---------------------------------------------------------------- operations on the store

  datatype Op =
    | Create(record: PayRecord, owner: string, owns: string -> bool, limit: nat)
    | Upsert(record: PayRecord)
    | View(token: string, at: string)
    | Cancel(token: string, command: CancelCommand, cancelledAt: string, clock: nat)
    | Submit(token: string, hash: string)
    | Settle(token: string, proof: PaidProof)
    | SettleAndEnqueue(token: string, proof: PaidProof, now: int, body: string, supply: nat -> string)
    | Hook(op: HookOp)
    | SetEndpoints(endpoints: seq<Endpoint>)
    | PutSections(others: Others)

  datatype Answer =
    | Saved(record: PayRecord, created: bool)
    | Row(row: Option<PayRecord>)
    | Settlement(result: SettleResult)
    | Done

  datatype Effect = Kept(store: Store, answer: Answer) | Thrown(duplicate: bool)

  function AllLower(hashes: seq<string>): (r: seq<string>)
    ensures |r| == |hashes| && forall i | 0 <= i < |hashes| :: r[i] == Lower(hashes[i])
  {
    seq(|hashes|, i requires 0 <= i < |hashes| => Lower(hashes[i]))
  }

  function Submitted(row: PayRecord, hash: string): PayRecord
  {
    var current := AllLower(row.submittedHashes);
    if Lower(hash) in current || |current| >= MAX_SUBMITTED_HASHES then row
    else row.(submittedHashes := current + [Lower(hash)])
  }

  /** A change to one row, when it is there. */
  function Changed(s: Store, token: string, next: PayRecord): Store
  {
    var k := Find(s.records, token);
    if k < |s.records| then s.(records := s.records[k := next]) else s
  }

  function SettledStore(s: Store, op: Op): Store
    requires op.Settle? || op.SettleAndEnqueue?
  {
    var result := SettleOn(s.records, op.token, op.proof);
    var after := s.(records := SettledRecords(s.records, op.token, result));
    if op.SettleAndEnqueue? && result.Settled? && result.transitioned && result.record.paidTx.Some? then
      var hooks := Hooks(s);
      after.(webhooks := Some(hooks.(deliveries :=
        EnqueuePaid(hooks.deliveries, hooks.endpoints, result.record.to,
                    PaymentPaidEventId(result.record, result.record.paidTx.value), op.now, op.body, op.supply))))
    else after
  }

  function Run(s: Store, op: Op): Effect
  {
    match op
    case Create(record, owner, owns, limit) =>
      (match CreateOn(s.records, record, owner, owns, limit)
       case Merged(saved) => Kept(Changed(s, record.token, saved), Saved(saved, false))
       case Created(saved) => Kept(s.(records := s.records + [saved]), Saved(saved, true))
       case Duplicate => Thrown(true)
       case LimitReached => Thrown(false))
    case Upsert(record) =>
      var saved := Merge(Lookup(s.records, record.token), record);
      Kept(s.(records := Put(s.records, saved)), Saved(saved, false))
    case View(token, at) =>
      var row := Lookup(s.records, token);
      if row.None? then Kept(s, Row(None))
      else
        var seen := row.value.(views := row.value.views + 1, lastViewedAt := Some(at));
        Kept(Changed(s, token, seen), Row(Some(seen)))
    case Cancel(token, command, cancelledAt, clock) =>
      var row := Lookup(s.records, token);
      if row.None? || !MayCancel(row.value, command) then Kept(s, Row(None))
      else
        var next := Cancelling(row.value, command, cancelledAt, clock);
        Kept(Changed(s, token, next), Row(Some(next)))
    case Submit(token, hash) =>
      var row := Lookup(s.records, token);
      if !IsHex(Lower(hash), 64) || row.None? then Kept(s, Row(None))
      else Kept(Changed(s, token, Submitted(row.value, hash)), Row(Some(Submitted(row.value, hash))))
    case Settle(token, proof) =>
      Kept(SettledStore(s, op), Settlement(SettleOn(s.records, token, proof)))
    case SettleAndEnqueue(token, proof, _, _, _) =>
      Kept(SettledStore(s, op), Settlement(SettleOn(s.records, token, proof)))
    case Hook(hook) =>
      Kept(s.(webhooks := Some(Hooks(s).(deliveries := Apply(Hooks(s).deliveries, hook)))), Done)
    case SetEndpoints(endpoints) =>
      Kept(s.(webhooks := Some(Hooks(s).(endpoints := endpoints))), Done)
    case PutSections(others) => Kept(s.(others := Overlay(others, s.others)), Done)
  }

  // ---------------------------------------------------------------- the section guards

  function KeepFlags(stored: PayRecord, next: PayRecord): PayRecord
  {
    var a := if stored.paidTx.Some? && next.paidTx.None?
             then next.(paidTx := stored.paidTx,
                        paidBlockTimestamp := if stored.paidBlockTimestamp.Some? && next.paidBlockTimestamp.None?
                                              then stored.paidBlockTimestamp else next.paidBlockTimestamp)
             else next;
    var b := if stored.cancelled && !a.cancelled && a.paidTx.None?
             then a.(cancelled := true, cancelledAt := stored.cancelledAt,
                     cancelledAtSeconds := OrElse(stored.cancelledAtSeconds, a.cancelledAtSeconds))
             else a;
    if stored.lateSettlementTx.Some? && b.lateSettlementTx.None? then b.(lateSettlementTx := stored.lateSettlementTx) else b
  }

  /** The guard for one stored row on the outgoing rows. */
  function KeepRow(stored: PayRecord, outgoing: seq<PayRecord>): seq<PayRecord>
  {
    var k := Find(outgoing, stored.token);
    if k < |outgoing| then outgoing[k := KeepFlags(stored, outgoing[k])]
    else if stored.paidTx.Some? || stored.cancelled then outgoing + [stored]
    else outgoing
  }

  /** `preserveDurableFlags` over all stored rows. */
  function KeepRows(current: seq<PayRecord>, outgoing: seq<PayRecord>): seq<PayRecord>
  {
    if current == [] then outgoing
    else KeepRow(current[|current| - 1], KeepRows(current[..|current| - 1], outgoing))
  }

  function Guarded(current: Store, outgoing: Store): Store
  {
    Store(KeepRows(current.records, outgoing.records), OrElse(outgoing.webhooks, current.webhooks),
          Overlay(outgoing.others, current.others))
  }

  // ---------------------------------------------------------------- what a registration guarantees

  /** A created row is new, collides with no stored request of the merchant, and stays within the owner's limit. */
  lemma {:induction false} CreatedIsNew(records: seq<PayRecord>, record: PayRecord, merchant: string, owns: string -> bool, limit: nat)
    ensures CreateOn(records, record, merchant, owns, limit).Created? <==>
              && (forall i | 0 <= i < |records| :: records[i].token != record.token && !Collides(records[i], record, merchant))
              && OwnedBy(records, owns) < limit
    ensures CreateOn(records, record, merchant, owns, limit).Created? ==> OwnedBy(records + [record], owns) <= limit
    ensures CreateOn(records, record, merchant, owns, limit).Duplicate? ==>
              exists i :: 0 <= i < |records| && records[i].token != record.token
                          && Same(records[i].id, record.id) && Same(records[i].to, merchant)
  {
    hide Collides;
    assert (records + [record])[..|records|] == records;
    CollisionMeans(records, record, merchant);
  }

  lemma CollisionMeans(records: seq<PayRecord>, record: PayRecord, merchant: string)
    ensures forall i | 0 <= i < |records| && Collides(records[i], record, merchant) ::
              records[i].token != record.token && Same(records[i].id, record.id) && Same(records[i].to, merchant)
  {
  }

  /** Submitting a hash again changes nothing, and a row never holds more than three. */
  lemma {:induction false} SubmittingTwice(row: PayRecord, hash: string)
    requires |row.submittedHashes| <= MAX_SUBMITTED_HASHES
    ensures Submitted(Submitted(row, hash), hash) == Submitted(row, hash)
    ensures |Submitted(row, hash).submittedHashes| <= MAX_SUBMITTED_HASHES
    ensures Submitted(row, hash).paidTx == row.paidTx
  {
    var once := Submitted(row, hash);
    if once != row {
      var n := |row.submittedHashes|;
      assert once.submittedHashes[n] == Lower(hash);
      LowerIdempotent(hash);
      assert AllLower(once.submittedHashes)[n] == Lower(hash);
    }
  }

  /** A submitted hash is stored, in lower case and last, exactly when it is new and there are fewer than three. */
  lemma {:induction false} SubmitsExactly(row: PayRecord, hash: string)
    ensures var next := Submitted(row, hash);
            var isNew := |row.submittedHashes| < 3 && forall i | 0 <= i < |row.submittedHashes| :: !Same(row.submittedHashes[i], hash);
            && (!isNew ==> next == row)
            && (isNew ==>
                  && |next.submittedHashes| == |row.submittedHashes| + 1 && next.submittedHashes[|row.submittedHashes|] == Lower(hash)
                  && (forall i | 0 <= i < |row.submittedHashes| :: next.submittedHashes[i] == Lower(row.submittedHashes[i]))
                  && next.(submittedHashes := row.submittedHashes) == row)
  {
    hide Lower;
    var current := AllLower(row.submittedHashes);
    if Lower(hash) in current {
      var i :| 0 <= i < |current| && current[i] == Lower(hash);
      assert Same(row.submittedHashes[i], hash);
    } else {
      forall i | 0 <= i < |row.submittedHashes| ensures !Same(row.submittedHashes[i], hash) {
        assert current[i] in current;
      }
    }
  }
}
