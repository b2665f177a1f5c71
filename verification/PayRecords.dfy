/** One payment row and the pure rules on it, src/lib/payStore.ts. Absent, null and empty optional fields are `None`. */
module PayRecords {
  import opened Text

  datatype PayRecord = PayRecord(token: string, id: string, to: string, amount: string, memo: string, createdAt: string,
                                 views: nat, lastViewedAt: Option<string>,
                                 cancelled: bool, cancelledAt: Option<string>, cancelledAtSeconds: Option<int>,
                                 paidTx: Option<string>, paidBlockTimestamp: Option<int>,
                                 submittedHashes: seq<string>, lateSettlementTx: Option<string>, webhookUrl: Option<string>)

  datatype PaidProof =
    | ProofV1(tx: string)
    | ProofV2(tx: string, requestId: string, blockTimestamp: int, expiresAt: int)

  datatype CancelCommand =
    | CancelV1(payee: string)
    | CancelV2(requestId: string, nowSeconds: int, expiresAt: int)

  const MAX_SUBMITTED_HASHES: nat := 3

  predicate Same(left: string, right: string)
  {
    Lower(left) == Lower(right)
  }

  predicate IsHexDigit(c: char)
  {
    '0' <= c <= '9' || 'a' <= c <= 'f' || 'A' <= c <= 'F'
  }

  predicate IsHex(s: string, digits: nat)
  {
    |s| == 2 + digits && s[0] == '0' && s[1] == 'x' && forall i | 2 <= i < |s| :: IsHexDigit(s[i])
  }

  predicate IsV2RequestId(id: string)
  {
    IsHex(id, 32)
  }

  /** `Number.isSafeInteger`. */
  predicate IsSafe(n: int)
  {
    -9007199254740991 <= n <= 9007199254740991
  }

  datatype PayPhase = Open | Viewed | Paid | Cancelled | Expired

  function Phase(row: PayRecord, now: int, expiresAt: Option<int>): PayPhase
  {
    if row.paidTx.Some? then Paid
    else if row.cancelled then Cancelled
    else if expiresAt.Some? && now >= expiresAt.value then Expired
    else if row.views > 0 then Viewed
    else Open
  }

  function OrElse<T>(left: Option<T>, right: Option<T>): Option<T>
  {
    if left.Some? then left else right
  }

  function Merge(existing: Option<PayRecord>, incoming: PayRecord): PayRecord
  {
    if existing.None? then incoming
    else
      var row := existing.value;
      var url := OrElse(incoming.webhookUrl, row.webhookUrl);
      if row.paidTx.Some? || row.cancelled then row.(webhookUrl := url)
      else row.(amount := incoming.amount, memo := incoming.memo, to := incoming.to, id := incoming.id, paidTx := None, webhookUrl := url)
  }

  function NextPaid(row: PayRecord, proof: PaidProof): Option<PayRecord>
  {
    if row.paidTx.Some? then Some(row)
    else match proof
      case ProofV2(tx, requestId, at, expiresAt) =>
        if !IsV2RequestId(row.id) || !Same(row.id, requestId) then None
        else if !IsSafe(at) || !IsSafe(expiresAt) || at < 0 || expiresAt < 0 || at >= expiresAt then None
        else if row.cancelled then
          var cancelAt := row.cancelledAtSeconds;
          if cancelAt.None? || !IsSafe(cancelAt.value) || at >= cancelAt.value then None
          else Some(row.(paidTx := Some(tx), paidBlockTimestamp := Some(at), cancelled := false, cancelledAt := None))
        else Some(row.(paidTx := Some(tx), paidBlockTimestamp := Some(at)))
      case ProofV1(tx) =>
        if IsV2RequestId(row.id) || row.cancelled then None else Some(row.(paidTx := Some(tx)))
  }

  predicate IsLateSettlement(row: PayRecord, proof: PaidProof)
  {
    && row.cancelled && row.paidTx.None? && proof.ProofV2?
    && IsV2RequestId(row.id) && Same(row.id, proof.requestId)
    && IsSafe(proof.blockTimestamp) && IsSafe(proof.expiresAt) && proof.blockTimestamp < proof.expiresAt
    && (row.cancelledAtSeconds.None? || !IsSafe(row.cancelledAtSeconds.value) || proof.blockTimestamp >= row.cancelledAtSeconds.value)
  }

  /** `seconds` is the caller's cancel time and `clock` the server's own. */
  function NextCancelled(row: PayRecord, cancelledAt: string, command: CancelCommand, seconds: int, clock: nat): PayRecord
  {
    if row.paidTx.Some? || row.cancelled then row
    else if command.CancelV2? && command.nowSeconds >= command.expiresAt then row
    else
      var at := if IsSafe(seconds) then seconds else if command.CancelV2? then command.nowSeconds else clock;
      row.(cancelled := true, cancelledAt := Some(cancelledAt),
           cancelledAtSeconds := Some(if IsSafe(at) && at >= 0 then at else clock))
  }

  /** A proof and a cancelled row: superseding the cancel and recording a late settlement exclude each other. */
  lemma {:induction false} PaidOrLate(row: PayRecord, proof: PaidProof)
    requires row.paidTx.None?
    ensures !(NextPaid(row, proof).Some? && IsLateSettlement(row, proof))
    ensures row.cancelled && NextPaid(row, proof).Some? ==>
              proof.ProofV2? && row.cancelledAtSeconds.Some? && proof.blockTimestamp < row.cancelledAtSeconds.value
  {
  }

  /** Neither row has been settled, cancelled or viewed differently from the other. */
  predicate SameProgress(before: PayRecord, after: PayRecord)
  {
    && after.token == before.token && after.createdAt == before.createdAt && after.views == before.views
    && after.lastViewedAt == before.lastViewedAt && after.cancelled == before.cancelled && after.cancelledAt == before.cancelledAt
    && after.cancelledAtSeconds == before.cancelledAtSeconds && after.paidTx == before.paidTx
    && after.paidBlockTimestamp == before.paidBlockTimestamp && after.submittedHashes == before.submittedHashes
    && after.lateSettlementTx == before.lateSettlementTx
  }

  predicate SameTerms(left: PayRecord, right: PayRecord)
  {
    left.id == right.id && left.to == right.to && left.amount == right.amount && left.memo == right.memo
  }

  /**
    Registering again changes an open row's terms to the new ones and nothing of its progress; a PAID
    or cancelled row keeps its terms. Either way a webhook address is only ever replaced, not cleared.
  */
  lemma {:induction false} MergesExactly(row: PayRecord, incoming: PayRecord)
    ensures var saved := Merge(Some(row), incoming);
            && SameProgress(row, saved)
            && SameTerms(saved, if row.paidTx.Some? || row.cancelled then row else incoming)
            && saved.webhookUrl == (if incoming.webhookUrl.Some? then incoming.webhookUrl else row.webhookUrl)
    ensures Merge(None, incoming) == incoming
  {
  }

  /**
    A cancel takes effect exactly on a row that is neither PAID nor cancelled, before the V2 request
    expires. The recorded time is the caller's when it is a safe time, and the server's clock otherwise.
  */
  lemma {:induction false} CancelsExactly(row: PayRecord, cancelledAt: string, command: CancelCommand, seconds: int, clock: nat)
    ensures var next := NextCancelled(row, cancelledAt, command, seconds, clock);
            var asked := if command.CancelV2? && !IsSafe(seconds) then command.nowSeconds else seconds;
            var open := row.paidTx.None? && !row.cancelled && (command.CancelV2? ==> command.nowSeconds < command.expiresAt);
            && (!open ==> next == row)
            && (open ==>
                  && next.cancelled && next.cancelledAt == Some(cancelledAt)
                  && next.cancelledAtSeconds == Some(if 0 <= asked <= 9007199254740991 then asked else clock)
                  && SameTerms(row, next) && next.webhookUrl == row.webhookUrl
                  && SameProgress(row, next.(cancelled := row.cancelled, cancelledAt := row.cancelledAt, cancelledAtSeconds := row.cancelledAtSeconds)))
  {
  }

  /** What counts as a request id: 0x and 32 hexadecimal digits in either case. */
  lemma RequestIdsAreHex(id: string)
    ensures IsV2RequestId(id) <==>
              |id| == 34 && id[..2] == "0x"
              && forall i | 2 <= i < 34 ::
                   id[i] in {'0', '1', '2', '3', '4', '5', '6', '7', '8', '9',
                             'a', 'b', 'c', 'd', 'e', 'f', 'A', 'B', 'C', 'D', 'E', 'F'}
  {
  }

  /** The integers that a double holds exactly, with their neighbours. */
  lemma SafeIntegers(n: int)
    ensures IsSafe(n) <==> -0x20_0000_0000_0000 < n < 0x20_0000_0000_0000
  {
  }

  /** PAID shows before CANCELLED, either before an expiry that has come, and a viewed row differs from an open one. */
  lemma PhasesExactly(row: PayRecord, now: int, expiresAt: Option<int>)
    ensures var settled := row.paidTx.Some? || row.cancelled; var over := expiresAt.Some? && expiresAt.value <= now;
            && (Phase(row, now, expiresAt) == Paid <==> row.paidTx.Some?)
            && (Phase(row, now, expiresAt) == Cancelled <==> row.paidTx.None? && row.cancelled)
            && (Phase(row, now, expiresAt) == Expired <==> !settled && over)
            && (Phase(row, now, expiresAt) == Viewed <==> !settled && !over && row.views != 0)
            && (Phase(row, now, expiresAt) == Open <==> !settled && !over && row.views == 0)
  {
  }
}
