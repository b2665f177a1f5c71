/**
  The two definitions of "this receipt pays this request": the receipt verifier of src/lib/receipt.ts
  with src/lib/payPaid.ts, and the agent proof of src/lib/arcProof.ts with src/lib/agentPayments.ts.
  Logs are already decoded and in log order; addresses and hashes are in one canonical spelling, and
  the digests of calldata and request ids are parameters.
*/
module Receipts {
  import opened Text

  datatype Memo = Memo(sender: string, target: string, callDataHash: string, memoId: string, memoText: Option<string>,
                       memoIndex: int, logIndex: int)

  datatype BeforeMemo = BeforeMemo(memoIndex: int, logIndex: int)

  datatype Transfer = Transfer(from: string, to: string, value: nat, logIndex: int)

  datatype Receipt = Receipt(success: bool, txHash: string, blockNumber: nat, blockHash: Option<string>,
                             memos: seq<Memo>, befores: seq<BeforeMemo>, transfers: seq<Transfer>)

  /** The fixed contracts and the digests of the chain. */
  datatype Chain = Chain(usdc: string, memoContract: string, chainId: nat, callData: (string, nat) -> string, memoIdOf: string -> string)

  /** The fields of a V2 request, once `validateFinalRequest` has accepted them. */
  datatype Fields = Fields(requestId: string, merchant: string, recipient: string, amountBaseUnits: nat, expiresAt: int)

  const MAX_SAFE_INTEGER: int := 9007199254740991

  // ---------------------------------------------------------------- binding a transfer to a memo

  function LatestBefore(memo: Memo, befores: seq<BeforeMemo>): Option<int>
  {
    if befores == [] then None
    else
      var rest, b := LatestBefore(memo, befores[..|befores| - 1]), befores[|befores| - 1];
      if b.memoIndex == memo.memoIndex && b.logIndex < memo.logIndex && (rest.None? || b.logIndex > rest.value)
      then Some(b.logIndex) else rest
  }

  predicate InWindow(t: Transfer, memo: Memo, start: int, chain: Chain)
  {
    start < t.logIndex < memo.logIndex && t.from == memo.sender && chain.callData(t.to, t.value) == memo.callDataHash
  }

  function Candidates(transfers: seq<Transfer>, memo: Memo, start: int, chain: Chain): seq<Transfer>
  {
    if transfers == [] then []
    else
      var t := transfers[|transfers| - 1];
      Candidates(transfers[..|transfers| - 1], memo, start, chain) + (if InWindow(t, memo, start, chain) then [t] else [])
  }

  /** `bindTransfer`. */
  function BindTransfer(memo: Memo, r: Receipt, chain: Chain): Option<Transfer>
  {
    if memo.target != chain.usdc then None
    else
      var start := LatestBefore(memo, r.befores);
      if start.None? then None
      else
        var matches := Candidates(r.transfers, memo, start.value, chain);
        if |matches| != 1 then None else Some(matches[0])
  }

  lemma {:induction false} LatestBeforeIs(memo: Memo, befores: seq<BeforeMemo>)
    ensures LatestBefore(memo, befores).None? <==>
              forall k | 0 <= k < |befores| :: !(befores[k].memoIndex == memo.memoIndex && befores[k].logIndex < memo.logIndex)
    ensures LatestBefore(memo, befores).Some? ==>
              && (exists k :: 0 <= k < |befores| && befores[k].memoIndex == memo.memoIndex && befores[k].logIndex == LatestBefore(memo, befores).value < memo.logIndex)
              && (forall k | 0 <= k < |befores| && befores[k].memoIndex == memo.memoIndex && befores[k].logIndex < memo.logIndex ::
                    befores[k].logIndex <= LatestBefore(memo, befores).value)
  {
    if befores != [] {
      var n := |befores| - 1;
      LatestBeforeIs(memo, befores[..n]);
      assert forall k | 0 <= k < n :: befores[..n][k] == befores[k];
    }
  }

  lemma {:induction false} CandidatesAre(transfers: seq<Transfer>, memo: Memo, start: int, chain: Chain)
    ensures forall t | t in Candidates(transfers, memo, start, chain) :: t in transfers && InWindow(t, memo, start, chain)
    ensures |Candidates(transfers, memo, start, chain)| == 0 <==> forall k | 0 <= k < |transfers| :: !InWindow(transfers[k], memo, start, chain)
    ensures |Candidates(transfers, memo, start, chain)| == 1 <==>
              exists k :: 0 <= k < |transfers| && OnlyInWindow(transfers, k, memo, start, chain)
    ensures forall k | 0 <= k < |transfers| && OnlyInWindow(transfers, k, memo, start, chain) ::
              Candidates(transfers, memo, start, chain) == [transfers[k]]
  {
    hide InWindow;
    if transfers != [] {
      var n := |transfers| - 1;
      var front := transfers[..n];
      CandidatesAre(front, memo, start, chain);
      assert forall k | 0 <= k < n :: front[k] == transfers[k];
      OnlySnoc(transfers, memo, start, chain);
    }
  }

  /** The k-th transfer is in the window and no other is. */
  ghost predicate OnlyInWindow(transfers: seq<Transfer>, k: int, memo: Memo, start: int, chain: Chain)
    requires 0 <= k < |transfers|
  {
    InWindow(transfers[k], memo, start, chain) && forall j | 0 <= j < |transfers| && j != k :: !InWindow(transfers[j], memo, start, chain)
  }

  lemma OnlySnoc(transfers: seq<Transfer>, memo: Memo, start: int, chain: Chain)
    requires transfers != []
    ensures var n := |transfers| - 1;
            && (forall k | 0 <= k < n :: OnlyInWindow(transfers, k, memo, start, chain) <==>
                  OnlyInWindow(transfers[..n], k, memo, start, chain) && !InWindow(transfers[n], memo, start, chain))
            && (OnlyInWindow(transfers, n, memo, start, chain) <==>
                  InWindow(transfers[n], memo, start, chain) && forall k | 0 <= k < n :: !InWindow(transfers[..n][k], memo, start, chain))
  {
    hide InWindow;
    var n := |transfers| - 1;
    assert forall k | 0 <= k < n :: transfers[..n][k] == transfers[k];
  }

  /** Transfer `k`, and no other, lies strictly between the two log indices, from the memo's sender and with its calldata. */
  ghost predicate OnlyBetween(transfers: seq<Transfer>, k: int, memo: Memo, start: int, chain: Chain)
  {
    0 <= k < |transfers|
    && forall j | 0 <= j < |transfers| ::
         j == k <==> start < transfers[j].logIndex && transfers[j].logIndex < memo.logIndex && transfers[j].from == memo.sender
                     && chain.callData(transfers[j].to, transfers[j].value) == memo.callDataHash
  }

  /**
    A memo is bound exactly when it targets USDC, has a BeforeMemo of its own before it, and one
    transfer and no second lies between the two; and then it is bound to that one.
  */
  lemma BoundExactly(memo: Memo, r: Receipt, chain: Chain)
    ensures var start := LatestBefore(memo, r.befores);
            BindTransfer(memo, r, chain).Some? <==>
              memo.target == chain.usdc && start.Some? && exists k :: OnlyBetween(r.transfers, k, memo, start.value, chain)
    ensures var start, bound := LatestBefore(memo, r.befores), BindTransfer(memo, r, chain);
            bound.Some? ==> forall k | OnlyBetween(r.transfers, k, memo, start.value, chain) :: bound.value == r.transfers[k]
  {
    hide InWindow;
    var start := LatestBefore(memo, r.befores);
    if start.Some? {
      CandidatesAre(r.transfers, memo, start.value, chain);
      forall k | 0 <= k < |r.transfers|
        ensures OnlyBetween(r.transfers, k, memo, start.value, chain) <==> OnlyInWindow(r.transfers, k, memo, start.value, chain)
      {
        OnlyOne(r.transfers, k, memo, start.value, chain);
      }
    }
  }

  lemma OnlyOne(transfers: seq<Transfer>, k: nat, memo: Memo, start: int, chain: Chain)
    requires k < |transfers|
    ensures OnlyBetween(transfers, k, memo, start, chain) <==> OnlyInWindow(transfers, k, memo, start, chain)
  {
  }

  // ---------------------------------------------------------------- the receipt verifier

  function FirstWithId(memos: seq<Memo>, memoId: string): (k: nat)
    ensures k <= |memos| && (k < |memos| ==> memos[k].memoId == memoId)
    ensures forall i | 0 <= i < k :: memos[i].memoId != memoId
  {
    if memos == [] then 0 else if memos[0].memoId == memoId then 0 else 1 + FirstWithId(memos[1..], memoId)
  }

  datatype Verification = Verification(transactionSucceeded: bool, memoEventValid: bool, settlementValid: bool,
                                       exactForRequest: bool, reason: Option<string>)

  function Reject(v: Verification, reason: string): Verification
  {
    v.(exactForRequest := false, reason := Some(reason))
  }

  /** `judgeMatch` on what `matchMemoSettlement` found. */
  function Judge(memo: Option<Memo>, transfer: Option<Transfer>, recipient: string, amount: nat, chain: Chain): Verification
  {
    if memo.None? then Verification(true, false, false, false, Some("memo-id"))
    else if memo.value.target != chain.usdc then Verification(true, true, false, false, Some("target"))
    else if transfer.None? then Verification(true, true, false, false, Some("settlement"))
    else if transfer.value.to != recipient then Verification(true, true, false, false, Some("recipient"))
    else if transfer.value.value != amount then Verification(true, true, false, false, Some("amount"))
    else Verification(true, true, true, true, None)
  }

  datatype Observation = Observation(blockTimestamp: int, chainId: nat)

  /** `verifyReceiptForRequest` for a V2 request; `fields` is None when the structure is refused, `signer` None when recovery throws. */
  function VerifyV2(r: Receipt, fields: Option<Fields>, cancelled: bool, observation: Option<Observation>,
                    signer: Option<string>, chain: Chain): Verification
  {
    if !r.success then Verification(false, ParseMemoReceipt(r, chain).memoEventValid, false, false, Some("reverted"))
    else if fields.None? then Verification(true, false, false, false, Some("structure"))
    else
      var f := fields.value;
      var k := FirstWithId(r.memos, chain.memoIdOf(f.requestId));
      var memo := if k < |r.memos| then Some(r.memos[k]) else None;
      var transfer := if k < |r.memos| then BindTransfer(r.memos[k], r, chain) else None;
      var judged := Judge(memo, transfer, f.recipient, f.amountBaseUnits, chain);
      if cancelled then Reject(judged, "cancelled")
      else if observation.None? || observation.value.chainId != chain.chainId then Reject(judged, "chain")
      else if signer != Some(f.merchant) then Reject(judged, "signature")
      else if observation.value.blockTimestamp >= f.expiresAt then Reject(judged, "expired")
      else judged
  }

  datatype V2Proof = V2Proof(tx: string, requestId: string, blockTimestamp: int, expiresAt: int)

  /** `v2SettlementProof`. */
  function SettlementProof(r: Receipt, fields: Option<Fields>, cancelled: bool, observation: Observation,
                           signer: Option<string>, chain: Chain): Option<V2Proof>
  {
    if !VerifyV2(r, fields, cancelled, Some(observation), signer, chain).exactForRequest then None
    else if fields.None? || observation.blockTimestamp > MAX_SAFE_INTEGER then None
    else Some(V2Proof(r.txHash, fields.value.requestId, observation.blockTimestamp, fields.value.expiresAt))
  }

  // ---------------------------------------------------------------- the parsed receipt and the agent proof

  function FirstBound(memos: seq<Memo>, r: Receipt, chain: Chain): (k: nat)
    ensures k <= |memos| && (k < |memos| ==> BindTransfer(memos[k], r, chain).Some?)
    ensures forall i | 0 <= i < k :: BindTransfer(memos[i], r, chain).None?
  {
    if memos == [] then 0 else if BindTransfer(memos[0], r, chain).Some? then 0 else 1 + FirstBound(memos[1..], r, chain)
  }

  datatype Parsed = Parsed(transactionSucceeded: bool, memoEventValid: bool, settlementValid: bool,
                           to: Option<string>, amount: nat, memoId: Option<string>, sender: Option<string>)

  /** `parseMemoReceipt`; the amount is kept in base units. */
  function ParseMemoReceipt(r: Receipt, chain: Chain): Parsed
  {
    var k := FirstBound(r.memos, r, chain);
    var memo := if k < |r.memos| then Some(r.memos[k]) else if |r.memos| > 0 then Some(r.memos[0]) else None;
    var transfer := if k < |r.memos| then BindTransfer(r.memos[k], r, chain) else None;
    Parsed(r.success, memo.Some?, r.success && transfer.Some?,
           if transfer.Some? then Some(transfer.value.to) else None, if transfer.Some? then transfer.value.value else 0,
           if memo.Some? then Some(memo.value.memoId) else None, if memo.Some? then Some(memo.value.sender) else None)
  }

  datatype Certificate = Certificate(height: nat, blockHash: string, signatures: nat)

  /** `checkCertificate(...).matched`. */
  predicate CertificateMatches(c: Certificate, r: Receipt)
  {
    c.height == r.blockNumber && r.blockHash.Some? && Lower(c.blockHash) == Lower(r.blockHash.value) && c.signatures > 0
  }

  datatype ProofStatus = Verified | Partial | Invalid

  datatype ArcProof = ArcProof(status: ProofStatus, success: bool, chainId: nat, memoContract: Option<string>, memoId: Option<string>,
                               memoValid: bool, token: Option<string>, to: Option<string>, amountBaseUnits: Option<nat>, settlementValid: bool)

  /** `assembleArcProof`, the parts a binding reads. */
  function AssembleArcProof(p: Parsed, certificate: Option<Certificate>, r: Receipt, chain: Chain): ArcProof
  {
    var status :=
      if !p.transactionSucceeded || !p.memoEventValid || !p.settlementValid then Invalid
      else if certificate.None? then Partial
      else if CertificateMatches(certificate.value, r) then Verified
      else Invalid;
    ArcProof(status, p.transactionSucceeded, chain.chainId,
             if p.memoEventValid then Some(chain.memoContract) else None, if p.memoEventValid then p.memoId else None, p.memoEventValid,
             if p.settlementValid then Some(chain.usdc) else None, if p.settlementValid then p.to else None,
             if p.settlementValid then Some(p.amount) else None, p.settlementValid)
  }

  /** `bindProof`: None when the proof is bound to the intent, otherwise the reason. */
  function BindProof(proof: ArcProof, f: Fields, blockTimestamp: Option<int>, chain: Chain): Option<string>
  {
    if proof.status != Verified then Some(if proof.status == Partial then "partial" else "invalid")
    else if !proof.success then Some("reverted")
    else if proof.chainId != chain.chainId then Some("chain")
    else if !proof.settlementValid || proof.token != Some(chain.usdc) then Some("token")
    else if proof.to != Some(f.recipient) then Some("recipient")
    else if proof.amountBaseUnits != Some(f.amountBaseUnits) then Some("amount")
    else if !proof.memoValid || proof.memoId != Some(chain.memoIdOf(f.requestId)) then Some("memo")
    else if proof.memoContract != Some(chain.memoContract) then Some("memo")
    else if blockTimestamp.None? then Some("block_time")
    else if blockTimestamp.value >= f.expiresAt then Some("expired")
    else None
  }

  function Binds(r: Receipt, certificate: Option<Certificate>, f: Fields, blockTimestamp: Option<int>, chain: Chain): bool
  {
    BindProof(AssembleArcProof(ParseMemoReceipt(r, chain), certificate, r, chain), f, blockTimestamp, chain).None?
  }

  // ---------------------------------------------------------------- what each of them means

  /** Memo `k` is bound to a transfer of the right amount to the right recipient. */
  predicate Pays(r: Receipt, k: nat, f: Fields, chain: Chain)
    requires k < |r.memos|
  {
    && r.memos[k].memoId == chain.memoIdOf(f.requestId)
    && BindTransfer(r.memos[k], r, chain).Some?
    && BindTransfer(r.memos[k], r, chain).value.to == f.recipient
    && BindTransfer(r.memos[k], r, chain).value.value == f.amountBaseUnits
  }

  /** The verifier looks at the first memo that carries the request's id, and its proof records the receipt's transaction and the observed time. */
  lemma {:induction false} VerifierAccepts(r: Receipt, f: Fields, at: int, signer: Option<string>, chain: Chain)
    requires r.success && signer == Some(f.merchant)
    ensures var proof := SettlementProof(r, Some(f), false, Observation(at, chain.chainId), signer, chain);
            && (proof.Some? <==>
                  at < f.expiresAt && at <= 9007199254740991
                  && exists k: nat :: k < |r.memos| && Pays(r, k, f, chain) && forall i | 0 <= i < k :: r.memos[i].memoId != r.memos[k].memoId)
            && (proof.Some? ==> proof.value == V2Proof(r.txHash, f.requestId, at, f.expiresAt))
  {
    hide BindTransfer;
    var k := FirstWithId(r.memos, chain.memoIdOf(f.requestId));
    BoundTarget(r, k, chain);
    if j: nat :| j < |r.memos| && Pays(r, j, f, chain) && forall i | 0 <= i < j :: r.memos[i].memoId != r.memos[j].memoId {
      assert j == k;
    }
  }

  lemma BoundTarget(r: Receipt, k: nat, chain: Chain)
    ensures k < |r.memos| && BindTransfer(r.memos[k], r, chain).Some? ==> r.memos[k].target == chain.usdc
  {
  }

  /** The agent proof wants a matching certificate with a signature, and looks at the first memo that is bound to any transfer. */
  lemma {:induction false} BindingAccepts(r: Receipt, certificate: Option<Certificate>, f: Fields, at: Option<int>, chain: Chain)
    ensures Binds(r, certificate, f, at, chain) <==>
              && r.success && at.Some? && at.value < f.expiresAt
              && certificate.Some? && certificate.value.height == r.blockNumber && certificate.value.signatures > 0
              && r.blockHash.Some? && Lower(certificate.value.blockHash) == Lower(r.blockHash.value)
              && exists k: nat :: k < |r.memos| && Pays(r, k, f, chain) && forall i | 0 <= i < k :: BindTransfer(r.memos[i], r, chain).None?
  {
    hide BindTransfer, Lower;
    var k := FirstBound(r.memos, r, chain);
    if Binds(r, certificate, f, at, chain) {
      assert Pays(r, k, f, chain);
    }
    if j: nat :| j < |r.memos| && Pays(r, j, f, chain) && forall i | 0 <= i < j :: BindTransfer(r.memos[i], r, chain).None? {
      assert j == k;
    }
  }

  // ---------------------------------------------------------------- where they agree

  /** For a receipt with one Memo event, the two definitions of payment are the same. */
  lemma {:induction false} DefinitionsAgree(r: Receipt, c: Certificate, f: Fields, at: int, signer: Option<string>, chain: Chain)
    requires r.success && CertificateMatches(c, r) && signer == Some(f.merchant) && f.expiresAt <= MAX_SAFE_INTEGER
    requires |r.memos| == 1
    ensures Binds(r, Some(c), f, Some(at), chain) <==>
              SettlementProof(r, Some(f), false, Observation(at, chain.chainId), signer, chain).Some?
  {
    hide Binds, SettlementProof, Pays, BindTransfer, Lower;
    VerifierAccepts(r, f, at, signer, chain);
    BindingAccepts(r, Some(c), f, Some(at), chain);
  }

  /** A reverted receipt is refused by both, whatever its logs say. */
  lemma {:induction false} RevertedIsRefused(r: Receipt, certificate: Option<Certificate>, fields: Option<Fields>, f: Fields, cancelled: bool,
                          observation: Observation, signer: Option<string>, chain: Chain)
    requires !r.success
    ensures SettlementProof(r, fields, cancelled, observation, signer, chain).None?
    ensures !Binds(r, certificate, f, Some(observation.blockTimestamp), chain)
  {
    hide BindTransfer;
  }

  /** For any number of Memo events: a receipt the verifier accepts is bound exactly when no earlier memo is bound to a transfer. */
  lemma {:induction false} VerifiedBindsExactly(r: Receipt, c: Certificate, f: Fields, at: int, signer: Option<string>, chain: Chain)
    requires r.success && CertificateMatches(c, r) && signer == Some(f.merchant) && f.expiresAt <= MAX_SAFE_INTEGER
    requires SettlementProof(r, Some(f), false, Observation(at, chain.chainId), signer, chain).Some?
    ensures var k := FirstWithId(r.memos, chain.memoIdOf(f.requestId));
            Binds(r, Some(c), f, Some(at), chain) <==> forall i | 0 <= i < k :: BindTransfer(r.memos[i], r, chain).None?
  {
    hide Binds, SettlementProof, BindTransfer, Lower;
    VerifierAccepts(r, f, at, signer, chain);
    BindingAccepts(r, Some(c), f, Some(at), chain);
    var id := chain.memoIdOf(f.requestId);
    var j: nat :| j < |r.memos| && Pays(r, j, f, chain) && forall i | 0 <= i < j :: r.memos[i].memoId != r.memos[j].memoId;
    assert j == FirstWithId(r.memos, id);
  }

  /** And a receipt that is bound is accepted exactly when no earlier memo carries the same id. */
  lemma {:induction false} BoundVerifiesExactly(r: Receipt, c: Certificate, f: Fields, at: int, signer: Option<string>, chain: Chain)
    requires r.success && CertificateMatches(c, r) && signer == Some(f.merchant) && f.expiresAt <= MAX_SAFE_INTEGER
    requires Binds(r, Some(c), f, Some(at), chain)
    ensures var k := FirstBound(r.memos, r, chain);
            SettlementProof(r, Some(f), false, Observation(at, chain.chainId), signer, chain).Some? <==>
              forall i | 0 <= i < k :: r.memos[i].memoId != chain.memoIdOf(f.requestId)
  {
    hide Binds, SettlementProof, BindTransfer, Lower;
    VerifierAccepts(r, f, at, signer, chain);
    BindingAccepts(r, Some(c), f, Some(at), chain);
    var j: nat :| j < |r.memos| && Pays(r, j, f, chain) && forall i | 0 <= i < j :: BindTransfer(r.memos[i], r, chain).None?;
    assert j == FirstBound(r.memos, r, chain);
  }

  /** Two payments in one transaction: the second request is paid for the verifier and not for the agent proof. */
  lemma SecondMemoIsNotBound()
    ensures var chain := Chain("usdc", "memo", 5042, (to: string, value: nat) => to, (id: string) => id);
            var r := Receipt(true, "tx", 7, Some("b"), [Memo("p", "usdc", "x", "1", None, 0, 3), Memo("p", "usdc", "y", "2", None, 1, 6)],
                             [BeforeMemo(0, 1), BeforeMemo(1, 4)], [Transfer("p", "x", 1, 2), Transfer("p", "y", 1, 5)]);
            var f := Fields("2", "m", "y", 1, 100);
            SettlementProof(r, Some(f), false, Observation(10, 5042), Some("m"), chain).Some?
            && !Binds(r, Some(Certificate(7, "b", 1)), f, Some(10), chain)
  {
    var chain := Chain("usdc", "memo", 5042, (to: string, value: nat) => to, (id: string) => id);
    var r := Receipt(true, "tx", 7, Some("b"), [Memo("p", "usdc", "x", "1", None, 0, 3), Memo("p", "usdc", "y", "2", None, 1, 6)],
                     [BeforeMemo(0, 1), BeforeMemo(1, 4)], [Transfer("p", "x", 1, 2), Transfer("p", "y", 1, 5)]);
    var f := Fields("2", "m", "y", 1, 100);
    assert "x" != "y" && "1" != "2" by { assert "x"[0] != "y"[0] && "1"[0] != "2"[0]; }
    BoundTo(r.memos[0], r, chain, 0);
    BoundTo(r.memos[1], r, chain, 1);
    assert Pays(r, 1, f, chain);
    VerifierAccepts(r, f, 10, Some("m"), chain);
    BindingAccepts(r, Some(Certificate(7, "b", 1)), f, Some(10), chain);
  }

  lemma BoundTo(memo: Memo, r: Receipt, chain: Chain, k: nat)
    requires memo.target == chain.usdc && LatestBefore(memo, r.befores).Some? && k < |r.transfers|
    requires OnlyInWindow(r.transfers, k, memo, LatestBefore(memo, r.befores).value, chain)
    ensures BindTransfer(memo, r, chain) == Some(r.transfers[k])
  {
    CandidatesAre(r.transfers, memo, LatestBefore(memo, r.befores).value, chain);
  }

  /** Whatever else the receipt holds, an exact settlement is a settlement for the plain receipt parser too. */
  lemma {:induction false} ExactIsSettled(r: Receipt, fields: Option<Fields>, cancelled: bool, observation: Option<Observation>,
                       signer: Option<string>, chain: Chain)
    requires VerifyV2(r, fields, cancelled, observation, signer, chain).exactForRequest
    ensures ParseMemoReceipt(r, chain).settlementValid && ParseMemoReceipt(r, chain).memoEventValid
  {
    hide BindTransfer;
    var k := FirstWithId(r.memos, chain.memoIdOf(fields.value.requestId));
    assert BindTransfer(r.memos[k], r, chain).Some?;
  }
}
