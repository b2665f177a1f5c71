/** Why a receipt is refused, exactly, by the receipt verifier and by the agent proof. */
module ReceiptReasons {
  import opened Text
  import opened Receipts

  /** The request can be read, has not been cancelled, and is paid on its chain, for its merchant, in time. */
  predicate InOrder(fields: Option<Fields>, cancelled: bool, observation: Option<Observation>, signer: Option<string>, chain: Chain)
  {
    && fields.Some? && !cancelled && observation.Some? && observation.value.chainId == chain.chainId
    && signer == Some(fields.value.merchant) && observation.value.blockTimestamp < fields.value.expiresAt
  }

  /** Memo `k` is the first with the request's id. */
  predicate IsFirst(r: Receipt, k: int, f: Fields, chain: Chain)
  {
    0 <= k < |r.memos| && r.memos[k].memoId == chain.memoIdOf(f.requestId) && forall i | 0 <= i < k :: r.memos[i].memoId != r.memos[k].memoId
  }

  /** The verifier names what is wrong with the request before what is wrong with the payment. */
  lemma {:induction false} RequestReasons(r: Receipt, fields: Option<Fields>, cancelled: bool, observation: Option<Observation>,
                                          signer: Option<string>, chain: Chain)
    ensures var v := VerifyV2(r, fields, cancelled, observation, signer, chain);
            && v.transactionSucceeded == r.success
            && (v.reason == Some("reverted") <==> !r.success)
            && (v.reason == Some("structure") <==> r.success && fields.None?)
            && (v.reason == Some("cancelled") <==> r.success && fields.Some? && cancelled)
            && (v.reason == Some("chain") <==>
                  r.success && fields.Some? && !cancelled && (observation.None? || observation.value.chainId != chain.chainId))
            && (v.reason == Some("signature") <==>
                  r.success && fields.Some? && !cancelled && observation.Some? && observation.value.chainId == chain.chainId
                  && signer != Some(fields.value.merchant))
            && (v.reason == Some("expired") <==>
                  r.success && fields.Some? && !cancelled && observation.Some? && observation.value.chainId == chain.chainId
                  && signer == Some(fields.value.merchant) && observation.value.blockTimestamp >= fields.value.expiresAt)
            && (v.exactForRequest <==> v.reason.None?)
            && (!r.success ==> (v.memoEventValid <==> |r.memos| > 0) && !v.settlementValid)
            && (r.success && fields.None? ==> !v.memoEventValid && !v.settlementValid)
            && (r.success && fields.Some? ==>
                  && (v.memoEventValid <==> exists k :: IsFirst(r, k, fields.value, chain))
                  && (v.settlementValid <==> exists k :: IsFirst(r, k, fields.value, chain) && Pays(r, k, fields.value, chain)))
  {
    hide BindTransfer, FirstWithId, FirstBound;
    if fields.Some? {
      var k := FirstWithId(r.memos, chain.memoIdOf(fields.value.requestId));
      BoundTarget(r, k, chain);
      if k < |r.memos| { assert IsFirst(r, k, fields.value, chain); }
      forall j | IsFirst(r, j, fields.value, chain) ensures j == k {}
    }
  }

  /** For a request in order: no memo carries its id, or the first that does misses the token, the binding, the recipient or the amount. */
  lemma {:induction false} PaymentReasons(r: Receipt, fields: Option<Fields>, cancelled: bool, observation: Option<Observation>,
                                          signer: Option<string>, chain: Chain)
    requires r.success && InOrder(fields, cancelled, observation, signer, chain)
    ensures var v, f := VerifyV2(r, fields, cancelled, observation, signer, chain), fields.value;
            && (v.reason == Some("memo-id") <==> forall k :: !IsFirst(r, k, f, chain))
            && forall k | IsFirst(r, k, f, chain) ::
                 var paid := BindTransfer(r.memos[k], r, chain);
                 && v.memoEventValid
                 && (v.reason == Some("target") <==> r.memos[k].target != chain.usdc)
                 && (v.reason == Some("settlement") <==> r.memos[k].target == chain.usdc && paid.None?)
                 && (v.reason == Some("recipient") <==> paid.Some? && paid.value.to != f.recipient)
                 && (v.reason == Some("amount") <==> paid.Some? && paid.value.to == f.recipient && paid.value.value != f.amountBaseUnits)
                 && (v.exactForRequest <==> paid.Some? && paid.value.to == f.recipient && paid.value.value == f.amountBaseUnits)
  {
    hide BindTransfer, FirstWithId, ParseMemoReceipt;
    var f := fields.value;
    var k := FirstWithId(r.memos, chain.memoIdOf(f.requestId));
    BoundTarget(r, k, chain);
    if k < |r.memos| { assert IsFirst(r, k, f, chain); }
    forall j | IsFirst(r, j, f, chain) ensures j == k {}
  }

  /** What the plain receipt parser reports: the first bound memo and its transfer, or else the first memo and no settlement. */
  lemma {:induction false} ParsesExactly(r: Receipt, chain: Chain)
    ensures var p := ParseMemoReceipt(r, chain);
            && p.transactionSucceeded == r.success
            && (p.memoEventValid <==> |r.memos| > 0)
            && (p.settlementValid <==> r.success && exists k :: 0 <= k < |r.memos| && BindTransfer(r.memos[k], r, chain).Some?)
            && (forall k | 0 <= k < |r.memos| && BindTransfer(r.memos[k], r, chain).Some?
                           && (forall i | 0 <= i < k :: BindTransfer(r.memos[i], r, chain).None?) ::
                  p.to == Some(BindTransfer(r.memos[k], r, chain).value.to) && p.amount == BindTransfer(r.memos[k], r, chain).value.value
                  && p.memoId == Some(r.memos[k].memoId) && p.sender == Some(r.memos[k].sender))
            && ((forall k | 0 <= k < |r.memos| :: BindTransfer(r.memos[k], r, chain).None?) ==>
                  p.to.None? && p.amount == 0 && (|r.memos| > 0 ==> p.memoId == Some(r.memos[0].memoId) && p.sender == Some(r.memos[0].sender)))
  {
    hide BindTransfer;
  }

  /**
    The agent proof: nothing bound, a certificate that does not match or is missing, or the first
    bound memo pays someone else, something else or for another request, or late. The codes for a
    reverted receipt, another chain and another token cannot come up.
  */
  lemma {:induction false} BindingReasons(r: Receipt, certificate: Option<Certificate>, f: Fields, at: Option<int>, chain: Chain)
    ensures var reason := BindProof(AssembleArcProof(ParseMemoReceipt(r, chain), certificate, r, chain), f, at, chain);
            var k := FirstBound(r.memos, r, chain);
            var settled := r.success && k < |r.memos|;
            var certified := settled && certificate.Some? && CertificateMatches(certificate.value, r);
            && reason !in {Some("reverted"), Some("chain"), Some("token")}
            && (reason == Some("partial") <==> settled && certificate.None?)
            && (reason == Some("invalid") <==> !settled || (certificate.Some? && !CertificateMatches(certificate.value, r)))
            && (certified ==>
                  var memo, paid := r.memos[k], BindTransfer(r.memos[k], r, chain).value;
                  && (reason == Some("recipient") <==> paid.to != f.recipient)
                  && (reason == Some("amount") <==> paid.to == f.recipient && paid.value != f.amountBaseUnits)
                  && (reason == Some("memo") <==>
                        paid.to == f.recipient && paid.value == f.amountBaseUnits && memo.memoId != chain.memoIdOf(f.requestId))
                  && (reason == Some("block_time") <==>
                        paid.to == f.recipient && paid.value == f.amountBaseUnits && memo.memoId == chain.memoIdOf(f.requestId) && at.None?)
                  && (reason == Some("expired") <==>
                        paid.to == f.recipient && paid.value == f.amountBaseUnits && memo.memoId == chain.memoIdOf(f.requestId)
                        && at.Some? && at.value >= f.expiresAt))
  {
    hide BindTransfer, FirstBound, CertificateMatches;
  }
}
