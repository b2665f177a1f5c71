/** Which answer a reserve call gets on the ledger it has read, and exactly why. */
module ReserveAnswers {
  import opened Text
  import opened PolicyLedger
  import opened LedgerRuns
  import opened CapSafety

  /** Row `i` holds this id for some amount. */
  predicate HoldsAt(doc: Doc, i: int, id: string)
  {
    0 <= i < |doc| && doc[i].id == id && doc[i].status != Released
  }

  /** The document with the row stored under its id, in the place of an older row or at the end. */
  ghost predicate Stored(before: Doc, after: Doc, row: Row)
  {
    && |after| == |before| + (if exists i :: 0 <= i < |before| && before[i].id == row.id then 0 else 1)
    && (forall i | 0 <= i < |before| :: after[i] == if before[i].id == row.id then row else before[i])
    && (|after| > |before| ==> after[|before|] == row)
  }

  lemma PutStores(doc: Doc, row: Row)
    requires Keyed(doc)
    ensures Stored(doc, Put(doc, row), row)
  {
    hide Lower;
  }

  /**
    The exact decision. An id that is held is answered without looking at any cap. Otherwise the call
    is denied if and only if some policy has both a cap and a window, and committed spend and the new
    amount together are more than that cap; a request that fills it exactly is written.
  */
  lemma {:induction false} ReserveAnswersExactly(snapshot: Doc, args: ReserveArgs)
    requires Keyed(snapshot)
    ensures var doc := Recovered(snapshot, args.intents, args.now); var d, wanted := ReserveDecision(snapshot, args), args.reservation;
            && (d.Conflict? <==> exists i :: HoldsAt(doc, i, wanted.id) && doc[i].amount != wanted.amount)
            && (d.Already? <==> doc == snapshot && exists i :: HoldsAt(doc, i, wanted.id) && doc[i].amount == wanted.amount)
            && (d.AlreadyAfter? <==> doc != snapshot && exists i :: HoldsAt(doc, i, wanted.id) && doc[i].amount == wanted.amount)
            && (d.AlreadyAfter? ==> d.doc == doc)
            && (d.Deny? <==>
                  (forall i :: !HoldsAt(doc, i, wanted.id))
                  && exists p :: p in args.policies && p.cap.Some? && p.windowSeconds.Some?
                                 && Committed(doc, args.verified, args.now, p.windowSeconds.value) + wanted.amount > p.cap.value)
            && (d.Write? ==> Stored(doc, d.doc, wanted))
  {
    hide Lower, Committed, Put, Stored;
    var doc, wanted := Recovered(snapshot, args.intents, args.now), args.reservation;
    KeyedRecovered(snapshot, args.intents, args.now);
    PutStores(doc, wanted);
    var k := Find(doc, wanted.id);
    OnlyRow(doc, k, wanted.id);
    if i :| 0 <= i < |args.policies| && Exceeds(args.policies[i], doc, args) { assert args.policies[i] in args.policies; }
    if p :| p in args.policies && p.cap.Some? && p.windowSeconds.Some?
            && Committed(doc, args.verified, args.now, p.windowSeconds.value) + wanted.amount > p.cap.value
    {
      var i :| 0 <= i < |args.policies| && args.policies[i] == p;
      assert Exceeds(args.policies[i], doc, args);
    }
  }

  lemma OnlyRow(doc: Doc, k: nat, id: string)
    requires Keyed(doc) && k == Find(doc, id)
    ensures if HoldsAt(doc, k, id) then forall i :: HoldsAt(doc, i, id) ==> i == k else forall i :: !HoldsAt(doc, i, id)
  {
    hide Lower;
  }

  /**
    So with fitting facts a call whose id is not held is denied if and only if what weighs on some
    policy's window, with the new amount, is more than the policy's cap.
  */
  lemma {:induction false} DeniedExactly(settled: map<string, SpendFact>, snapshot: Doc, args: ReserveArgs)
    requires Keyed(snapshot) && NoneAhead(Recovered(snapshot, args.intents, args.now), args.now)
    requires FactsFit(settled, Recovered(snapshot, args.intents, args.now), args.verified)
    ensures var doc := Recovered(snapshot, args.intents, args.now);
            ReserveDecision(snapshot, args).Deny? <==>
              (forall i :: !HoldsAt(doc, i, args.reservation.id))
              && exists p :: p in args.policies && p.cap.Some? && p.windowSeconds.Some?
                             && Weight(doc, args.verified, args.now, p.windowSeconds.value) + args.reservation.amount > p.cap.value
  {
    hide Recovered, Committed, Weight, Keyed, NoneAhead, FactsFit, ReserveDecision, HoldsAt;
    var doc := Recovered(snapshot, args.intents, args.now);
    ReserveAnswersExactly(snapshot, args);
    KeyedRecovered(snapshot, args.intents, args.now);
    forall p | p in args.policies && p.windowSeconds.Some?
      ensures Committed(doc, args.verified, args.now, p.windowSeconds.value) == Weight(doc, args.verified, args.now, p.windowSeconds.value)
    {
      CommittedIsWeight(settled, doc, args.verified, args.now, p.windowSeconds.value);
    }
  }

  // ---------------------------------------------------------------- what recovery and transitions do to a row

  /** Everything but the settlement of the row. */
  predicate SameHold(before: Row, after: Row)
  {
    && after.id == before.id && after.amount == before.amount
    && after.reservedAt == before.reservedAt && after.expiresAt == before.expiresAt
  }

  /** Recovery may release the hold: its intent failed, or was never paid for and the hour after expiry is over. */
  ghost predicate Lapses(row: Row, intents: Intents, now: int)
  {
    var id := Lower(row.id);
    || (id in intents && intents[id].status == Failed)
    || ((id in intents ==> intents[id].status == AwaitingPayment && intents[id].submittedTxHash.None?) && row.expiresAt + 3600 <= now)
  }

  /** Recovery settles a RESERVED row exactly by these rules, and no other row. */
  lemma {:induction false} RecoversExactly(doc: Doc, intents: Intents, now: int, i: nat)
    requires i < |doc|
    ensures var before, after := doc[i], Recovered(doc, intents, now)[i];
            var paid := Lower(before.id) in intents && intents[Lower(before.id)].status == Verified && intents[Lower(before.id)].verifiedAt.Some?;
            && SameHold(before, after)
            && (before.status != Reserved || (!paid && !Lapses(before, intents, now)) ==> after == before)
            && (before.status == Reserved && paid ==>
                  after.status == Consumed && after.consumedAt == intents[Lower(before.id)].verifiedAt
                  && after.releasedAt == before.releasedAt && after.releaseReason == before.releaseReason)
            && (before.status == Reserved && Lapses(before, intents, now) ==>
                  after.status == Released && after.releasedAt == Some(now) && after.consumedAt == before.consumedAt
                  && after.releaseReason == Some(if Lower(before.id) !in intents then "intent_never_stored"
                                                 else if intents[Lower(before.id)].status == Failed then "intent_failed" else "intent_expired"))
  {
    hide Lower;
  }

  /** A transition takes effect exactly on a RESERVED row, settles it as asked, and touches no other row. */
  lemma {:induction false} MovesExactly(snapshot: Doc, id: string, next: Transition)
    requires Keyed(snapshot)
    ensures TransitionDecision(snapshot, id, next).Some? <==> exists i :: HoldsAt(snapshot, i, id) && snapshot[i].status == Reserved
    ensures var d := TransitionDecision(snapshot, id, next);
            d.Some? ==>
              && |d.value| == |snapshot|
              && forall i | 0 <= i < |snapshot| ::
                   if snapshot[i].id != id then d.value[i] == snapshot[i]
                   else
                     && SameHold(snapshot[i], d.value[i])
                     && (next.ToConsumed? ==> d.value[i].status == Consumed && d.value[i].consumedAt == Some(next.consumedAt)
                                              && d.value[i].releasedAt == snapshot[i].releasedAt)
                     && (next.ToReleased? ==> d.value[i].status == Released && d.value[i].releasedAt == Some(next.releasedAt)
                                              && d.value[i].releaseReason == Some(next.reason) && d.value[i].consumedAt == snapshot[i].consumedAt)
  {
    hide Lower;
    OnlyRow(snapshot, Find(snapshot, id), id);
  }
}
