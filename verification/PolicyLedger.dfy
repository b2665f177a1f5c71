/**
  ONE merchant's spend-cap ledger, src/lib/policyLedger.ts: lazy recovery, the committed-spend sum,
  and the decisions that reserve and transition calls make on a snapshot they have read.
*/
module PolicyLedger {
  import opened Text

  datatype Status = Reserved | Consumed | Released

  datatype Row = Row(id: string, amount: nat, reservedAt: int, expiresAt: int, status: Status,
                     consumedAt: Option<int>, releasedAt: Option<int>, releaseReason: Option<string>)

  /** `doc.reservations` in insertion order; a row is stored under its own id. */
  type Doc = seq<Row>

  const RESERVATION_RELEASE_GRACE_SECONDS: int := 3600

  datatype IntentStatus = AwaitingPayment | Submitted | Verified | Failed

  datatype IntentFact = IntentFact(status: IntentStatus, submittedTxHash: Option<string>, verifiedAt: Option<int>)

  type Intents = map<string, IntentFact>

  datatype SpendFact = SpendFact(id: string, amount: nat, verifiedAt: int)

  datatype Policy = Policy(cap: Option<nat>, windowSeconds: Option<nat>)

  ghost predicate Keyed(doc: Doc)
  {
    && (forall i, j | 0 <= i < j < |doc| :: doc[i].id != doc[j].id)
    && (forall i | 0 <= i < |doc| :: Lower(doc[i].id) == doc[i].id)
  }

  /** The index of the row with this id, or the length when there is none. */
  function Find(doc: Doc, id: string): (k: nat)
    ensures k <= |doc| && (k < |doc| ==> doc[k].id == id)
    ensures forall i | 0 <= i < k :: doc[i].id != id
  {
    if doc == [] then 0 else if doc[0].id == id then 0 else 1 + Find(doc[1..], id)
  }

  // ---------------------------------------------------------------- lazy recovery

  function RecoverRow(row: Row, intents: Intents, now: int): Row
  {
    var id := Lower(row.id);
    if row.status != Reserved then row
    else if id in intents && intents[id].status == Verified && intents[id].verifiedAt.Some? then
      row.(status := Consumed, consumedAt := intents[id].verifiedAt)
    else if id in intents && intents[id].status == Failed then
      row.(status := Released, releasedAt := Some(now), releaseReason := Some("intent_failed"))
    else if (id !in intents || (intents[id].status == AwaitingPayment && intents[id].submittedTxHash.None?))
            && now >= row.expiresAt + RESERVATION_RELEASE_GRACE_SECONDS then
      row.(status := Released, releasedAt := Some(now),
           releaseReason := Some(if id in intents then "intent_expired" else "intent_never_stored"))
    else row
  }

  function Recovered(doc: Doc, intents: Intents, now: int): (d: Doc)
    ensures |d| == |doc|
  {
    seq(|doc|, i requires 0 <= i < |doc| => RecoverRow(doc[i], intents, now))
  }

  // ---------------------------------------------------------------- committed spend

  function InWindow(at: int, now: int, window: nat): bool
  {
    now - window < at <= now
  }

  function FactShare(fact: SpendFact, now: int, window: nat): nat
  {
    if InWindow(fact.verifiedAt, now, window) then fact.amount else 0
  }

  /** The verified facts, each id once, that fall in the window. */
  function VerifiedTotal(verified: seq<SpendFact>, counted: set<string>, now: int, window: nat): nat
    decreases |verified|
  {
    if verified == [] then 0
    else
      var id := Lower(verified[0].id);
      if id in counted then VerifiedTotal(verified[1..], counted, now, window)
      else FactShare(verified[0], now, window) + VerifiedTotal(verified[1..], counted + {id}, now, window)
  }

  function VerifiedIds(verified: seq<SpendFact>): set<string>
  {
    set f | f in verified :: Lower(f.id)
  }

  /** What one ledger row adds when its id has not been counted yet. */
  function RowShare(row: Row, counted: set<string>, now: int, window: nat): nat
  {
    if Lower(row.id) in counted then 0
    else if row.status == Reserved then row.amount
    else if row.status == Consumed && row.consumedAt.Some? && InWindow(row.consumedAt.value, now, window) then row.amount
    else 0
  }

  function RowsTotal(doc: Doc, counted: set<string>, now: int, window: nat): nat
  {
    if doc == [] then 0 else RowsTotal(doc[..|doc| - 1], counted, now, window) + RowShare(doc[|doc| - 1], counted, now, window)
  }

  function Committed(doc: Doc, verified: seq<SpendFact>, now: int, window: nat): nat
  {
    VerifiedTotal(verified, {}, now, window) + RowsTotal(doc, VerifiedIds(verified), now, window)
  }

  // ---------------------------------------------------------------- decisions

  datatype ReserveArgs = ReserveArgs(reservation: Row, policies: seq<Policy>, verified: seq<SpendFact>, intents: Intents, now: int)

  datatype Decision =
    | Conflict
    | Already
    | AlreadyAfter(doc: Doc)
    | Deny
    | Write(doc: Doc)

  predicate Exceeds(policy: Policy, doc: Doc, args: ReserveArgs)
  {
    && policy.cap.Some? && policy.windowSeconds.Some?
    && Committed(doc, args.verified, args.now, policy.windowSeconds.value) + args.reservation.amount > policy.cap.value
  }

  function Put(doc: Doc, row: Row): Doc
  {
    var k := Find(doc, row.id);
    if k < |doc| then doc[k := row] else doc + [row]
  }

  /** One attempt of `reserveSpendAtomically` on the ledger value it read. */
  function ReserveDecision(snapshot: Doc, args: ReserveArgs): Decision
  {
    var doc := Recovered(snapshot, args.intents, args.now);
    var k := Find(doc, args.reservation.id);
    if k < |doc| && doc[k].status != Released then
      if doc[k].amount != args.reservation.amount then Conflict
      else if doc == snapshot then Already
      else AlreadyAfter(doc)
    else if exists i :: 0 <= i < |args.policies| && Exceeds(args.policies[i], doc, args) then Deny
    else Write(Put(doc, args.reservation))
  }

  datatype Transition = ToConsumed(consumedAt: int) | ToReleased(releasedAt: int, reason: string)

  function Transitioned(row: Row, next: Transition): Row
  {
    match next
    case ToConsumed(at) => row.(status := Consumed, consumedAt := Some(at))
    case ToReleased(at, reason) => row.(status := Released, releasedAt := Some(at), releaseReason := Some(reason))
  }

  /** One attempt of `transitionReservation`: the document to commit, if the row is RESERVED. */
  function TransitionDecision(snapshot: Doc, id: string, next: Transition): Option<Doc>
  {
    var k := Find(snapshot, id);
    if k < |snapshot| && snapshot[k].status == Reserved then Some(snapshot[k := Transitioned(snapshot[k], next)]) else None
  }

  // ---------------------------------------------------------------- the loops, on a document object

  /** A parsed ledger document; the loops rewrite its rows in place. */
  class LedgerDoc {
    var reservations: Doc

    constructor (doc: Doc)
      ensures reservations == doc
    {
      reservations := doc;
    }

    /** `recoverReservations`. */
    method RecoverReservations(intents: Intents, now: int) returns (changed: bool)
      modifies this
      ensures reservations == Recovered(old(reservations), intents, now)
      ensures changed <==> reservations != old(reservations)
    {
      changed := false;
      for i := 0 to |reservations|
        invariant |reservations| == |old(reservations)|
        invariant forall k | 0 <= k < i :: reservations[k] == RecoverRow(old(reservations)[k], intents, now)
        invariant forall k | i <= k < |reservations| :: reservations[k] == old(reservations)[k]
        invariant changed <==> exists k :: 0 <= k < i && reservations[k] != old(reservations)[k]
      {
        var row := reservations[i];
        if row.status == Reserved {
          var id := Lower(row.id);
          if id in intents && intents[id].status == Verified && intents[id].verifiedAt.Some? {
            reservations := reservations[i := row.(status := Consumed, consumedAt := intents[id].verifiedAt)];
            changed := true;
          } else if id in intents && intents[id].status == Failed {
            reservations := reservations[i := row.(status := Released, releasedAt := Some(now), releaseReason := Some("intent_failed"))];
            changed := true;
          } else if (id !in intents || (intents[id].status == AwaitingPayment && intents[id].submittedTxHash.None?))
                    && now >= row.expiresAt + RESERVATION_RELEASE_GRACE_SECONDS {
            var reason := if id in intents then "intent_expired" else "intent_never_stored";
            reservations := reservations[i := row.(status := Released, releasedAt := Some(now), releaseReason := Some(reason))];
            changed := true;
          }
        }
      }
    }

    /** `committedForCap`. */
    method CommittedForCap(verified: seq<SpendFact>, now: int, windowSeconds: nat) returns (total: nat)
      requires Keyed(reservations)
      ensures total == Committed(reservations, verified, now, windowSeconds)
    {
      var counted: set<string> := {};
      total := 0;
      for i := 0 to |verified|
        invariant counted == VerifiedIds(verified[..i])
        invariant total + VerifiedTotal(verified[i..], counted, now, windowSeconds) == VerifiedTotal(verified, {}, now, windowSeconds)
      {
        var id := Lower(verified[i].id);
        assert verified[..i + 1] == verified[..i] + [verified[i]];
        assert verified[i..][1..] == verified[i + 1..];
        if id !in counted {
          counted := counted + {id};
          if InWindow(verified[i].verifiedAt, now, windowSeconds) { total := total + verified[i].amount; }
        }
      }
      assert verified[..|verified|] == verified;
      ghost var ids, base := VerifiedIds(verified), total;
      for i := 0 to |reservations|
        invariant ids <= counted && forall x | x in counted :: x in ids || exists k :: 0 <= k < i && reservations[k].id == x
        invariant total == base + RowsTotal(reservations[..i], ids, now, windowSeconds)
      {
        var row := reservations[i];
        var id := Lower(row.id);
        assert reservations[..i + 1][..i] == reservations[..i];
        if id !in counted {
          if row.status == Reserved {
            counted := counted + {id};
            total := total + row.amount;
          } else if row.status == Consumed && row.consumedAt.Some? {
            counted := counted + {id};
            if InWindow(row.consumedAt.value, now, windowSeconds) { total := total + row.amount; }
          }
        }
      }
      assert reservations[..|reservations|] == reservations;
    }

    /** One pass of the reserve loop between the read and the commit. */
    method EvaluateReserve(args: ReserveArgs) returns (d: Decision)
      requires Keyed(reservations)
      modifies this
      ensures d == ReserveDecision(old(reservations), args)
    {
      var changed := RecoverReservations(args.intents, args.now);
      KeyedRecovered(old(reservations), args.intents, args.now);
      var k := Find(reservations, args.reservation.id);
      if k < |reservations| && reservations[k].status != Released {
        if reservations[k].amount != args.reservation.amount { return Conflict; }
        if !changed { return Already; }
        return AlreadyAfter(reservations);
      }
      var denied := false;
      for i := 0 to |args.policies|
        invariant reservations == Recovered(old(reservations), args.intents, args.now)
        invariant denied <==> exists j :: 0 <= j < i && Exceeds(args.policies[j], reservations, args)
      {
        var policy := args.policies[i];
        if policy.cap.None? || policy.windowSeconds.None? { continue; }
        var committed := CommittedForCap(args.verified, args.now, policy.windowSeconds.value);
        if committed + args.reservation.amount > policy.cap.value { denied := true; }
      }
      if denied { return Deny; }
      reservations := Put(reservations, args.reservation);
      return Write(reservations);
    }
  }

  lemma KeyedRecovered(doc: Doc, intents: Intents, now: int)
    requires Keyed(doc)
    ensures Keyed(Recovered(doc, intents, now))
  {
  }

  /** A row, but for the time at which it was released. */
  function Undated(row: Row): Row
  {
    row.(releasedAt := None)
  }

  /** Recovering early and again later leaves what recovering once, later, would have left, but for the release times. */
  lemma {:induction false} RecoveryComposes(doc: Doc, intents: Intents, now: int, later: int)
    requires now <= later
    ensures forall i | 0 <= i < |doc| ::
              Undated(Recovered(Recovered(doc, intents, now), intents, later)[i]) == Undated(Recovered(doc, intents, later)[i])
    ensures Recovered(Recovered(doc, intents, now), intents, now) == Recovered(doc, intents, now)
  {
    forall i | 0 <= i < |doc|
      ensures Undated(RecoverRow(RecoverRow(doc[i], intents, now), intents, later)) == Undated(RecoverRow(doc[i], intents, later))
      ensures RecoverRow(RecoverRow(doc[i], intents, now), intents, now) == RecoverRow(doc[i], intents, now)
    {
      RecoverRowTwice(doc[i], intents, now, later);
    }
  }

  lemma RecoverRowTwice(row: Row, intents: Intents, now: int, later: int)
    requires now <= later
    ensures Undated(RecoverRow(RecoverRow(row, intents, now), intents, later)) == Undated(RecoverRow(row, intents, later))
    ensures RecoverRow(RecoverRow(row, intents, now), intents, now) == RecoverRow(row, intents, now)
  {
  }
}
