/**
  Runs of many reserve and transition calls against one merchant's ledger key. Every call is a
  client that reads, decides on the value it read, and commits by compare-and-set; the events of a
  run interleave the clients' reads and commits in any order, and either of them may fail.
*/
module LedgerRuns {
  import opened Text
  import opened PolicyLedger

  datatype Call =
    | Reserve(args: ReserveArgs, maxAttempts: nat)
    | Move(id: string, next: Transition, maxAttempts: nat)

  datatype Outcome = GotReserved | GotAlready | GotDeny | GotConflict | GotUnavailable | MoveDone(ok: bool)

  /** `since` is the number of ledger values that had been stored when the call began. */
  datatype Client =
    | Waiting(call: Call, attempt: nat, since: nat)
    | Deciding(call: Call, attempt: nat, since: nat, snapshot: Doc, seen: nat)
    | Returned(call: Call, outcome: Outcome, since: nat)

  datatype Event =
    | Begins(c: nat, call: Call)
    | Reads(c: nat)
    | ReadFails(c: nat)
    | Commits(c: nat)
    | CommitFails(c: nat)
    | ReplyLost(c: nat)

  /** A hold: an id and the amount set aside for it. */
  type Hold = (string, nat)

  /**
    `history` holds every value the key has had, the present one last. `created` and `released`
    count the holds written and the holds given up; `granted` counts the calls that returned
    "reserved"; `lastNow` is the clock of the last call whose reservation was written.
  */
  datatype State = State(ledger: Doc, history: seq<Doc>, clients: map<nat, Client>,
                         created: multiset<Hold>, released: multiset<Hold>, granted: multiset<Hold>, lastNow: int)

  const EMPTY: State := State([], [[]], map[], multiset{}, multiset{}, multiset{}, 0)

  // ---------------------------------------------------------------- one client

  /** `mid` is the proposed document before the new reservation, if there is one, is put in. */
  datatype Effect = Answer(outcome: Outcome) | Propose(mid: Doc, doc: Doc, outcome: Outcome)

  function Decide(call: Call, snapshot: Doc): Effect
  {
    match call
    case Reserve(args, _) =>
      (match ReserveDecision(snapshot, args)
       case Conflict => Answer(GotConflict)
       case Already => Answer(GotAlready)
       case AlreadyAfter(doc) => Propose(doc, doc, GotAlready)
       case Deny => Answer(GotDeny)
       case Write(doc) => Propose(Recovered(snapshot, args.intents, args.now), doc, GotReserved))
    case Move(id, next, _) =>
      (match TransitionDecision(snapshot, id, next)
       case None => Answer(MoveDone(false))
       case Some(doc) => Propose(doc, doc, MoveDone(true)))
  }

  function Failure(call: Call): Outcome
  {
    if call.Reserve? then GotUnavailable else MoveDone(false)
  }

  function Next(call: Call, attempt: nat, since: nat): Client
  {
    if attempt < call.maxAttempts then Waiting(call, attempt + 1, since) else Returned(call, Failure(call), since)
  }

  /** The holds that end when `after` replaces `before`. */
  function Freed(before: Doc, after: Doc): set<Hold>
  {
    set i | 0 <= i < |before| && i < |after| && before[i].status != Released && after[i].status == Released
      :: (before[i].id, before[i].amount)
  }

  function NewHold(call: Call, outcome: Outcome): multiset<Hold>
  {
    if call.Reserve? && outcome == GotReserved then multiset{(call.args.reservation.id, call.args.reservation.amount)} else multiset{}
  }

  // ---------------------------------------------------------------- steps

  function With(s: State, c: nat, client: Client): State
  {
    s.(clients := s.clients[c := client])
  }

  /** The compare-and-set has succeeded: `doc` replaces the value the client evaluated. */
  function Install(s: State, call: Call, mid: Doc, doc: Doc, outcome: Outcome): State
  {
    s.(ledger := doc, history := s.history + [doc],
       created := s.created + NewHold(call, outcome),
       released := s.released + multiset(Freed(s.ledger, mid)),
       lastNow := if call.Reserve? && outcome == GotReserved then call.args.now else s.lastNow)
  }

  function Answered(s: State, c: nat, call: Call, outcome: Outcome, since: nat): State
  {
    With(s, c, Returned(call, outcome, since)).(granted := s.granted + NewHold(call, outcome))
  }

  function Step(s: State, e: Event): State
  {
    match e
    case Begins(c, call) =>
      if c in s.clients then s else With(s, c, Next(call, 0, |s.history|))
    case Reads(c) =>
      if c in s.clients && s.clients[c].Waiting?
      then var w := s.clients[c]; With(s, c, Deciding(w.call, w.attempt, w.since, s.ledger, |s.history|))
      else s
    case ReadFails(c) =>
      if c in s.clients && s.clients[c].Waiting?
      then var w := s.clients[c]; Answered(s, c, w.call, Failure(w.call), w.since)
      else s
    case Commits(c) =>
      if c in s.clients && s.clients[c].Deciding? then Committing(s, c, true) else s
    case ReplyLost(c) =>
      if c in s.clients && s.clients[c].Deciding? then Committing(s, c, false) else s
    case CommitFails(c) =>
      if c in s.clients && s.clients[c].Deciding? then
        var d := s.clients[c];
        match Decide(d.call, d.snapshot)
        case Answer(outcome) => Answered(s, c, d.call, outcome, d.since)
        case Propose(_, _, _) => Answered(s, c, d.call, Failure(d.call), d.since)
      else s
  }

  /** The commit reaches the store; `heard` says whether its reply reaches the client. */
  function Committing(s: State, c: nat, heard: bool): State
    requires c in s.clients && s.clients[c].Deciding?
  {
    var d := s.clients[c];
    match Decide(d.call, d.snapshot)
    case Answer(outcome) => Answered(s, c, d.call, outcome, d.since)
    case Propose(mid, doc, outcome) =>
      var stored := s.ledger == d.snapshot;
      var after := if stored then Install(s, d.call, mid, doc, outcome) else s;
      if !heard then Answered(after, c, d.call, Failure(d.call), d.since)
      else if stored then Answered(after, c, d.call, outcome, d.since)
      else With(after, c, Next(d.call, d.attempt, d.since))
  }

  function Run(events: seq<Event>): State
  {
    if events == [] then EMPTY else Step(Run(events[..|events| - 1]), events[|events| - 1])
  }

  // ---------------------------------------------------------------- how documents evolve

  ghost predicate Held(doc: Doc, hold: Hold)
  {
    exists i :: 0 <= i < |doc| && HeldAt(doc[i], hold)
  }

  predicate HeldAt(row: Row, hold: Hold)
  {
    row.id == hold.0 && row.amount == hold.1 && row.status != Released
  }

  /** Recovery and transitions only move a row's status forward. */
  ghost predicate Settles(before: Row, after: Row)
  {
    && after.id == before.id && after.amount == before.amount
    && (before.status == Released ==> after.status == Released)
    && (before.status == Consumed ==> after == before)
  }

  ghost predicate AllSettle(before: Doc, after: Doc)
  {
    |after| == |before| && forall i | 0 <= i < |before| :: Settles(before[i], after[i])
  }

  /** From one stored value to the next: rows stay in place, and a CONSUMED row stays as it is. */
  ghost predicate Evolves(before: Doc, after: Doc)
  {
    && |before| <= |after|
    && forall i | 0 <= i < |before| :: after[i].id == before[i].id && (before[i].status == Consumed ==> after[i] == before[i])
  }

  ghost predicate Canonical(call: Call)
  {
    call.Reserve? ==> Lower(call.args.reservation.id) == call.args.reservation.id && call.args.reservation.status == Reserved
  }

  function Wanted(call: Call): Hold
    requires call.Reserve?
  {
    (call.args.reservation.id, call.args.reservation.amount)
  }

  ghost predicate Inactive(doc: Doc, id: string)
  {
    forall i | 0 <= i < |doc| :: doc[i].id == id ==> doc[i].status == Released
  }

  ghost predicate Proposes(call: Call, snapshot: Doc, e: Effect)
    requires e.Propose?
  {
    && Keyed(e.mid) && Keyed(e.doc) && AllSettle(snapshot, e.mid) && Evolves(e.mid, e.doc)
    && (call.Reserve? ==> e.outcome in {GotReserved, GotAlready} && Held(e.doc, Wanted(call)))
    && (call.Move? ==> e.outcome == MoveDone(true))
    && (if call.Reserve? && e.outcome == GotReserved
        then Inactive(e.mid, call.args.reservation.id) && e.doc == Put(e.mid, call.args.reservation)
        else e.doc == e.mid)
  }

  lemma RecoverySettles(doc: Doc, intents: Intents, now: int)
    requires Keyed(doc)
    ensures Keyed(Recovered(doc, intents, now)) && AllSettle(doc, Recovered(doc, intents, now))
  {
    hide Keyed;
    KeyedRecovered(doc, intents, now);
  }

  lemma MissingIsInactive(doc: Doc, id: string)
    requires Keyed(doc) && (Find(doc, id) < |doc| ==> doc[Find(doc, id)].status == Released)
    ensures Inactive(doc, id)
  {
    hide Lower;
  }

  lemma PutEvolves(doc: Doc, row: Row)
    requires Keyed(doc) && Lower(row.id) == row.id && row.status == Reserved && Inactive(doc, row.id)
    ensures var after := Put(doc, row);
            Keyed(after) && Evolves(doc, after) && Held(after, (row.id, row.amount))
  {
    hide Find, Lower;
    var k, after := Find(doc, row.id), Put(doc, row);
    assert after[k] == row;
  }

  lemma {:induction false} DecideProposes(call: Call, snapshot: Doc)
    requires Keyed(snapshot) && Canonical(call)
    ensures Decide(call, snapshot).Propose? ==> Proposes(call, snapshot, Decide(call, snapshot))
  {
    if call.Move? {
      MoveProposes(call, snapshot);
    } else {
      ReserveProposes(call, snapshot);
    }
  }

  lemma MoveProposes(call: Call, snapshot: Doc)
    requires call.Move? && Keyed(snapshot)
    ensures Decide(call, snapshot).Propose? ==> Proposes(call, snapshot, Decide(call, snapshot))
  {
    hide ReserveDecision, Find, Lower, Held, Inactive, Put;
  }

  lemma ReserveProposes(call: Call, snapshot: Doc)
    requires call.Reserve? && Keyed(snapshot) && Canonical(call)
    ensures Decide(call, snapshot).Propose? ==> Proposes(call, snapshot, Decide(call, snapshot))
  {
    hide Exceeds, Lower, Keyed, Recovered, Find, Put, Inactive, AllSettle;
    var args := call.args;
    var doc := Recovered(snapshot, args.intents, args.now);
    RecoverySettles(snapshot, args.intents, args.now);
    var k := Find(doc, args.reservation.id);
    if k < |doc| && doc[k].status != Released {
      assert doc[k].amount == args.reservation.amount ==> HeldAt(doc[k], Wanted(call));
    } else {
      MissingIsInactive(doc, args.reservation.id);
      PutEvolves(doc, args.reservation);
    }
  }

  lemma AnswersHold(call: Call, snapshot: Doc)
    requires Keyed(snapshot) && Canonical(call)
    ensures Decide(call, snapshot) == Answer(GotAlready) ==> call.Reserve? && Held(snapshot, Wanted(call))
    ensures Decide(call, snapshot) != Answer(GotReserved)
  {
    hide Exceeds, Lower, Keyed, Recovered, Put;
    if call.Reserve? {
      var doc := Recovered(snapshot, call.args.intents, call.args.now);
      var k := Find(doc, call.args.reservation.id);
      assert doc == snapshot && k < |doc| && doc[k].amount == call.args.reservation.amount && doc[k].status != Released
             ==> HeldAt(snapshot[k], Wanted(call));
    }
  }

  // ---------------------------------------------------------------- counting holds

  function Count(doc: Doc, hold: Hold): nat
  {
    if exists i :: 0 <= i < |doc| && HeldAt(doc[i], hold) then 1 else 0
  }

  /** Every hold of the old value is either still there or has been given up, not both. */
  lemma SettlingBalances(before: Doc, after: Doc, hold: Hold)
    requires Keyed(before) && AllSettle(before, after)
    ensures Count(before, hold) == Count(after, hold) + multiset(Freed(before, after))[hold]
  {
    hide Lower;
    if i :| 0 <= i < |before| && HeldAt(before[i], hold) {
      if after[i].status == Released {
        assert hold in Freed(before, after);
        assert forall j | 0 <= j < |after| :: HeldAt(after[j], hold) ==> j == i;
      } else {
        assert HeldAt(after[i], hold);
        assert forall j | 0 <= j < |before| && before[j].id == hold.0 :: j == i;
        assert hold !in Freed(before, after);
      }
    } else {
      assert hold !in Freed(before, after);
      assert forall j | 0 <= j < |after| :: HeldAt(after[j], hold) ==> HeldAt(before[j], hold);
    }
  }

  lemma PutBalances(doc: Doc, row: Row, hold: Hold)
    requires Keyed(doc) && row.status == Reserved && Inactive(doc, row.id)
    ensures Count(Put(doc, row), hold) == Count(doc, hold) + multiset{(row.id, row.amount)}[hold]
  {
    hide Lower, Find;
    var k, after := Find(doc, row.id), Put(doc, row);
    assert after[k] == row;
    if hold == (row.id, row.amount) {
      assert HeldAt(after[k], hold);
    } else if i :| 0 <= i < |doc| && HeldAt(doc[i], hold) {
      assert i != k && HeldAt(after[i], hold);
    } else {
      assert forall j | 0 <= j < |after| && j != k :: after[j] == doc[j];
    }
  }

  // ---------------------------------------------------------------- the invariant of every run

  /** Some value stored between the start of the call and now held this row. */
  ghost predicate HeldDuring(history: seq<Doc>, since: nat, hold: Hold)
  {
    exists k :: since <= k + 1 <= |history| && 0 <= k && Held(history[k], hold)
  }

  ghost predicate ClientOk(history: seq<Doc>, client: Client)
  {
    && Canonical(client.call)
    && client.since <= |history|
    && (!client.Returned? ==> 1 <= client.attempt <= client.call.maxAttempts)
    && (client.Deciding? ==>
          client.since <= client.seen <= |history| && 0 < client.seen && history[client.seen - 1] == client.snapshot)
    && (client.Returned? && client.outcome in {GotReserved, GotAlready} ==>
          client.call.Reserve? && HeldDuring(history, client.since, Wanted(client.call)))
  }

  ghost predicate ClientsOk(s: State)
  {
    forall c | c in s.clients :: ClientOk(s.history, s.clients[c])
  }

  ghost predicate Balanced(s: State)
  {
    forall h: Hold :: s.created[h] == s.released[h] + Count(s.ledger, h) && s.granted[h] <= s.created[h]
  }

  ghost predicate HistoryOk(s: State)
  {
    && |s.history| > 0 && s.history[|s.history| - 1] == s.ledger
    && (forall k | 0 <= k < |s.history| :: Keyed(s.history[k]))
    && (forall k | 0 < k < |s.history| :: Evolves(s.history[k - 1], s.history[k]))
  }

  ghost predicate Consistent(s: State)
  {
    HistoryOk(s) && ClientsOk(s) && Balanced(s)
  }

  lemma ClientKeeps(history: seq<Doc>, doc: Doc, client: Client)
    requires ClientOk(history, client)
    ensures ClientOk(history + [doc], client)
  {
    hide Held, Canonical;
    if client.Returned? && client.outcome in {GotReserved, GotAlready} {
      var hold := Wanted(client.call);
      var k :| client.since <= k + 1 <= |history| && 0 <= k && Held(history[k], hold);
      assert (history + [doc])[k] == history[k];
    }
  }

  lemma SettleThenEvolve(before: Doc, mid: Doc, after: Doc)
    requires AllSettle(before, mid) && Evolves(mid, after)
    ensures Evolves(before, after)
  {
  }

  /** A successful compare-and-set keeps the invariant, whatever the caller then learns. */
  lemma InstallConsistent(s: State, call: Call)
    requires Consistent(s) && Canonical(call) && Decide(call, s.ledger).Propose?
    ensures var e := Decide(call, s.ledger); var after := Install(s, call, e.mid, e.doc, e.outcome);
            HistoryOk(after) && ClientsOk(after)
            && (forall h: Hold :: after.created[h] == after.released[h] + Count(after.ledger, h)
                                  && after.granted[h] + NewHold(call, e.outcome)[h] <= after.created[h])
            && (call.Reserve? ==> Held(after.ledger, Wanted(call)))
  {
    hide Decide, Keyed, Evolves, AllSettle, Count, Freed, ClientOk, Held, Put, Inactive, Lower;
    var e := Decide(call, s.ledger);
    var after := Install(s, call, e.mid, e.doc, e.outcome);
    DecideProposes(call, s.ledger);
    SettleThenEvolve(s.ledger, e.mid, e.doc);
    forall c | c in s.clients ensures ClientOk(after.history, s.clients[c]) {
      ClientKeeps(s.history, e.doc, s.clients[c]);
    }
    forall h: Hold
      ensures after.created[h] == after.released[h] + Count(after.ledger, h)
              && after.granted[h] + NewHold(call, e.outcome)[h] <= after.created[h]
    {
      SettlingBalances(s.ledger, e.mid, h);
      if call.Reserve? && e.outcome == GotReserved {
        PutBalances(e.mid, call.args.reservation, h);
      }
    }
  }

  lemma AnsweredConsistent(s: State, c: nat, call: Call, outcome: Outcome, since: nat)
    requires HistoryOk(s) && ClientsOk(s)
    requires forall h: Hold :: s.created[h] == s.released[h] + Count(s.ledger, h)
                               && s.granted[h] + NewHold(call, outcome)[h] <= s.created[h]
    requires ClientOk(s.history, Returned(call, outcome, since))
    ensures Consistent(Answered(s, c, call, outcome, since))
  {
    hide ClientOk, Count, Keyed, Evolves;
  }

  lemma NextOk(history: seq<Doc>, call: Call, attempt: nat, since: nat)
    requires Canonical(call) && since <= |history|
    ensures ClientOk(history, Next(call, attempt, since))
    ensures ClientOk(history, Returned(call, Failure(call), since))
  {
  }

  lemma HeldNow(s: State, since: nat, hold: Hold)
    requires HistoryOk(s) && since <= |s.history| && Held(s.ledger, hold)
    ensures HeldDuring(s.history, since, hold)
  {
    hide Held, Keyed, Evolves;
    assert s.history[|s.history| - 1] == s.ledger;
  }

  lemma AnswerConsistent(s: State, c: nat, heard: bool)
    requires Consistent(s) && c in s.clients && s.clients[c].Deciding?
    requires Decide(s.clients[c].call, s.clients[c].snapshot).Answer?
    ensures Consistent(Committing(s, c, heard))
  {
    hide Decide, HistoryOk, Count, Held, HeldDuring, Freed, Canonical, Install;
    var d := s.clients[c];
    SnapshotOk(s, c);
    assert ClientOk(s.history, d);
    DecidesWithin(d.call, d.snapshot);
    AnsweredOk(s, d);
    AnsweredConsistent(s, c, d.call, Decide(d.call, d.snapshot).outcome, d.since);
  }

  lemma DecidesWithin(call: Call, snapshot: Doc)
    requires Keyed(snapshot) && Canonical(call)
    ensures Decide(call, snapshot) != Answer(GotReserved)
  {
    hide Decide;
    AnswersHold(call, snapshot);
  }

  lemma LostConsistent(s: State, c: nat, heard: bool)
    requires Consistent(s) && c in s.clients && s.clients[c].Deciding? && s.ledger != s.clients[c].snapshot
    requires Decide(s.clients[c].call, s.clients[c].snapshot).Propose?
    ensures Consistent(Committing(s, c, heard))
  {
    hide Decide, Keyed, Evolves, Count, Held, HeldDuring, Freed, Canonical, Install;
    var d := s.clients[c];
    NextOk(s.history, d.call, d.attempt, d.since);
    if !heard {
      AnsweredConsistent(s, c, d.call, Failure(d.call), d.since);
    }
  }

  lemma WonConsistent(s: State, c: nat, heard: bool)
    requires Consistent(s) && c in s.clients && s.clients[c].Deciding? && s.ledger == s.clients[c].snapshot
    requires Decide(s.clients[c].call, s.clients[c].snapshot).Propose?
    ensures Consistent(Committing(s, c, heard))
  {
    hide Decide, HistoryOk, Count, Held, HeldDuring, Freed, Canonical, Answered;
    var d := s.clients[c];
    var e := Decide(d.call, d.snapshot);
    assert ClientOk(s.history, d);
    SnapshotOk(s, c);
    InstallConsistent(s, d.call);
    var after := Install(s, d.call, e.mid, e.doc, e.outcome);
    NextOk(after.history, d.call, d.attempt, d.since);
    if heard {
      WonOutcome(d.call, d.snapshot);
      if d.call.Reserve? { HeldNow(after, d.since, Wanted(d.call)); }
      AnsweredConsistent(after, c, d.call, e.outcome, d.since);
    } else {
      AnsweredConsistent(after, c, d.call, Failure(d.call), d.since);
    }
  }

  lemma WonOutcome(call: Call, snapshot: Doc)
    requires Decide(call, snapshot).Propose?
    ensures if call.Reserve? then Decide(call, snapshot).outcome in {GotReserved, GotAlready} else Decide(call, snapshot).outcome == MoveDone(true)
  {
    hide ReserveDecision, TransitionDecision;
  }

  lemma CommittingConsistent(s: State, c: nat, heard: bool)
    requires Consistent(s) && c in s.clients && s.clients[c].Deciding?
    ensures Consistent(Committing(s, c, heard))
  {
    hide *;
    if Decide(s.clients[c].call, s.clients[c].snapshot).Answer? {
      AnswerConsistent(s, c, heard);
    } else if s.ledger == s.clients[c].snapshot {
      WonConsistent(s, c, heard);
    } else {
      LostConsistent(s, c, heard);
    }
  }

  lemma SnapshotOk(s: State, c: nat)
    requires Consistent(s) && c in s.clients && s.clients[c].Deciding?
    ensures Keyed(s.clients[c].snapshot)
  {
    hide Keyed, Held, Count;
  }

  lemma AnsweredOk(s: State, d: Client)
    requires Consistent(s) && d.Deciding? && ClientOk(s.history, d) && Decide(d.call, d.snapshot).Answer?
    requires Keyed(d.snapshot)
    ensures ClientOk(s.history, Returned(d.call, Decide(d.call, d.snapshot).outcome, d.since))
  {
    hide Decide, Keyed, Held, Count;
    AnswersHold(d.call, d.snapshot);
    if Decide(d.call, d.snapshot) == Answer(GotAlready) {
      assert Held(s.history[d.seen - 1], Wanted(d.call));
    }
  }

  lemma ReadsConsistent(s: State, c: nat)
    requires Consistent(s)
    ensures Consistent(Step(s, Reads(c)))
  {
    hide Count, Keyed, Evolves, Held, HeldDuring, Canonical;
  }

  lemma FailsConsistent(s: State, c: nat)
    requires Consistent(s) && c in s.clients && !s.clients[c].Returned?
    ensures var w := s.clients[c]; Consistent(Answered(s, c, w.call, Failure(w.call), w.since))
  {
    hide HistoryOk, Count, HeldDuring, Canonical;
    var w := s.clients[c];
    NextOk(s.history, w.call, 0, w.since);
    AnsweredConsistent(s, c, w.call, Failure(w.call), w.since);
  }

  lemma CommitFailsConsistent(s: State, c: nat)
    requires Consistent(s)
    ensures Consistent(Step(s, CommitFails(c)))
  {
    hide HistoryOk, ClientsOk, Balanced, Decide;
    if c in s.clients && s.clients[c].Deciding? {
      FailsConsistent(s, c);
      CommittingConsistent(s, c, true);
    }
  }

  lemma {:induction false} StepConsistent(s: State, e: Event)
    requires Consistent(s) && (e.Begins? ==> Canonical(e.call))
    ensures Consistent(Step(s, e))
  {
    hide Keyed, Evolves, Count, Held, HeldDuring, Committing, Canonical, Decide, Next;
    match e
    case Begins(c, call) => NextOk(s.history, call, 0, |s.history|);
    case Reads(c) => ReadsConsistent(s, c);
    case ReadFails(c) =>
      if c in s.clients && s.clients[c].Waiting? { FailsConsistent(s, c); }
    case Commits(c) =>
      if c in s.clients && s.clients[c].Deciding? { CommittingConsistent(s, c, true); }
    case ReplyLost(c) =>
      if c in s.clients && s.clients[c].Deciding? { CommittingConsistent(s, c, false); }
    case CommitFails(c) => CommitFailsConsistent(s, c);
  }

  ghost predicate CanonicalEvents(events: seq<Event>)
  {
    forall e | e in events && e.Begins? :: Canonical(e.call)
  }

  lemma {:induction false} RunConsistent(events: seq<Event>)
    requires CanonicalEvents(events)
    ensures Consistent(Run(events))
  {
    hide Step, Consistent, Canonical;
    if events == [] {
      EmptyConsistent();
    } else {
      RunConsistent(events[..|events| - 1]);
      assert events[|events| - 1] in events;
      StepConsistent(Run(events[..|events| - 1]), events[|events| - 1]);
    }
  }

  lemma EmptyConsistent()
    ensures Consistent(EMPTY)
  {
    assert Keyed(EMPTY.history[0]);
    forall h: Hold ensures Count(EMPTY.ledger, h) == 0 && EMPTY.created[h] == 0 {}
  }

  // ---------------------------------------------------------------- exclusivity over every run

  /**
    Each hold (id, amount) that was ever written has been given up or is in the stored ledger now,
    and no more calls returned "reserved" for it than it was written: at most one per hold.
  */
  lemma {:induction false} OneGrantPerHold(events: seq<Event>, hold: Hold)
    requires CanonicalEvents(events)
    ensures var s := Run(events);
            && s.created[hold] == s.released[hold] + Count(s.ledger, hold)
            && s.granted[hold] <= s.released[hold] + Count(s.ledger, hold) <= s.released[hold] + 1
  {
    hide HeldAt, Run, Step, HistoryOk, ClientsOk;
    RunConsistent(events);
  }

  /** A call that returned "reserved" or "already_reserved": the stored ledger held its row while it ran. */
  lemma {:induction false} GrantWasStored(events: seq<Event>, c: nat)
    requires CanonicalEvents(events) && c in Run(events).clients
    ensures var s := Run(events); var client := s.clients[c];
            client.Returned? && client.outcome in {GotReserved, GotAlready} ==>
              client.call.Reserve? && HeldDuring(s.history, client.since, Wanted(client.call))
  {
    hide Held, HeldDuring, HistoryOk, Balanced, Canonical;
    RunConsistent(events);
    assert ClientOk(Run(events).history, Run(events).clients[c]);
  }

  /** A call never makes more attempts than it is allowed. */
  lemma {:induction false} AttemptsAreBounded(events: seq<Event>, c: nat)
    requires CanonicalEvents(events) && c in Run(events).clients && !Run(events).clients[c].Returned?
    ensures 1 <= Run(events).clients[c].attempt <= Run(events).clients[c].call.maxAttempts
  {
    hide Run, HistoryOk, Balanced;
    RunConsistent(events);
    assert ClientOk(Run(events).history, Run(events).clients[c]);
  }

  /** CONSUMED is terminal: every later stored value carries the same row in the same place. */
  lemma {:induction false} ConsumedIsFinal(events: seq<Event>, i: nat, j: nat, r: nat)
    requires CanonicalEvents(events)
    requires i <= j < |Run(events).history| && r < |Run(events).history[i]|
    requires Run(events).history[i][r].status == Consumed
    ensures r < |Run(events).history[j]| && Run(events).history[j][r] == Run(events).history[i][r]
    decreases j
  {
    hide Run;
    RunConsistent(events);
    if i < j {
      ConsumedIsFinal(events, i, j - 1, r);
      assert Evolves(Run(events).history[j - 1], Run(events).history[j]);
    }
  }

  // ---------------------------------------------------------------- which call wrote what

  /** The call whose write made the value after `history[k]`: event `j` is its commit, and it had read `history[k]`. */
  ghost predicate WrittenBy(events: seq<Event>, k: nat, j: nat, call: Call)
  {
    && j < |events| && (events[j].Commits? || events[j].ReplyLost?) && k + 1 < |Run(events).history|
    && var s := Run(events[..j]);
       && |s.history| == k + 1 && s.ledger == Run(events).history[k]
       && events[j].c in s.clients && s.clients[events[j].c].Deciding?
       && s.clients[events[j].c].call == call && s.clients[events[j].c].snapshot == s.ledger
       && Decide(call, s.ledger).Propose? && Decide(call, s.ledger).doc == Run(events).history[k + 1]
  }

  /** One event leaves the history alone or adds the value that its client's decision on the present value proposes. */
  lemma HistoryStep(s: State, e: Event)
    requires HistoryOk(s)
    ensures var t := Step(s, e);
            || (t.history == s.history && t.ledger == s.ledger)
            || ((e.Commits? || e.ReplyLost?) && e.c in s.clients && s.clients[e.c].Deciding? && s.clients[e.c].snapshot == s.ledger
                && var effect := Decide(s.clients[e.c].call, s.ledger);
                   effect.Propose? && t.ledger == effect.doc && t.history == s.history + [effect.doc])
  {
    hide Decide, Freed, NewHold, Failure, Next, Keyed, Evolves;
  }

  lemma {:induction false} EveryWriteHasItsCall(events: seq<Event>, k: nat) returns (j: nat, call: Call)
    requires CanonicalEvents(events) && k + 1 < |Run(events).history|
    ensures WrittenBy(events, k, j, call)
    decreases |events|
  {
    hide Step, Decide, Canonical, ClientsOk, Balanced;
    assert events != [] by { assert Run([]).history == [[]]; }
    var n := |events| - 1;
    var front, s := events[..n], Run(events[..n]);
    RunConsistent(front);
    HistoryStep(s, events[n]);
    if k + 1 < |s.history| {
      j, call := EveryWriteHasItsCall(front, k);
      assert front[..j] == events[..j];
    } else {
      j, call := n, s.clients[events[n].c].call;
    }
  }

  /** Every client's call was begun by an event of the run. */
  ghost predicate Begun(events: seq<Event>, call: Call)
  {
    exists e :: e in events && e.Begins? && e.call == call
  }

  lemma StepKeepsCalls(s: State, e: Event, c: nat)
    requires c in Step(s, e).clients
    ensures (c in s.clients && Step(s, e).clients[c].call == s.clients[c].call) || (e.Begins? && Step(s, e).clients[c].call == e.call)
  {
    hide Decide, Freed, NewHold;
  }

  lemma {:induction false} CallsAreBegun(events: seq<Event>, c: nat)
    requires c in Run(events).clients
    ensures Begun(events, Run(events).clients[c].call)
    decreases |events|
  {
    hide Step;
    assert events != [] by { assert Run([]).clients == map[]; }
    var n := |events| - 1;
    StepKeepsCalls(Run(events[..n]), events[n], c);
    if c in Run(events[..n]).clients && Run(events).clients[c].call == Run(events[..n]).clients[c].call {
      CallsAreBegun(events[..n], c);
      var e :| e in events[..n] && e.Begins? && e.call == Run(events).clients[c].call;
      assert e in events;
    } else {
      assert events[n] in events;
    }
  }

  lemma WriterIsBegun(events: seq<Event>, k: nat, j: nat, call: Call)
    requires CanonicalEvents(events) && WrittenBy(events, k, j, call)
    ensures Begun(events, call) && Canonical(call)
  {
    hide Run, Canonical, Decide;
    CallsAreBegun(events[..j], events[j].c);
    var e :| e in events[..j] && e.Begins? && e.call == call;
    assert e in events;
  }

  // ---------------------------------------------------------------- when an amount changes

  /**
    The guards under which a call writes another amount over a row that was not RELEASED: it asks
    for this id and another amount, the intents it was given release the row at its clock, and no
    policy denies it.
  */
  predicate Reprices(call: Call, snapshot: Doc, r: nat)
    requires r < |snapshot|
  {
    && call.Reserve?
    && call.args.reservation.id == snapshot[r].id && call.args.reservation.amount != snapshot[r].amount
    && RecoverRow(snapshot[r], call.args.intents, call.args.now).status == Released
    && !exists i :: 0 <= i < |call.args.policies|
                    && Exceeds(call.args.policies[i], Recovered(snapshot, call.args.intents, call.args.now), call.args)
  }

  /**
    A call changes the amount of a row that was not RELEASED if and only if it asks for that row's id
    with another amount, its own recovery pass releases the row first, and no cap denies it.
  */
  lemma {:induction false} AmountChangesExactly(call: Call, snapshot: Doc, r: nat)
    requires Keyed(snapshot) && Canonical(call)
    requires r < |snapshot| && snapshot[r].status != Released
    ensures Decide(call, snapshot).Propose? ==> r < |Decide(call, snapshot).doc|
    ensures Decide(call, snapshot).Propose? && Decide(call, snapshot).doc[r].amount != snapshot[r].amount <==> Reprices(call, snapshot, r)
  {
    hide Exceeds, Lower, Find, Inactive;
    if Decide(call, snapshot).Propose? { DecideProposes(call, snapshot); }
    if call.Reserve? {
      RecoverySettles(snapshot, call.args.intents, call.args.now);
      var doc := Recovered(snapshot, call.args.intents, call.args.now);
      if doc[r].id == call.args.reservation.id { FindAt(doc, doc[r].id, r); }
    } else if Decide(call, snapshot).Propose? {
      assert Settles(snapshot[r], Decide(call, snapshot).mid[r]);
    }
  }

  /** Over every run: the amount of a row that was not RELEASED changes from one stored value to the next exactly under the writer's guards. */
  lemma {:induction false} AmountsChangeOverRuns(events: seq<Event>, k: nat, r: nat)
    requires CanonicalEvents(events) && k + 1 < |Run(events).history|
    requires r < |Run(events).history[k]| && Run(events).history[k][r].status != Released
    ensures r < |Run(events).history[k + 1]|
    ensures exists j, call :: WrittenBy(events, k, j, call)
              && (Run(events).history[k + 1][r].amount != Run(events).history[k][r].amount <==> Reprices(call, Run(events).history[k], r))
  {
    hide Run, Reprices, Decide, Canonical, Keyed, ClientsOk, Balanced;
    RunConsistent(events);
    var j, call := EveryWriteHasItsCall(events, k);
    WriterIsBegun(events, k, j, call);
    AmountChangesExactly(call, Run(events).history[k], r);
  }

  lemma FindAt(doc: Doc, id: string, r: nat)
    requires Keyed(doc) && r < |doc| && doc[r].id == id
    ensures Find(doc, id) == r
  {
    hide Lower;
  }

  /** The amount of a RESERVED row can change in one write: its intent has failed and it is reserved again. */
  lemma AmountCanChange()
    ensures var row := Row("0xa", 5, 0, 900, Reserved, None, None, None);
            var call := Reserve(ReserveArgs(row.(amount := 7), [], [], map["0xa" := IntentFact(Failed, None, None)], 10), 5);
            Decide(call, [row]).Propose? && Decide(call, [row]).doc == [row.(amount := 7)]
  {
    var row := Row("0xa", 5, 0, 900, Reserved, None, None, None);
    var intents := map["0xa" := IntentFact(Failed, None, None)];
    assert Lower("0xa") == "0xa";
    var mid := Recovered([row], intents, 10);
    assert mid == [row.(status := Released, releasedAt := Some(10), releaseReason := Some("intent_failed"))];
    assert Find(mid, "0xa") == 0;
  }

  /**
    The same in a whole run, for an id whose intent was never stored: 5 are reserved until 900, and
    a request for 7 under the same id, an hour after that, replaces the hold that was still RESERVED.
  */
  lemma UnstoredAmountCanChange()
    ensures var row := Row("0xa", 5, 0, 900, Reserved, None, None, None);
            var again := row.(amount := 7, reservedAt := 4500, expiresAt := 5400);
            Run([Begins(0, Reserve(ReserveArgs(row, [], [], map[], 0), 5)), Reads(0), Commits(0),
                 Begins(1, Reserve(ReserveArgs(again, [], [], map[], 4500), 5)), Reads(1), Commits(1)]).history == [[], [row], [again]]
  {
    hide Run, Decide;
    var row := Row("0xa", 5, 0, 900, Reserved, None, None, None);
    var again := row.(amount := 7, reservedAt := 4500, expiresAt := 5400);
    var one, two := Reserve(ReserveArgs(row, [], [], map[], 0), 5), Reserve(ReserveArgs(again, [], [], map[], 4500), 5);
    FirstHold(row, one);
    SecondHold(row, again, two);
    NothingRun();
    WholeCall([], 0, one);
    assert [] + Serving(0, one) == Serving(0, one);
    WholeCall(Serving(0, one), 1, two);
    assert Serving(0, one) + Serving(1, two) == [Begins(0, one), Reads(0), Commits(0), Begins(1, two), Reads(1), Commits(1)];
  }

  /** One call from begin to commit, undisturbed. */
  function Serving(c: nat, call: Call): seq<Event>
  {
    [Begins(c, call), Reads(c), Commits(c)]
  }

  lemma NothingRun()
    ensures Run([]) == EMPTY
  {
  }

  lemma RunSnoc(events: seq<Event>, e: Event)
    ensures Run(events + [e]) == Step(Run(events), e)
  {
    hide Step;
    assert (events + [e])[..|events|] == events;
  }

  lemma WholeCall(events: seq<Event>, c: nat, call: Call)
    requires c !in Run(events).clients && call.maxAttempts > 0 && Decide(call, Run(events).ledger).Propose?
    ensures var s, t := Run(events), Run(events + Serving(c, call)); var doc := Decide(call, s.ledger).doc;
            t.history == s.history + [doc] && t.ledger == doc && t.clients.Keys == s.clients.Keys + {c}
  {
    hide Run, Decide, Freed, NewHold;
    var e1, e2 := events + [Begins(c, call)], events + [Begins(c, call)] + [Reads(c)];
    RunSnoc(events, Begins(c, call));
    RunSnoc(e1, Reads(c));
    RunSnoc(e2, Commits(c));
    assert events + Serving(c, call) == e2 + [Commits(c)];
  }

  lemma FirstHold(row: Row, call: Call)
    requires call.Reserve? && call.args == ReserveArgs(row, [], [], map[], 0)
    ensures Decide(call, []).Propose? && Decide(call, []).doc == [row] && Decide(call, []).outcome == GotReserved
  {
    assert Recovered([], map[], 0) == [];
  }

  lemma SecondHold(row: Row, again: Row, call: Call)
    requires row == Row("0xa", 5, 0, 900, Reserved, None, None, None) && again == row.(amount := 7, reservedAt := 4500, expiresAt := 5400)
    requires call.Reserve? && call.args == ReserveArgs(again, [], [], map[], 4500)
    ensures Decide(call, [row]).Propose? && Decide(call, [row]).doc == [again]
  {
    var mid := Recovered([row], map[], 4500);
    assert mid == [row.(status := Released, releasedAt := Some(4500), releaseReason := Some("intent_never_stored"))];
    assert Find(mid, "0xa") == 0;
  }

  // ---------------------------------------------------------------- holds that nobody may give up

  /**
    A call that leaves this hold alone: it does not move the id to RELEASED, and if it reserves, the
    intents it was given say that the payment was submitted or verified, or at least not that it
    failed while the hold's grace time is running.
  */
  predicate Spares(call: Call, hold: Row)
  {
    match call
    case Reserve(args, _) =>
      && (hold.id in args.intents ==> args.intents[hold.id].status != Failed)
      && ((hold.id in args.intents && args.intents[hold.id].status == Submitted)
          || args.now < hold.expiresAt + RESERVATION_RELEASE_GRACE_SECONDS)
    case Move(id, next, _) => id == hold.id ==> next.ToConsumed?
  }

  /** The row is still there, for the same amount and not released. */
  predicate StillHeld(doc: Doc, r: nat, hold: Row)
  {
    && r < |doc| && doc[r].id == hold.id && doc[r].amount == hold.amount && doc[r].expiresAt == hold.expiresAt
    && doc[r].status != Released
  }

  lemma SparedOnce(call: Call, snapshot: Doc, r: nat, hold: Row)
    requires Keyed(snapshot) && Canonical(call) && StillHeld(snapshot, r, hold) && Spares(call, hold) && Decide(call, snapshot).Propose?
    ensures StillHeld(Decide(call, snapshot).doc, r, hold)
  {
    hide Find, ReserveDecision, Inactive;
    DecideProposes(call, snapshot);
    if call.Reserve? {
      RecoveredRow(call, snapshot, r);
      if Decide(call, snapshot).outcome == GotReserved { PutElsewhere(Decide(call, snapshot).mid, call.args.reservation, r); }
    }
  }

  lemma RecoveredRow(call: Call, snapshot: Doc, r: nat)
    requires call.Reserve? && r < |snapshot| && Decide(call, snapshot).Propose?
    ensures Decide(call, snapshot).mid == Recovered(snapshot, call.args.intents, call.args.now)
    ensures Decide(call, snapshot).mid[r] == RecoverRow(snapshot[r], call.args.intents, call.args.now)
  {
    hide Find, Exceeds, RecoverRow;
  }

  lemma PutElsewhere(doc: Doc, row: Row, r: nat)
    requires r < |doc| && Inactive(doc, row.id) && doc[r].status != Released
    ensures r < |Put(doc, row)| && Put(doc, row)[r] == doc[r]
  {
    hide Find;
  }

  /**
    Over every run: a hold that each begun call spares is in every later stored value, for the same
    amount. In particular nothing takes the hold of a submitted payment away but its own release.
  */
  lemma {:induction false} HoldsSurvive(events: seq<Event>, i: nat, j: nat, r: nat)
    requires CanonicalEvents(events) && i <= j < |Run(events).history| && r < |Run(events).history[i]|
    requires Run(events).history[i][r].status != Released
    requires forall call | Begun(events, call) :: Spares(call, Run(events).history[i][r])
    ensures StillHeld(Run(events).history[j], r, Run(events).history[i][r])
    decreases j
  {
    hide Run, Spares, Decide, Canonical, Begun, ClientsOk, Balanced, Keyed;
    RunConsistent(events);
    if i < j {
      HoldsSurvive(events, i, j - 1, r);
      var e, call := EveryWriteHasItsCall(events, j - 1);
      WriterIsBegun(events, j - 1, e, call);
      SparedOnce(call, Run(events).history[j - 1], r, Run(events).history[i][r]);
    }
  }
}
