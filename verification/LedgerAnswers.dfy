/** What the callers of the spend ledger are told, over every run: each answer was right for a value stored while the call ran. */
module LedgerAnswers {
  import opened Text
  import opened PolicyLedger
  import opened LedgerRuns
  import opened ReserveAnswers

  /** The value a reserve call decides on, once recovery has run on what was stored. */
  function Seen(stored: Doc, args: ReserveArgs): Doc
  {
    Recovered(stored, args.intents, args.now)
  }

  ghost predicate NotHeld(doc: Doc, id: string)
  {
    forall i :: !HoldsAt(doc, i, id)
  }

  ghost predicate HeldFor(doc: Doc, id: string, amount: nat)
  {
    exists i :: HoldsAt(doc, i, id) && doc[i].amount == amount
  }

  ghost predicate HeldOtherwise(doc: Doc, id: string, amount: nat)
  {
    exists i :: HoldsAt(doc, i, id) && doc[i].amount != amount
  }

  /** Some policy with a cap and a window has no room for the amount. */
  ghost predicate OverSomeCap(doc: Doc, args: ReserveArgs)
  {
    exists p :: p in args.policies && p.cap.Some? && p.windowSeconds.Some?
                && Committed(doc, args.verified, args.now, p.windowSeconds.value) + args.reservation.amount > p.cap.value
  }

  /** The stored value `k`, not older than the call, bears the answer out; a write is the value after it. */
  ghost predicate Justified(history: seq<Doc>, call: Call, outcome: Outcome, since: nat, k: nat)
  {
    && since <= k + 1 <= |history|
    && match outcome
       case GotReserved =>
         && call.Reserve? && k + 1 < |history| && NotHeld(Seen(history[k], call.args), call.args.reservation.id)
         && !OverSomeCap(Seen(history[k], call.args), call.args)
         && Stored(Seen(history[k], call.args), history[k + 1], call.args.reservation)
       case GotAlready => call.Reserve? && HeldFor(Seen(history[k], call.args), call.args.reservation.id, call.args.reservation.amount)
       case GotDeny =>
         && call.Reserve? && NotHeld(Seen(history[k], call.args), call.args.reservation.id)
         && OverSomeCap(Seen(history[k], call.args), call.args)
       case GotConflict =>
         call.Reserve? && HeldOtherwise(Seen(history[k], call.args), call.args.reservation.id, call.args.reservation.amount)
       case GotUnavailable => call.Reserve?
       case MoveDone(ok) =>
         && call.Move?
         && (ok ==> k + 1 < |history| && TransitionDecision(history[k], call.id, call.next) == Some(history[k + 1]))
  }

  /** The call was told no more than that it did not succeed. */
  predicate Failed(outcome: Outcome)
  {
    outcome == GotUnavailable || outcome == MoveDone(false)
  }

  ghost predicate AnswerOk(history: seq<Doc>, client: Client)
  {
    client.Returned? && !Failed(client.outcome) ==>
      exists k: nat :: Justified(history, client.call, client.outcome, client.since, k)
  }

  ghost predicate AnswersOk(s: State)
  {
    forall c | c in s.clients :: AnswerOk(s.history, s.clients[c])
  }

  lemma AnswerStays(history: seq<Doc>, doc: Doc, client: Client)
    requires AnswerOk(history, client)
    ensures AnswerOk(history + [doc], client)
  {
    hide Stored, NotHeld, HeldFor, OverSomeCap, Seen, TransitionDecision, HoldsAt;
    if client.Returned? && !Failed(client.outcome) {
      var k: nat :| Justified(history, client.call, client.outcome, client.since, k);
      assert (history + [doc])[k] == history[k];
      assert k + 1 < |history| ==> (history + [doc])[k + 1] == history[k + 1];
      assert Justified(history + [doc], client.call, client.outcome, client.since, k);
    }
  }

  /** An answer without a commit is borne out by the value that was read. */
  lemma AnsweredIsJustified(history: seq<Doc>, call: Call, since: nat, k: nat)
    requires since <= k + 1 <= |history| && Keyed(history[k]) && Decide(call, history[k]).Answer?
    ensures Justified(history, call, Decide(call, history[k]).outcome, since, k)
  {
    hide ReserveDecision, TransitionDecision, Committed, Keyed, Recovered, HoldsAt, Stored;
    if call.Reserve? {
      ReserveAnswersExactly(history[k], call.args);
      assert ReserveDecision(history[k], call.args).Conflict? ==>
               HeldOtherwise(Seen(history[k], call.args), call.args.reservation.id, call.args.reservation.amount);
    }
  }

  /** And one with a commit by the value read and the value it was replaced with. */
  lemma CommittedIsJustified(history: seq<Doc>, call: Call, since: nat, k: nat)
    requires since <= k + 1 && k + 1 < |history| && Keyed(history[k]) && Decide(call, history[k]).Propose?
    requires history[k + 1] == Decide(call, history[k]).doc
    ensures Justified(history, call, Decide(call, history[k]).outcome, since, k)
  {
    hide ReserveDecision, TransitionDecision, Committed, Keyed, Recovered, HoldsAt, Stored;
    if call.Reserve? { ReserveAnswersExactly(history[k], call.args); }
  }

  lemma CommitAnswers(s: State, c: nat, heard: bool)
    requires Consistent(s) && AnswersOk(s) && c in s.clients && s.clients[c].Deciding?
    ensures AnswersOk(Committing(s, c, heard))
  {
    hide Decide, Justified, Keyed, Evolves, Balanced, Canonical, Freed, NewHold, Held;
    var d := s.clients[c];
    assert ClientOk(s.history, d);
    var t := Committing(s, c, heard);
    var e := Decide(d.call, d.snapshot);
    var k: nat := d.seen - 1;
    assert Keyed(s.history[k]);
    if e.Answer? {
      AnsweredIsJustified(s.history, d.call, d.since, k);
    } else if s.ledger == d.snapshot {
      var last: nat := |s.history| - 1;
      CommittedIsJustified(s.history + [e.doc], d.call, d.since, last);
      forall b | b in s.clients ensures AnswerOk(s.history + [e.doc], s.clients[b]) { AnswerStays(s.history, e.doc, s.clients[b]); }
    }
  }

  lemma StepAnswers(s: State, e: Event)
    requires Consistent(s) && AnswersOk(s)
    ensures AnswersOk(Step(s, e))
  {
    hide Decide, Justified, Keyed, Evolves, Balanced, Canonical, Freed, NewHold, Committing, Consistent;
    match e
    case Commits(c) => if c in s.clients && s.clients[c].Deciding? { CommitAnswers(s, c, true); }
    case ReplyLost(c) => if c in s.clients && s.clients[c].Deciding? { CommitAnswers(s, c, false); }
    case CommitFails(c) =>
      if c in s.clients && s.clients[c].Deciding? {
        CommitAnswers(s, c, true);
        FailedCommit(s, c);
      }
    case _ =>
  }

  /** A failed commit answers what an undisturbed one would have answered without writing, or fails. */
  lemma FailedCommit(s: State, c: nat)
    requires Consistent(s) && AnswersOk(s) && c in s.clients && s.clients[c].Deciding?
    ensures AnswersOk(Step(s, CommitFails(c)))
  {
    hide Decide, Justified, Keyed, Evolves, Balanced, Canonical, Freed, NewHold, Held;
    var d := s.clients[c];
    assert ClientOk(s.history, d);
    var k: nat := d.seen - 1;
    assert Keyed(s.history[k]);
    if Decide(d.call, d.snapshot).Answer? { AnsweredIsJustified(s.history, d.call, d.since, k); }
  }

  lemma {:induction false} RunAnswers(events: seq<Event>)
    requires CanonicalEvents(events)
    ensures AnswersOk(Run(events))
  {
    hide Step, Consistent, Canonical, AnswerOk;
    if events != [] {
      var n := |events| - 1;
      RunAnswers(events[..n]);
      RunConsistent(events[..n]);
      StepAnswers(Run(events[..n]), events[n]);
    }
  }

  /**
    In every interleaving, whatever a call is told was so of a value stored while it ran: denied when
    some cap had no room, refused when the id was held for another amount, already reserved when it
    was held for this one, and reserved when it was not held, every cap had room, and the very next
    stored value holds the reservation. Only a failed call is told nothing.
  */
  lemma {:induction false} AnswersWereRight(events: seq<Event>, c: nat)
    requires CanonicalEvents(events) && c in Run(events).clients
    ensures var s := Run(events); var client := s.clients[c];
            client.Returned? && !Failed(client.outcome) ==>
              exists k: nat :: Justified(s.history, client.call, client.outcome, client.since, k)
  {
    hide Run, AnswerOk, Justified;
    RunAnswers(events);
    assert AnswerOk(Run(events).history, Run(events).clients[c]) by { AnswerOf(Run(events), c); }
    var client := Run(events).clients[c];
    if client.Returned? && !Failed(client.outcome) { AnswerMeans(Run(events).history, client); }
  }

  lemma AnswerOf(s: State, c: nat)
    requires AnswersOk(s) && c in s.clients
    ensures AnswerOk(s.history, s.clients[c])
  {
  }

  lemma AnswerMeans(history: seq<Doc>, client: Client)
    requires AnswerOk(history, client) && client.Returned? && !Failed(client.outcome)
    ensures exists k: nat :: Justified(history, client.call, client.outcome, client.since, k)
  {
    hide Justified;
  }

  // ---------------------------------------------------------------- who was granted a hold

  /** The calls that were told that they reserved this hold. */
  function Grantees(s: State, hold: Hold): set<nat>
  {
    set c | c in s.clients && s.clients[c].Returned? && s.clients[c].outcome == GotReserved
            && s.clients[c].call.Reserve? && Wanted(s.clients[c].call) == hold
  }

  lemma AnsweredGrants(s: State, c: nat, call: Call, outcome: Outcome, since: nat, hold: Hold)
    requires c in s.clients && !s.clients[c].Returned? && |Grantees(s, hold)| == s.granted[hold]
    ensures var t := Answered(s, c, call, outcome, since); |Grantees(t, hold)| == t.granted[hold]
  {
    var t := Answered(s, c, call, outcome, since);
    if call.Reserve? && outcome == GotReserved && Wanted(call) == hold {
      assert Grantees(t, hold) == Grantees(s, hold) + {c};
    } else {
      assert Grantees(t, hold) == Grantees(s, hold);
    }
  }

  lemma SameGrants(s: State, t: State, hold: Hold)
    requires t.granted == s.granted && (forall c | c in s.clients :: c in t.clients)
    requires forall c | c in t.clients :: (c in s.clients && t.clients[c] == s.clients[c])
                                          || ((c !in s.clients || !s.clients[c].Returned?) && (t.clients[c].Returned? ==> Failed(t.clients[c].outcome)))
    ensures Grantees(t, hold) == Grantees(s, hold)
  {
  }

  lemma StepGrants(s: State, e: Event, hold: Hold)
    requires |Grantees(s, hold)| == s.granted[hold]
    ensures |Grantees(Step(s, e), hold)| == Step(s, e).granted[hold]
  {
    hide Grantees, Answered, Decide, Freed, NewHold, Failure;
    match e
    case Begins(c, call) => if c !in s.clients { FailureFails(call); SameGrants(s, Step(s, e), hold); }
    case Reads(c) => if c in s.clients && s.clients[c].Waiting? { SameGrants(s, Step(s, e), hold); }
    case ReadFails(c) =>
      if c in s.clients && s.clients[c].Waiting? {
        var w := s.clients[c];
        AnsweredGrants(s, c, w.call, Failure(w.call), w.since, hold);
      }
    case Commits(c) => if c in s.clients && s.clients[c].Deciding? { CommitGrants(s, c, true, hold); }
    case ReplyLost(c) => if c in s.clients && s.clients[c].Deciding? { CommitGrants(s, c, false, hold); }
    case CommitFails(c) =>
      if c in s.clients && s.clients[c].Deciding? {
        var d := s.clients[c];
        AnsweredGrants(s, c, d.call, if Decide(d.call, d.snapshot).Answer? then Decide(d.call, d.snapshot).outcome else Failure(d.call), d.since, hold);
      }
  }

  lemma FailureFails(call: Call)
    ensures Failed(Failure(call))
  {
  }

  lemma CommitGrants(s: State, c: nat, heard: bool, hold: Hold)
    requires c in s.clients && s.clients[c].Deciding? && |Grantees(s, hold)| == s.granted[hold]
    ensures |Grantees(Committing(s, c, heard), hold)| == Committing(s, c, heard).granted[hold]
  {
    hide Grantees, Answered, Decide, Freed, NewHold, Failure;
    var d := s.clients[c];
    var e := Decide(d.call, d.snapshot);
    FailureFails(d.call);
    if e.Answer? {
      AnsweredGrants(s, c, d.call, e.outcome, d.since, hold);
    } else {
      var stored := s.ledger == d.snapshot;
      var after := if stored then Install(s, d.call, e.mid, e.doc, e.outcome) else s;
      SameGrants(s, after, hold);
      if !heard {
        AnsweredGrants(after, c, d.call, Failure(d.call), d.since, hold);
      } else if stored {
        AnsweredGrants(after, c, d.call, e.outcome, d.since, hold);
      } else {
        SameGrants(after, Committing(s, c, heard), hold);
      }
    }
  }

  /**
    So the count of grants is the number of calls that were told "reserved": in every interleaving no
    more calls are told so for a hold than holds of it were given up, and one more if it is stored.
  */
  lemma {:induction false} GrantsAreCalls(events: seq<Event>, hold: Hold)
    requires CanonicalEvents(events)
    ensures |Grantees(Run(events), hold)| == Run(events).granted[hold]
    ensures |Grantees(Run(events), hold)| <= Run(events).released[hold] + Count(Run(events).ledger, hold) <= Run(events).released[hold] + 1
  {
    hide Grantees, Step, Count;
    CountGrantees(events, hold);
    OneGrantPerHold(events, hold);
  }

  lemma {:induction false} CountGrantees(events: seq<Event>, hold: Hold)
    ensures |Grantees(Run(events), hold)| == Run(events).granted[hold]
  {
    hide Step;
    if events == [] {
      assert Grantees(EMPTY, hold) == {};
    } else {
      CountGrantees(events[..|events| - 1], hold);
      StepGrants(Run(events[..|events| - 1]), events[|events| - 1], hold);
    }
  }
}
