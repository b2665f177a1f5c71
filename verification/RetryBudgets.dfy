/** How often the compare-and-set loops try before they give up: as often as they are allowed, and no less. */
module StoreRetries {
  import opened Text
  import opened PayStore
  import opened SettlementRuns
  import opened PayStoreCas

  /** The reads that call `c` has made, each one an attempt. */
  function Attempts(start: Raw, events: seq<Event>, c: nat): nat
  {
    if events == [] then 0
    else
      var front, e := events[..|events| - 1], events[|events| - 1];
      var s := RunEvents(start, front);
      Attempts(start, front, c)
      + (if e == Reading(c) && c in s.clients && s.clients[c].Waiting? && !s.raw.Malformed? then 1 else 0)
  }

  ghost predicate Counted(s: State, c: nat, n: nat)
  {
    if c !in s.clients then n == 0
    else match s.clients[c]
      case Waiting(_, attempt, _) => attempt == n + 1 && n < 8
      case Holding(_, attempt, _, _, _) => attempt == n && n <= 8
      case Returned(_, result, _) => n <= 8 && (result.Exhausted? ==> n == 8)
  }

  lemma StepCounts(s: State, e: Event, c: nat, n: nat)
    requires Counted(s, c, n)
    ensures Counted(Step(s, e), c, if e == Reading(c) && c in s.clients && s.clients[c].Waiting? && !s.raw.Malformed? then n + 1 else n)
  {
    hide PayStore.Run, Guarded;
  }

  /** A store mutation never reads more than eight times, and reports that it is exhausted only after eight. */
  lemma {:induction false} ExhaustedAfterEight(start: Raw, events: seq<Event>, c: nat)
    ensures Attempts(start, events, c) <= 8
    ensures var s := RunEvents(start, events);
            c in s.clients && s.clients[c].Returned? && s.clients[c].result.Exhausted? ==> Attempts(start, events, c) == 8
    ensures Counted(RunEvents(start, events), c, Attempts(start, events, c))
  {
    hide Step;
    if events != [] {
      var front, e := events[..|events| - 1], events[|events| - 1];
      ExhaustedAfterEight(start, front, c);
      StepCounts(RunEvents(start, front), e, c, Attempts(start, front, c));
    }
  }

  // ---------------------------------------------------------------- what a commit does

  /** Nothing but this client changes. */
  ghost predicate OnlyClient(s: State, t: State, c: nat, client: Client)
  {
    t == s.(clients := s.clients[c := client])
  }

  /**
    A commit that is heard. A mutator that throws, or that leaves the text as it was, is answered at once.
    If the stored text is still the one read, it is replaced by the mutator's result and the call is
    answered; if not, nothing is stored and the call tries again while it has attempts left.
  */
  lemma {:induction false} CommitsExactly(s: State, c: nat)
    requires Consistent(s) && c in s.clients && s.clients[c].Holding?
    ensures var d, t := s.clients[c], Step(s, Commits(c)); var op, base := d.call(d.attempt), Parsed(d.base);
            match PayStore.Run(base, op)
            case Thrown(duplicate) => OnlyClient(s, t, c, Returned(d.call, Threw(duplicate), d.since))
            case Kept(mutated, answer) =>
              var told := Returned(d.call, Answered(answer, base, op), d.since);
              if Canonical(mutated) == d.base then OnlyClient(s, t, c, told)
              else if s.raw == d.base then
                && t.raw == Canonical(mutated) && t.history == s.history + [Canonical(mutated)]
                && t.writes == s.writes + [Write(c, op, base, mutated)] && t.clients == s.clients[c := told]
              else OnlyClient(s, t, c, if d.attempt < 8 then Waiting(d.call, d.attempt + 1, d.since) else Returned(d.call, Exhausted, d.since))
  {
    hide PayStore.Run, RowsOk, Guarded, Plain, AnswerOk, NoWrite, OnlyWrite, Linear;
    var d := s.clients[c];
    assert ClientOk(s, c, d);
    PlainAttempt(d.call, d.attempt);
    GuardsChangeNothing(Parsed(d.base), d.call(d.attempt));
    NextIsKept(Parsed(d.base), d.call(d.attempt));
  }

  lemma NextIsKept(base: Store, op: Op)
    ensures PayStore.Run(base, op).Kept? ==> PayStore.Run(base, op).store == Next(base, op)
  {
    hide PayStore.Run;
  }

  /** A commit whose reply is lost stores what it would have stored, and one that fails stores nothing; only the answer is missing. */
  lemma {:induction false} LostRepliesExactly(s: State, c: nat)
    requires Consistent(s) && c in s.clients && s.clients[c].Holding? && PayStore.Run(Parsed(s.clients[c].base), s.clients[c].call(s.clients[c].attempt)).Kept?
    requires Canonical(PayStore.Run(Parsed(s.clients[c].base), s.clients[c].call(s.clients[c].attempt)).store) != s.clients[c].base
    ensures var d := s.clients[c]; var unavailable := Returned(d.call, Unavailable, d.since);
            && OnlyClient(s, Step(s, CommitFails(c)), c, unavailable)
            && Step(s, ReplyLost(c)) == (if s.raw == d.base then Step(s, Commits(c)) else s).(clients := s.clients[c := unavailable])
  {
    hide PayStore.Run, RowsOk, Guarded, Plain, AnswerOk, NoWrite, OnlyWrite, Linear;
    var d := s.clients[c];
    assert ClientOk(s, c, d);
    PlainAttempt(d.call, d.attempt);
    GuardsChangeNothing(Parsed(d.base), d.call(d.attempt));
    NextIsKept(Parsed(d.base), d.call(d.attempt));
  }

  /** A read hands the present text to the call, or ends it on a text that does not parse. */
  lemma ReadsExactly(s: State, c: nat)
    requires c in s.clients && s.clients[c].Waiting?
    ensures var w := s.clients[c];
            && OnlyClient(s, Step(s, Reading(c)), c,
                          if s.raw.Malformed? then Returned(w.call, MalformedStore, w.since) else Holding(w.call, w.attempt, w.since, s.raw, |s.history|))
            && OnlyClient(s, Step(s, ReadFails(c)), c, Returned(w.call, Unavailable, w.since))
  {
  }
}

/** The same for the spend ledger, whose calls carry their own limit. */
module LedgerRetries {
  import opened Text
  import opened PolicyLedger
  import opened LedgerRuns

  function Attempts(events: seq<Event>, c: nat): nat
  {
    if events == [] then 0
    else
      var front, e := events[..|events| - 1], events[|events| - 1];
      var s := Run(front);
      Attempts(front, c) + (if e == Reads(c) && c in s.clients && s.clients[c].Waiting? then 1 else 0)
  }

  /** Some request of call `c` to the store failed, or its reply was lost. */
  ghost predicate Disturbed(events: seq<Event>, c: nat)
  {
    ReadFails(c) in events || CommitFails(c) in events || ReplyLost(c) in events
  }

  ghost predicate Counted(s: State, c: nat, n: nat, disturbed: bool)
  {
    if c !in s.clients then n == 0
    else match s.clients[c]
      case Waiting(call, attempt, _) => attempt == n + 1
      case Deciding(call, attempt, _, _, _) => attempt == n
      case Returned(call, outcome, _) => outcome == GotUnavailable ==> disturbed || n >= call.maxAttempts
  }

  lemma StepCounts(s: State, e: Event, c: nat, n: nat, disturbed: bool)
    requires Counted(s, c, n, disturbed)
    ensures Counted(Step(s, e), c, if e == Reads(c) && c in s.clients && s.clients[c].Waiting? then n + 1 else n,
                    disturbed || e in {ReadFails(c), CommitFails(c), ReplyLost(c)})
  {
    hide Decide, Freed, NewHold, Install;
    if c in s.clients && s.clients[c].Deciding? { DecisionsAnswer(s.clients[c].call, s.clients[c].snapshot); }
    match e
    case Begins(_, _) =>
    case Reads(_) =>
    case ReadFails(_) =>
    case Commits(b) => if b in s.clients && s.clients[b].Deciding? && b != c { OthersStay(s, b, true, c); }
    case CommitFails(b) =>
    case ReplyLost(b) => if b in s.clients && s.clients[b].Deciding? && b != c { OthersStay(s, b, false, c); }
  }

  lemma DecisionsAnswer(call: Call, snapshot: Doc)
    ensures Decide(call, snapshot).outcome != GotUnavailable
  {
    hide ReserveDecision, TransitionDecision;
  }

  lemma OthersStay(s: State, b: nat, heard: bool, c: nat)
    requires b in s.clients && s.clients[b].Deciding? && b != c
    ensures c in Committing(s, b, heard).clients <==> c in s.clients
    ensures c in s.clients ==> Committing(s, b, heard).clients[c] == s.clients[c]
  {
    hide Decide, Freed, NewHold;
  }

  /** A reservation is told "unavailable" only after all its attempts, or when one of its requests failed. */
  lemma {:induction false} UnavailableAfterAll(events: seq<Event>, c: nat)
    ensures var s := Run(events);
            c in s.clients && s.clients[c].Returned? && s.clients[c].outcome == GotUnavailable ==>
              Disturbed(events, c) || Attempts(events, c) >= s.clients[c].call.maxAttempts
    ensures Counted(Run(events), c, Attempts(events, c), Disturbed(events, c))
  {
    hide Step;
    if events != [] {
      var front, e := events[..|events| - 1], events[|events| - 1];
      UnavailableAfterAll(front, c);
      assert Disturbed(events, c) <==> Disturbed(front, c) || e in {ReadFails(c), CommitFails(c), ReplyLost(c)} by {
        assert events == front + [e];
      }
      StepCounts(Run(front), e, c, Attempts(front, c), Disturbed(front, c));
    }
  }

  // ---------------------------------------------------------------- what a commit does

  /** The stored ledger is as it was, and the client is now this one. */
  ghost predicate OnlyClient(s: State, t: State, c: nat, client: Client)
  {
    t.ledger == s.ledger && t.history == s.history && t.clients == s.clients[c := client]
  }

  /**
    A commit that is heard. An answer that needs no write is given at once. A proposal replaces the
    ledger if it is still the one read, and the call is told so; if not, nothing is stored and the call
    tries again while it has attempts left.
  */
  lemma {:induction false} CommitsExactly(s: State, c: nat)
    requires c in s.clients && s.clients[c].Deciding?
    ensures var d, t := s.clients[c], Step(s, Commits(c)); var e := Decide(d.call, d.snapshot);
            if e.Answer? then OnlyClient(s, t, c, Returned(d.call, e.outcome, d.since))
            else if s.ledger == d.snapshot then
              t.ledger == e.doc && t.history == s.history + [e.doc] && t.clients == s.clients[c := Returned(d.call, e.outcome, d.since)]
            else OnlyClient(s, t, c, if d.attempt < d.call.maxAttempts then Waiting(d.call, d.attempt + 1, d.since)
                                     else Returned(d.call, Failure(d.call), d.since))
  {
    hide Decide, Freed, NewHold;
  }

  /** A lost reply stores what a heard one would have stored, and a failed commit stores nothing; the call is told that it failed. */
  lemma {:induction false} LostRepliesExactly(s: State, c: nat)
    requires c in s.clients && s.clients[c].Deciding? && Decide(s.clients[c].call, s.clients[c].snapshot).Propose?
    ensures var d := s.clients[c]; var failed := Returned(d.call, Failure(d.call), d.since);
            && OnlyClient(s, Step(s, CommitFails(c)), c, failed)
            && Step(s, ReplyLost(c)).clients == s.clients[c := failed]
            && Step(s, ReplyLost(c)).ledger == (if s.ledger == d.snapshot then Decide(d.call, d.snapshot).doc else s.ledger)
  {
    hide Decide, Freed, NewHold;
  }

  /** A read hands the present ledger to the call. */
  lemma ReadsExactly(s: State, c: nat)
    requires c in s.clients && s.clients[c].Waiting?
    ensures var w := s.clients[c];
            && OnlyClient(s, Step(s, Reads(c)), c, Deciding(w.call, w.attempt, w.since, s.ledger, |s.history|))
            && OnlyClient(s, Step(s, ReadFails(c)), c, Returned(w.call, Failure(w.call), w.since))
  {
    hide Freed, NewHold;
  }
}
