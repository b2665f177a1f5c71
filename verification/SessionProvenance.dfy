/** Where a session comes from, and when it ends, over every run of the session coordinator. */
module SessionProvenance {
  import opened Text
  import opened SessionClient

  // ---------------------------------------------------------------- one step

  /**
    The event is a reply that signs the connected wallet in: to the probe, one that names its address
    and has not expired; or to the login, one that is ok. The flight must be of the present generation.
  */
  predicate SignsIn(s: State, e: Event)
  {
    && e.FlightResumes? && e.flight in s.flights && e.reply.Reply? && e.reply.ok
    && s.wallet == Some(s.flights[e.flight].merchant) && s.generation == s.flights[e.flight].generation
    && ((s.flights[e.flight].phase == Probing && e.reply.merchant == s.wallet && e.now < e.reply.expiresAt)
        || s.flights[e.flight].phase == LoggingIn)
  }

  /** The event ends the session: another wallet, a sign-out, or a first 401 to a request that used this very session. */
  predicate EndsSession(s: State, e: Event)
  {
    match e
    case SetWallet(next) => next != s.wallet
    case SwitchWallet(next, logout) => logout !in s.outstanding && next != s.wallet
    case SignOut(logout) => logout !in s.outstanding
    case CallerResumes(c, response, _, _) =>
      && c in s.callers && s.callers[c].Requesting? && response == Unauthorized && !s.callers[c].retry
      && s.wallet == Some(s.callers[c].merchant) && s.generation == s.callers[c].generation
      && s.session.Some? && s.callers[c].usedEpoch == Some(s.session.value.epoch)
    case _ => false
  }

  /** A session is set by exactly these replies, with the reply's expiry and a new epoch, and ends by exactly those events. */
  lemma {:induction false} SessionMovesExactly(s: State, e: Event)
    ensures SignsIn(s, e) ==>
              && Step(s, e).session == Some(Session(s.flights[e.flight].merchant, e.reply.expiresAt, s.epoch + 1))
              && Step(s, e).epoch == s.epoch + 1 && e.flight in Step(s, e).flights && Step(s, e).flights[e.flight].phase == Finished(true)
    ensures !SignsIn(s, e) ==> Step(s, e).epoch == s.epoch
    ensures !SignsIn(s, e) && !EndsSession(s, e) ==> Step(s, e).session == s.session
    ensures EndsSession(s, e) ==> Step(s, e).session.None?
  {
    hide EnsuredState, EnsureResult;
    match e
    case Ensure(flight, interactive, now) => EnsuredKeeps(s, flight, interactive, now);
    case Fetch(caller, flight, now) => EnsuredKeeps(s, flight, false, now);
    case CallerResumes(caller, response, flight, now) =>
      EnsuredKeeps(s, flight, false, now);
      EnsuredKeeps(s.(session := None), flight, false, now);
    case _ =>
  }

  lemma EnsuredKeeps(s: State, flight: nat, interactive: bool, now: int)
    ensures var t := EnsuredState(s, flight, interactive, now);
            t.session == s.session && t.epoch == s.epoch && t.generation == s.generation && t.wallet == s.wallet
    ensures var t := EnsuredState(s, flight, interactive, now);
            forall f | f in t.flights && f !in s.flights :: t.flights[f].phase.AwaitingLogout? || t.flights[f].phase.Probing?
    ensures var t := EnsuredState(s, flight, interactive, now); forall f | f in s.flights :: f in t.flights && t.flights[f] == s.flights[f]
  {
  }

  /** A new generation has no session. */
  lemma GenerationEndsSession(s: State, e: Event)
    ensures Step(s, e).generation != s.generation ==> Step(s, e).session.None?
  {
    hide EnsuredState, EnsureResult;
    match e
    case Ensure(flight, interactive, now) => EnsuredKeeps(s, flight, interactive, now);
    case Fetch(caller, flight, now) => EnsuredKeeps(s, flight, false, now);
    case CallerResumes(caller, response, flight, now) =>
      EnsuredKeeps(s, flight, false, now);
      EnsuredKeeps(s.(session := None), flight, false, now);
    case _ =>
  }

  // ---------------------------------------------------------------- the replies behind a flight's phase

  /** Event `a` is an ok reply to flight `f` in this phase. */
  predicate Approved(events: seq<Event>, a: nat, f: nat, phase: Phase)
  {
    && a < |events| && events[a].FlightResumes? && events[a].flight == f && events[a].reply.Reply? && events[a].reply.ok
    && f in Run(events[..a]).flights && Run(events[..a]).flights[f].phase == phase
  }

  /** The flight has its challenge, or also its signature, by event `n`. */
  ghost predicate Earned(events: seq<Event>, n: nat, f: nat, phase: Phase)
  {
    && (phase.Signing? ==> exists a: nat :: a < n && Approved(events, a, f, Challenging))
    && (phase.LoggingIn? ==> exists a: nat, b: nat :: a < b < n && Approved(events, a, f, Challenging) && Approved(events, b, f, Signing))
  }

  lemma PhaseStep(s: State, e: Event, f: nat)
    requires f in Step(s, e).flights
    ensures var phase := Step(s, e).flights[f].phase;
            phase.Signing? || phase.LoggingIn? ==>
              f in s.flights
              && (s.flights[f].phase == phase
                  || (e.FlightResumes? && e.flight == f && e.reply.Reply? && e.reply.ok
                      && s.flights[f].phase == if phase.Signing? then Challenging else Signing))
  {
    hide EnsuredState, EnsureResult;
    match e
    case Ensure(flight, interactive, now) => EnsuredKeeps(s, flight, interactive, now);
    case Fetch(caller, flight, now) => EnsuredKeeps(s, flight, false, now);
    case CallerResumes(caller, response, flight, now) =>
      EnsuredKeeps(s, flight, false, now);
      EnsuredKeeps(s.(session := None), flight, false, now);
    case _ =>
  }

  lemma {:induction false} PhasesAreEarned(events: seq<Event>, n: nat, f: nat)
    requires n <= |events| && f in Run(events[..n]).flights
    ensures Earned(events, n, f, Run(events[..n]).flights[f].phase)
    decreases n
  {
    hide Step;
    assert n > 0 by { assert events[..0] == []; }
    var s, e := Run(events[..n - 1]), events[n - 1];
    RunSnoc(events, n - 1);
    PhaseStep(s, e, f);
    if f in s.flights {
      PhasesAreEarned(events, n - 1, f);
      var phase := Run(events[..n]).flights[f].phase;
      if phase.Signing? && s.flights[f].phase != phase { assert Approved(events, n - 1, f, Challenging); }
      if phase.LoggingIn? && s.flights[f].phase != phase {
        assert Approved(events, n - 1, f, Signing);
        var a: nat :| a < n - 1 && Approved(events, a, f, Challenging);
      }
    }
  }

  // ---------------------------------------------------------------- every run

  /**
    Provenance. A session comes from one reply `j` to a flight of the connected wallet and the present
    generation, and has been the session ever since. The reply answered the probe, and named that
    wallet and a time to come; or it answered the login of a flight whose challenge and signature had
    both been accepted before.
  */
  lemma {:induction false} SessionHasItsReply(events: seq<Event>) returns (j: nat)
    requires Run(events).session.Some?
    ensures j < |events| && SignsIn(Run(events[..j]), events[j])
    ensures var s, e := Run(events[..j]), events[j]; var flight := s.flights[e.flight];
            && Run(events).session == Some(Session(flight.merchant, e.reply.expiresAt, s.epoch + 1))
            && Run(events).wallet == Some(flight.merchant) && Run(events).generation == flight.generation
            && (flight.phase == Probing ==> e.reply.merchant == Some(flight.merchant) && e.now < e.reply.expiresAt)
            && (flight.phase != Probing ==>
                  exists a: nat, b: nat :: a < b < j && Approved(events, a, e.flight, Challenging) && Approved(events, b, e.flight, Signing))
    ensures forall k | j < k <= |events| :: Run(events[..k]).session == Run(events).session
  {
    hide Step, Approved, SignsIn;
    assert events[..|events|] == events;
    j := LastSignIn(events, |events|);
    SessionBelongsToWallet(events);
    SignedInFlight(events, j);
  }

  lemma SignedInFlight(events: seq<Event>, j: nat)
    requires j < |events| && SignsIn(Run(events[..j]), events[j])
    ensures var s, e := Run(events[..j]), events[j]; var flight := s.flights[e.flight];
            && s.generation == flight.generation
            && (flight.phase == Probing ==> e.reply.merchant == Some(flight.merchant) && e.now < e.reply.expiresAt)
            && (flight.phase != Probing ==>
                  exists a: nat, b: nat :: a < b < j && Approved(events, a, e.flight, Challenging) && Approved(events, b, e.flight, Signing))
  {
    hide Run, Approved;
    PhasesAreEarned(events, j, events[j].flight);
  }

  lemma {:induction false} LastSignIn(events: seq<Event>, n: nat) returns (j: nat)
    requires n <= |events| && Run(events[..n]).session.Some?
    ensures j < n && SignsIn(Run(events[..j]), events[j])
    ensures Run(events[..n]).session
            == Some(Session(Run(events[..j]).flights[events[j].flight].merchant, events[j].reply.expiresAt, Run(events[..j]).epoch + 1))
    ensures Run(events[..n]).generation == Run(events[..j]).generation
    ensures forall k | j < k <= n :: Run(events[..k]).session == Run(events[..n]).session
    decreases n
  {
    hide Step, SignsIn, EndsSession;
    assert n > 0 by { assert events[..0] == []; }
    var s, e := Run(events[..n - 1]), events[n - 1];
    RunSnoc(events, n - 1);
    SessionMovesExactly(s, e);
    GenerationEndsSession(s, e);
    if SignsIn(s, e) {
      j := n - 1;
    } else {
      j := LastSignIn(events, n - 1);
    }
  }
}
