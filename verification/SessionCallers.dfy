/** What a caller of the session coordinator gets, exactly: `ensureSession` and each step of `workspaceFetch`. */
module SessionCallers {
  import opened Text
  import opened SessionClient
  import opened SessionProvenance

  /**
    In every reachable state, `ensureSession` resolves exactly when there is an unexpired session, joins
    the flight that is already under way, refuses without a wallet or after a decline that the user
    has not overruled, and otherwise starts one flight, which waits first for a pending logout.
  */
  lemma {:induction false} EnsuresExactly(events: seq<Event>, flight: nat, interactive: bool, now: int)
    requires flight !in Run(events).flights
    ensures var s := Run(events); var r, t := EnsureResult(s, flight, interactive, now), EnsuredState(s, flight, interactive, now);
            var signedIn := s.session.Some? && now < s.session.value.expiresAt;
            var refused := s.wallet.None? || (!signedIn && s.inflight.None? && s.declined == s.wallet && !interactive);
            && (r == Rejected <==> refused)
            && (r == Resolved <==> s.wallet.Some? && signedIn)
            && (forall g | r == Joined(g) && g != flight :: s.inflight == Some(g))
            && (r == Joined(flight) <==> s.wallet.Some? && !signedIn && s.inflight.None? && !refused)
            && (r != Joined(flight) ==> t == s)
            && (r == Joined(flight) ==>
                  t == s.(inflight := Some(flight),
                          flights := s.flights[flight := Flight(s.wallet.value, s.generation,
                            if s.pendingLogout.Some? then AwaitingLogout(s.pendingLogout.value) else Probing)]))
  {
    hide Run;
    RunSafe(events);
    var s := Run(events);
    if s.inflight.Some? { assert FlightOk(s, s.inflight.value); }
  }

  /**
    A caller whose `ensureSession` has settled goes on to its request exactly when it succeeded and
    wallet and generation are still its own. Its response is handed back exactly when they still are
    and it is not a first 401; a first 401 signs in again, once.
  */
  lemma {:induction false} CallerMovesExactly(s: State, c: nat, response: Response, flight: nat, now: int)
    requires c in s.callers && (s.callers[c].Ensuring? || s.callers[c].Requesting?)
    ensures var caller, next := s.callers[c], CallerResumed(s, c, response, flight, now).callers[c];
            var own := s.wallet == Some(caller.merchant) && s.generation == caller.generation;
            && (caller.Ensuring? ==>
                  var joined := caller.ensured.Joined?;
                  var settled := joined ==> caller.ensured.flight in s.flights && s.flights[caller.ensured.flight].phase.Done?;
                  var succeeded := caller.ensured.Resolved? || (joined && settled && s.flights[caller.ensured.flight].phase.ok);
                  next == if !settled then caller
                          else if succeeded && own then
                            Requesting(caller.merchant, caller.generation, if s.session.Some? then Some(s.session.value.epoch) else None, caller.retry)
                          else Failed)
            && (caller.Requesting? ==>
                  && (next == Failed <==> response == NetworkError || !own)
                  && (next == Answered(caller.merchant, caller.generation) <==>
                        response != NetworkError && own && (response == Unauthorized ==> caller.retry))
                  && (next.Ensuring? <==> response == Unauthorized && own && !caller.retry)
                  && (next.Ensuring? ==> next.retry && next.merchant == caller.merchant && next.generation == caller.generation))
    ensures forall d | d in s.callers && d != c :: CallerResumed(s, c, response, flight, now).callers[d] == s.callers[d]
  {
    hide EnsureResult, EnsuredState;
    EnsuredCallers(s, flight, now);
    EnsuredCallers(s.(session := None), flight, now);
  }

  lemma EnsuredCallers(s: State, flight: nat, now: int)
    ensures EnsuredState(s, flight, false, now).callers == s.callers
  {
  }

  /** A decline is remembered exactly after a refused signature or a sign-out, and forgotten by another wallet or a login. */
  lemma {:induction false} DeclinesExactly(s: State, e: Event)
    ensures var changed := (e.SetWallet? || (e.SwitchWallet? && e.logout !in s.outstanding)) && e.next != s.wallet;
            var refused := e.FlightResumes? && e.flight in s.flights && s.flights[e.flight].phase == Signing && (e.reply.Lost? || !e.reply.ok);
            var loggedIn := SignsIn(s, e) && s.flights[e.flight].phase == LoggingIn;
            var left := e.SignOut? && e.logout !in s.outstanding && s.wallet.Some?;
            Step(s, e).declined == if changed || loggedIn then None else if refused then Some(s.flights[e.flight].merchant)
                                   else if left then s.wallet else s.declined
  {
    hide EnsureResult;
  }
}
