/**
  The browser's workspace session coordinator, src/lib/workspaceSessionClient.ts. Code between two
  awaits runs at once; a run interleaves such blocks in any order, with any replies from the
  server, the wallet and the clock.
*/
module SessionClient {
  import opened Text

  datatype Session = Session(merchant: string, expiresAt: int, epoch: nat)

  /** Where a sign-in flight (`establish`, then its then/catch/finally) is waiting. */
  datatype Phase =
    | AwaitingLogout(logout: nat)
    | Probing
    | Challenging
    | Signing
    | LoggingIn
    | Finished(ok: bool)
    | Done(ok: bool)

  datatype Flight = Flight(merchant: string, generation: nat, phase: Phase)

  /** What `ensureSession` hands back: a settled promise, or the promise of a flight. */
  datatype Ensured = Resolved | Rejected | Joined(flight: nat)

  datatype Caller =
    | Ensuring(merchant: string, generation: nat, ensured: Ensured, retry: bool)
    | Requesting(merchant: string, generation: nat, usedEpoch: Option<nat>, retry: bool)
    | Answered(merchant: string, generation: nat)
    | Failed

  /** The closure variables, the DELETE requests still on their way, the flights and the `fetch` callers. */
  datatype State = State(wallet: Option<string>, generation: nat, session: Option<Session>, epoch: nat,
                         inflight: Option<nat>, declined: Option<string>, pendingLogout: Option<nat>,
                         outstanding: set<nat>, flights: map<nat, Flight>, callers: map<nat, Caller>)

  const START: State := State(None, 0, None, 0, None, None, None, {}, map[], map[])

  /** A server or wallet reply, as far as `establish` looks at it; `Lost` is a request that failed. */
  datatype Reply = Lost | Reply(ok: bool, merchant: Option<string>, expiresAt: int)

  /** What a `fetch` caller's request came to. */
  datatype Response = NetworkError | Unauthorized | Other

  datatype Event =
    | SetWallet(next: Option<string>)
    | SwitchWallet(next: Option<string>, logout: nat)
    | SignOut(logout: nat)
    | LogoutLands(logout: nat)
    | Ensure(flight: nat, interactive: bool, now: int)
    | FlightResumes(flight: nat, reply: Reply, now: int)
    | FlightSettles(flight: nat)
    | Fetch(caller: nat, flight: nat, now: int)
    | CallerResumes(caller: nat, response: Response, flight: nat, now: int)

  // ---------------------------------------------------------------- the synchronous blocks

  predicate Valid(s: State, merchant: string, now: int)
  {
    s.session.Some? && s.session.value.merchant == merchant && s.session.value.expiresAt > now
  }

  /** `requireCurrent` does not throw. */
  predicate Current(s: State, merchant: string, generation: nat)
  {
    s.wallet == Some(merchant) && s.generation == generation
  }

  function WalletSet(s: State, next: Option<string>): State
  {
    if next == s.wallet then s
    else s.(wallet := next, generation := s.generation + 1, session := None, inflight := None, declined := None)
  }

  function Revoked(s: State, logout: nat): State
  {
    s.(pendingLogout := Some(logout), outstanding := s.outstanding + {logout})
  }

  function WalletSwitched(s: State, next: Option<string>, logout: nat): State
  {
    if next != s.wallet && s.wallet.Some? then Revoked(WalletSet(s, next), logout) else WalletSet(s, next)
  }

  function SignedOut(s: State, logout: nat): State
  {
    Revoked(s.(session := None, inflight := None, generation := s.generation + 1,
               declined := if s.wallet.Some? then s.wallet else s.declined), logout)
  }

  function LogoutLanded(s: State, logout: nat): State
  {
    s.(outstanding := s.outstanding - {logout}, pendingLogout := if s.pendingLogout == Some(logout) then None else s.pendingLogout)
  }

  /** The first block of `establish`: it may have to wait for the pending logout. */
  function NewFlight(s: State, merchant: string): Flight
  {
    Flight(merchant, s.generation, if s.pendingLogout.Some? then AwaitingLogout(s.pendingLogout.value) else Probing)
  }

  function EnsureResult(s: State, flight: nat, interactive: bool, now: int): Ensured
  {
    if s.wallet.None? then Rejected
    else if Valid(s, s.wallet.value, now) then Resolved
    else if s.inflight.Some? && s.inflight.value in s.flights && s.flights[s.inflight.value].merchant == s.wallet.value then Joined(s.inflight.value)
    else if s.declined == s.wallet && !interactive then Rejected
    else if flight in s.flights then Rejected
    else Joined(flight)
  }

  function EnsuredState(s: State, flight: nat, interactive: bool, now: int): State
  {
    if EnsureResult(s, flight, interactive, now) == Joined(flight) && flight !in s.flights && s.wallet.Some?
    then s.(inflight := Some(flight), flights := s.flights[flight := NewFlight(s, s.wallet.value)])
    else s
  }

  function WithPhase(s: State, f: nat, phase: Phase): State
    requires f in s.flights
  {
    s.(flights := s.flights[f := s.flights[f].(phase := phase)])
  }

  function Established(s: State, f: nat, expiresAt: int): State
    requires f in s.flights
  {
    WithPhase(s, f, Finished(true)).(session := Some(Session(s.flights[f].merchant, expiresAt, s.epoch + 1)), epoch := s.epoch + 1)
  }

  /** One resumption of `establish`, up to its next await. */
  function Resumed(s: State, f: nat, reply: Reply, now: int): State
    requires f in s.flights
  {
    var flight := s.flights[f];
    var current := Current(s, flight.merchant, flight.generation);
    match flight.phase
    case AwaitingLogout(logout) =>
      if logout in s.outstanding then s
      else if !current then WithPhase(s, f, Finished(false)) else WithPhase(s, f, Probing)
    case Probing =>
      if reply.Lost? || !current then WithPhase(s, f, Finished(false))
      else if reply.ok && reply.merchant == Some(flight.merchant) && reply.expiresAt > now then Established(s, f, reply.expiresAt)
      else WithPhase(s, f, Challenging)
    case Challenging =>
      if reply.Lost? || !current || !reply.ok then WithPhase(s, f, Finished(false)) else WithPhase(s, f, Signing)
    case Signing =>
      if reply.Lost? || !reply.ok then WithPhase(s, f, Finished(false)).(declined := Some(flight.merchant))
      else if !current then WithPhase(s, f, Finished(false))
      else WithPhase(s, f, LoggingIn)
    case LoggingIn =>
      if reply.Lost? || !current || !reply.ok then WithPhase(s, f, Finished(false)) else Established(s, f, reply.expiresAt).(declined := None)
    case _ => s
  }

  /** The flight's `finally`. */
  function FlightSettled(s: State, f: nat): State
    requires f in s.flights
  {
    if s.flights[f].phase.Finished? then
      WithPhase(s, f, Done(s.flights[f].phase.ok)).(inflight := if s.inflight == Some(f) then None else s.inflight)
    else s
  }

  function WithCaller(s: State, c: nat, caller: Caller): State
  {
    s.(callers := s.callers[c := caller])
  }

  function Fetching(s: State, c: nat, flight: nat, now: int): State
  {
    if c in s.callers then s
    else if s.wallet.None? then WithCaller(s, c, Failed)
    else WithCaller(EnsuredState(s, flight, false, now), c,
                    Ensuring(s.wallet.value, s.generation, EnsureResult(s, flight, false, now), false))
  }

  predicate Ready(s: State, ensured: Ensured)
  {
    ensured.Joined? ==> ensured.flight in s.flights && s.flights[ensured.flight].phase.Done?
  }

  predicate Succeeded(s: State, ensured: Ensured)
  {
    ensured.Resolved? || (ensured.Joined? && ensured.flight in s.flights && s.flights[ensured.flight].phase == Done(true))
  }

  /** One resumption of `workspaceFetch`; `response` is what its own request came to. */
  function CallerResumed(s: State, c: nat, response: Response, flight: nat, now: int): State
    requires c in s.callers
  {
    match s.callers[c]
    case Ensuring(merchant, generation, ensured, retry) =>
      if !Ready(s, ensured) then s
      else if !Succeeded(s, ensured) || !Current(s, merchant, generation) then WithCaller(s, c, Failed)
      else WithCaller(s, c, Requesting(merchant, generation, if s.session.Some? then Some(s.session.value.epoch) else None, retry))
    case Requesting(merchant, generation, usedEpoch, retry) =>
      if response == NetworkError || !Current(s, merchant, generation) then WithCaller(s, c, Failed)
      else if retry || response == Other then WithCaller(s, c, Answered(merchant, generation))
      else
        var forgot := if s.session.Some? && Some(s.session.value.epoch) == usedEpoch then s.(session := None) else s;
        WithCaller(EnsuredState(forgot, flight, false, now), c,
                   Ensuring(merchant, generation, EnsureResult(forgot, flight, false, now), true))
    case _ => s
  }

  /** Logout ids are fresh: one that was used before starts nothing. */
  function Step(s: State, e: Event): State
  {
    match e
    case SetWallet(next) => WalletSet(s, next)
    case SwitchWallet(next, logout) => if logout in s.outstanding then s else WalletSwitched(s, next, logout)
    case SignOut(logout) => if logout in s.outstanding then s else SignedOut(s, logout)
    case LogoutLands(logout) => if logout in s.outstanding then LogoutLanded(s, logout) else s
    case Ensure(flight, interactive, now) => EnsuredState(s, flight, interactive, now)
    case FlightResumes(flight, reply, now) => if flight in s.flights then Resumed(s, flight, reply, now) else s
    case FlightSettles(flight) => if flight in s.flights then FlightSettled(s, flight) else s
    case Fetch(caller, flight, now) => Fetching(s, caller, flight, now)
    case CallerResumes(caller, response, flight, now) => if caller in s.callers then CallerResumed(s, caller, response, flight, now) else s
  }

  function Run(events: seq<Event>): State
  {
    if events == [] then START else Step(Run(events[..|events| - 1]), events[|events| - 1])
  }

  // ---------------------------------------------------------------- the same blocks on the closure variables

  class Coordinator {
    var wallet: Option<string>
    var generation: nat
    var session: Option<Session>
    var epoch: nat
    var inflight: Option<nat>
    var declined: Option<string>
    var pendingLogout: Option<nat>
    var outstanding: set<nat>
    var flights: map<nat, Flight>
    var callers: map<nat, Caller>

    function Value(): State
      reads this
    {
      State(wallet, generation, session, epoch, inflight, declined, pendingLogout, outstanding, flights, callers)
    }

    constructor ()
      ensures Value() == START
    {
      wallet, generation, session, epoch, inflight, declined := None, 0, None, 0, None, None;
      pendingLogout, outstanding, flights, callers := None, {}, map[], map[];
    }

    /** `setWallet`. */
    method SetConnectedWallet(next: Option<string>) returns (changed: bool, previous: Option<string>)
      modifies this
      ensures Value() == WalletSet(old(Value()), next)
      ensures changed <==> next != old(wallet)
      ensures previous == old(wallet)
    {
      previous := wallet;
      if next == wallet { return false, previous; }
      wallet := next;
      generation := generation + 1;
      session := None;
      inflight := None;
      declined := None;
      changed := true;
    }

    /** `revokeServerSession`, up to the request. */
    method RevokeServerSession(logout: nat)
      modifies this
      ensures Value() == Revoked(old(Value()), logout)
    {
      outstanding := outstanding + {logout};
      pendingLogout := Some(logout);
    }

    /** `switchWallet`. */
    method Switch(next: Option<string>, logout: nat)
      modifies this
      ensures Value() == WalletSwitched(old(Value()), next, logout)
    {
      var changed, previous := SetConnectedWallet(next);
      if changed && previous.Some? { RevokeServerSession(logout); }
    }

    /** `signOut`. */
    method SignOutNow(logout: nat)
      modifies this
      ensures Value() == SignedOut(old(Value()), logout)
    {
      session := None;
      inflight := None;
      generation := generation + 1;
      if wallet.Some? { declined := wallet; }
      RevokeServerSession(logout);
    }

    /** `ensureSession`, up to the first await of `establish`. */
    method EnsureSession(flight: nat, interactive: bool, now: int) returns (ensured: Ensured)
      requires flight !in flights
      modifies this
      ensures Value() == EnsuredState(old(Value()), flight, interactive, now)
      ensures ensured == EnsureResult(old(Value()), flight, interactive, now)
    {
      if wallet.None? { return Rejected; }
      var merchant := wallet.value;
      if Valid(Value(), merchant, now) { return Resolved; }
      if inflight.Some? && inflight.value in flights && flights[inflight.value].merchant == merchant { return Joined(inflight.value); }
      if declined == Some(merchant) && !interactive { return Rejected; }
      var phase := if pendingLogout.Some? then AwaitingLogout(pendingLogout.value) else Probing;
      flights := flights[flight := Flight(merchant, generation, phase)];
      inflight := Some(flight);
      return Joined(flight);
    }
  }

  // ---------------------------------------------------------------- the invariant

  ghost predicate Live(s: State, f: nat)
  {
    f in s.flights && !s.flights[f].phase.Done?
  }

  /** A live flight of the present generation is the one in flight, for the connected wallet, and the logout it found has its turn first. */
  ghost predicate FlightOk(s: State, f: nat)
  {
    Live(s, f) ==>
      && s.flights[f].generation <= s.generation
      && (s.flights[f].generation == s.generation ==>
            && s.inflight == Some(f) && s.wallet == Some(s.flights[f].merchant)
            && (if s.flights[f].phase.AwaitingLogout?
                then s.pendingLogout == None || s.pendingLogout == Some(s.flights[f].phase.logout)
                else s.pendingLogout == None))
  }

  ghost predicate OneFlightPerGeneration(s: State)
  {
    forall f, g | Live(s, f) && Live(s, g) && s.flights[f].generation == s.flights[g].generation :: f == g
  }

  ghost predicate Safe(s: State)
  {
    && (s.session.Some? ==> s.wallet == Some(s.session.value.merchant) && s.pendingLogout.None?)
    && (s.pendingLogout.Some? ==> s.pendingLogout.value in s.outstanding)
    && (s.inflight.Some? ==> Live(s, s.inflight.value) && s.flights[s.inflight.value].generation == s.generation)
    && (forall f | f in s.flights :: FlightOk(s, f))
    && OneFlightPerGeneration(s)
  }

  lemma EnsuredSafe(s: State, flight: nat, interactive: bool, now: int)
    requires Safe(s)
    ensures Safe(EnsuredState(s, flight, interactive, now))
  {
    var t := EnsuredState(s, flight, interactive, now);
    forall f | f in t.flights ensures FlightOk(t, f) {
      if f in s.flights { assert FlightOk(s, f); }
    }
    forall f, g | Live(t, f) && Live(t, g) && t.flights[f].generation == t.flights[g].generation ensures f == g {
      if f in s.flights { assert FlightOk(s, f); }
      if g in s.flights { assert FlightOk(s, g); }
    }
  }

  lemma PhaseSafe(s: State, f: nat, phase: Phase)
    requires Safe(s) && Live(s, f) && !phase.Done?
    requires phase.AwaitingLogout? ==> phase == s.flights[f].phase
    requires s.flights[f].phase.AwaitingLogout? ==> s.pendingLogout != Some(s.flights[f].phase.logout) || s.flights[f].generation != s.generation
    ensures Safe(WithPhase(s, f, phase))
  {
    var t := WithPhase(s, f, phase);
    forall g | g in t.flights ensures FlightOk(t, g) { assert FlightOk(s, g); }
  }

  lemma EstablishedSafe(s: State, f: nat, expiresAt: int)
    requires Safe(s) && Live(s, f) && !s.flights[f].phase.AwaitingLogout?
    requires Current(s, s.flights[f].merchant, s.flights[f].generation)
    ensures Safe(Established(s, f, expiresAt))
  {
    hide OneFlightPerGeneration;
    PhaseSafe(s, f, Finished(true));
    var t, u := Established(s, f, expiresAt), WithPhase(s, f, Finished(true));
    assert FlightOk(s, f);
    SameFlights(u, t);
  }

  /** What is claimed of flights and callers does not depend on the session, the epoch or `declined`. */
  lemma SameFlights(s: State, t: State)
    requires Safe(s)
    requires t.flights == s.flights && t.callers == s.callers && t.inflight == s.inflight
    requires t.generation == s.generation && t.wallet == s.wallet && t.pendingLogout == s.pendingLogout && t.outstanding == s.outstanding
    requires t.session.Some? ==> t.wallet == Some(t.session.value.merchant) && t.pendingLogout.None?
    ensures Safe(t)
  {
    forall f | f in t.flights ensures FlightOk(t, f) { assert FlightOk(s, f); }
    forall f, g | Live(t, f) && Live(t, g) && t.flights[f].generation == t.flights[g].generation ensures f == g {
      assert Live(s, f) && Live(s, g);
    }
  }

  lemma ResumedSafe(s: State, f: nat, reply: Reply, now: int)
    requires Safe(s) && f in s.flights
    ensures Safe(Resumed(s, f, reply, now))
  {
    hide Safe, WithPhase, Established;
    var flight := s.flights[f];
    match flight.phase
    case AwaitingLogout(logout) =>
      if logout !in s.outstanding {
        PendingIsOutstanding(s);
        PhaseSafe(s, f, if Current(s, flight.merchant, flight.generation) then Probing else Finished(false));
      }
    case Probing =>
      PhaseSafe(s, f, Finished(false));
      PhaseSafe(s, f, Challenging);
      if reply.Reply? && Current(s, flight.merchant, flight.generation) { EstablishedSafe(s, f, reply.expiresAt); }
    case Challenging =>
      PhaseSafe(s, f, Finished(false));
      PhaseSafe(s, f, Signing);
    case Signing =>
      PhaseSafe(s, f, Finished(false));
      PhaseSafe(s, f, LoggingIn);
      SafeSession(WithPhase(s, f, Finished(false)));
      SameFlights(WithPhase(s, f, Finished(false)), WithPhase(s, f, Finished(false)).(declined := Some(flight.merchant)));
    case LoggingIn =>
      PhaseSafe(s, f, Finished(false));
      if reply.Reply? && Current(s, flight.merchant, flight.generation) {
        EstablishedSafe(s, f, reply.expiresAt);
        var t := Established(s, f, reply.expiresAt);
        SafeSession(t);
        SameFlights(t, t.(declined := None));
      }
    case _ =>
  }

  lemma PendingIsOutstanding(s: State)
    requires Safe(s)
    ensures s.pendingLogout.Some? ==> s.pendingLogout.value in s.outstanding
  {
  }

  lemma SafeSession(s: State)
    requires Safe(s)
    ensures s.session.Some? ==> s.wallet == Some(s.session.value.merchant) && s.pendingLogout.None?
  {
  }

  /** A new generation: no live flight belongs to it yet, and there is no session. */
  lemma NewGenerationSafe(s: State, t: State)
    requires Safe(s) && t.generation == s.generation + 1 && t.session.None? && t.inflight.None?
    requires t.flights == s.flights && t.callers == s.callers
    requires t.pendingLogout.Some? ==> t.pendingLogout.value in t.outstanding
    ensures Safe(t)
  {
    forall f | f in t.flights ensures FlightOk(t, f) { assert FlightOk(s, f); }
    forall f, g | Live(t, f) && Live(t, g) && t.flights[f].generation == t.flights[g].generation ensures f == g {
      assert Live(s, f) && Live(s, g);
    }
  }

  lemma LandedSafe(s: State, logout: nat)
    requires Safe(s)
    ensures Safe(LogoutLanded(s, logout))
  {
    var t := LogoutLanded(s, logout);
    forall f | f in t.flights ensures FlightOk(t, f) { assert FlightOk(s, f); }
    forall f, g | Live(t, f) && Live(t, g) && t.flights[f].generation == t.flights[g].generation ensures f == g {
      assert Live(s, f) && Live(s, g);
    }
  }

  lemma SettledSafe(s: State, f: nat)
    requires Safe(s) && f in s.flights
    ensures Safe(FlightSettled(s, f))
  {
    var t := FlightSettled(s, f);
    forall g | g in t.flights ensures FlightOk(t, g) {
      assert FlightOk(s, g) && FlightOk(s, f);
    }
    forall g, h | Live(t, g) && Live(t, h) && t.flights[g].generation == t.flights[h].generation ensures g == h {
      assert Live(s, g) && Live(s, h);
    }
  }

  lemma CallerSafe(s: State, c: nat, caller: Caller)
    requires Safe(s)
    ensures Safe(WithCaller(s, c, caller))
  {
    var t := WithCaller(s, c, caller);
    forall f | f in t.flights ensures FlightOk(t, f) { assert FlightOk(s, f); }
    forall f, g | Live(t, f) && Live(t, g) && t.flights[f].generation == t.flights[g].generation ensures f == g {
      assert Live(s, f) && Live(s, g);
    }
  }

  lemma FetchingSafe(s: State, c: nat, flight: nat, now: int)
    requires Safe(s)
    ensures Safe(Fetching(s, c, flight, now))
  {
    hide Safe, EnsuredState, WithCaller;
    if c !in s.callers {
      if s.wallet.None? {
        CallerSafe(s, c, Failed);
      } else {
        EnsuredSafe(s, flight, false, now);
        CallerSafe(EnsuredState(s, flight, false, now), c,
                   Ensuring(s.wallet.value, s.generation, EnsureResult(s, flight, false, now), false));
      }
    }
  }

  lemma CallerResumedSafe(s: State, c: nat, response: Response, flight: nat, now: int)
    requires Safe(s) && c in s.callers
    ensures Safe(CallerResumed(s, c, response, flight, now))
  {
    hide Safe, EnsuredState, WithCaller;
    match s.callers[c]
    case Ensuring(merchant, generation, _, retry) =>
      CallerSafe(s, c, Failed);
      CallerSafe(s, c, Requesting(merchant, generation, if s.session.Some? then Some(s.session.value.epoch) else None, retry));
    case Requesting(merchant, generation, usedEpoch, retry) =>
      CallerSafe(s, c, Failed);
      if Current(s, merchant, generation) {
        CallerSafe(s, c, Answered(merchant, generation));
        SafeSession(s);
        SameFlights(s, s.(session := None));
        var forgot := if s.session.Some? && Some(s.session.value.epoch) == usedEpoch then s.(session := None) else s;
        EnsuredSafe(forgot, flight, false, now);
        CallerSafe(EnsuredState(forgot, flight, false, now), c, Ensuring(merchant, generation, EnsureResult(forgot, flight, false, now), true));
      }
    case _ =>
  }

  lemma {:induction false} StepSafe(s: State, e: Event)
    requires Safe(s)
    ensures Safe(Step(s, e))
  {
    hide Safe, EnsuredState, Resumed, FlightSettled, Fetching, CallerResumed, LogoutLanded;
    match e
    case SetWallet(next) =>
      PendingIsOutstanding(s);
      if next != s.wallet { NewGenerationSafe(s, WalletSet(s, next)); }
    case SwitchWallet(next, logout) =>
      PendingIsOutstanding(s);
      if next != s.wallet { NewGenerationSafe(s, WalletSwitched(s, next, logout)); }
    case SignOut(logout) => NewGenerationSafe(s, SignedOut(s, logout));
    case LogoutLands(logout) => LandedSafe(s, logout);
    case Ensure(flight, interactive, now) => EnsuredSafe(s, flight, interactive, now);
    case FlightResumes(flight, reply, now) => if flight in s.flights { ResumedSafe(s, flight, reply, now); }
    case FlightSettles(flight) => if flight in s.flights { SettledSafe(s, flight); }
    case Fetch(caller, flight, now) => FetchingSafe(s, caller, flight, now);
    case CallerResumes(caller, response, flight, now) =>
      if caller in s.callers { CallerResumedSafe(s, caller, response, flight, now); }
  }

  lemma {:induction false} RunSafe(events: seq<Event>)
    ensures Safe(Run(events))
  {
    hide Step;
    if events != [] {
      RunSafe(events[..|events| - 1]);
      StepSafe(Run(events[..|events| - 1]), events[|events| - 1]);
    }
  }

  // ---------------------------------------------------------------- what every run guarantees

  /** A session belongs to the connected wallet, and the latest logout has landed before it was set. */
  lemma {:induction false} SessionBelongsToWallet(events: seq<Event>)
    ensures var s := Run(events);
            s.session.Some? ==> s.wallet == Some(s.session.value.merchant) && s.pendingLogout.None?
  {
    hide Run;
    RunSafe(events);
  }

  /** Two sign-in flights that have not settled belong to different wallet generations. */
  lemma {:induction false} OneLiveFlight(events: seq<Event>, f: nat, g: nat)
    ensures var s := Run(events);
            Live(s, f) && Live(s, g) && s.flights[f].generation == s.flights[g].generation ==> f == g
  {
    hide Run, FlightOk;
    RunSafe(events);
  }

  /** The generation never goes back, and while it stays, so does the wallet. */
  lemma StepMono(s: State, e: Event)
    ensures Step(s, e).generation >= s.generation
    ensures Step(s, e).generation == s.generation ==> Step(s, e).wallet == s.wallet
  {
  }

  lemma RunSnoc(events: seq<Event>, k: nat)
    requires k < |events|
    ensures Run(events[..k + 1]) == Step(Run(events[..k]), events[k])
  {
    hide Step;
    assert events[..k + 1][..k] == events[..k];
  }

  lemma {:induction false} RunMono(events: seq<Event>, i: nat, j: nat)
    requires i <= j <= |events|
    ensures Run(events[..j]).generation >= Run(events[..i]).generation
    ensures Run(events[..j]).generation == Run(events[..i]).generation ==> Run(events[..j]).wallet == Run(events[..i]).wallet
    decreases j
  {
    hide Step, Run;
    if i < j {
      RunMono(events, i, j - 1);
      RunSnoc(events, j - 1);
      StepMono(Run(events[..j - 1]), events[j - 1]);
    }
  }

  /** A caller that has not failed carries the wallet and the generation it was called with. */
  predicate Tagged(s: State, c: nat, merchant: string, generation: nat)
  {
    c in s.callers && (s.callers[c].Failed? || (s.callers[c].merchant == merchant && s.callers[c].generation == generation))
  }

  lemma StepKeepsTag(s: State, e: Event, c: nat, merchant: string, generation: nat)
    requires Tagged(s, c, merchant, generation)
    ensures Tagged(Step(s, e), c, merchant, generation)
  {
    hide Resumed, FlightSettled;
    if e.FlightResumes? && e.flight in s.flights { ResumedCallers(s, e.flight, e.reply, e.now); }
    if e.FlightSettles? && e.flight in s.flights { SettledCallers(s, e.flight); }
  }

  lemma ResumedCallers(s: State, f: nat, reply: Reply, now: int)
    requires f in s.flights
    ensures Resumed(s, f, reply, now).callers == s.callers
  {
  }

  lemma SettledCallers(s: State, f: nat)
    requires f in s.flights
    ensures FlightSettled(s, f).callers == s.callers
  {
  }

  /** Event `i` is the call that starts caller `c`. */
  predicate Starts(events: seq<Event>, i: nat, c: nat)
  {
    i < |events| && events[i].Fetch? && events[i].caller == c && c !in Run(events[..i]).callers
  }

  /** Event `j` is the step in which caller `c` hands back its response. */
  predicate Answers(events: seq<Event>, j: nat, c: nat)
  {
    && j < |events| && c in Run(events[..j + 1]).callers && Run(events[..j + 1]).callers[c].Answered?
    && !(c in Run(events[..j]).callers && Run(events[..j]).callers[c].Answered?)
  }

  lemma StartTags(s: State, c: nat, flight: nat, now: int)
    requires c !in s.callers
    ensures s.wallet.Some? ==> Tagged(Fetching(s, c, flight, now), c, s.wallet.value, s.generation)
    ensures s.wallet.None? ==> c in Fetching(s, c, flight, now).callers && Fetching(s, c, flight, now).callers[c].Failed?
    ensures !Fetching(s, c, flight, now).callers[c].Answered?
  {
  }

  lemma {:induction false} RunKeepsTag(events: seq<Event>, i: nat, k: nat, c: nat)
    requires Starts(events, i, c) && i < k <= |events|
    ensures Run(events[..i]).wallet.Some? ==> Tagged(Run(events[..k]), c, Run(events[..i]).wallet.value, Run(events[..i]).generation)
    ensures Run(events[..i]).wallet.None? ==> c in Run(events[..k]).callers && Run(events[..k]).callers[c].Failed?
    decreases k
  {
    hide Step, Run, Fetching, Tagged;
    RunSnoc(events, k - 1);
    if k == i + 1 {
      FetchStep(Run(events[..i]), events[i]);
      StartTags(Run(events[..i]), c, events[i].flight, events[i].now);
    } else {
      RunKeepsTag(events, i, k - 1, c);
      if Run(events[..i]).wallet.Some? {
        StepKeepsTag(Run(events[..k - 1]), events[k - 1], c, Run(events[..i]).wallet.value, Run(events[..i]).generation);
      } else {
        FailedStays(Run(events[..k - 1]), events[k - 1], c);
      }
    }
  }

  lemma FetchStep(s: State, e: Event)
    requires e.Fetch?
    ensures Step(s, e) == Fetching(s, e.caller, e.flight, e.now)
  {
  }

  lemma FailedStays(s: State, e: Event, c: nat)
    requires c in s.callers && s.callers[c].Failed?
    ensures c in Step(s, e).callers && Step(s, e).callers[c].Failed?
  {
    hide Resumed, FlightSettled;
    if e.FlightResumes? && e.flight in s.flights { ResumedCallers(s, e.flight, e.reply, e.now); }
    if e.FlightSettles? && e.flight in s.flights { SettledCallers(s, e.flight); }
  }

  /** A caller becomes answered only while its wallet and generation are the present ones. */
  lemma AnsweredIsCurrent(s: State, e: Event, c: nat)
    requires c in Step(s, e).callers && Step(s, e).callers[c].Answered? && !(c in s.callers && s.callers[c].Answered?)
    ensures c in s.callers && s.callers[c].Requesting? && Current(s, s.callers[c].merchant, s.callers[c].generation)
    ensures Step(s, e).wallet == s.wallet && Step(s, e).generation == s.generation
  {
    hide Resumed, FlightSettled;
    if e.FlightResumes? && e.flight in s.flights { ResumedCallers(s, e.flight, e.reply, e.now); }
    if e.FlightSettles? && e.flight in s.flights { SettledCallers(s, e.flight); }
  }

  /**
    A `fetch` hands back a response only if the wallet and the generation were the same at every
    moment from its call to its answer.
  */
  lemma {:induction false} AnswersAreCurrent(events: seq<Event>, i: nat, j: nat, k: nat, c: nat)
    requires Starts(events, i, c) && Answers(events, j, c) && i <= k <= j + 1
    ensures i < j && Run(events[..i]).wallet.Some?
    ensures Run(events[..k]).wallet == Run(events[..i]).wallet && Run(events[..k]).generation == Run(events[..i]).generation
  {
    hide Step, Run, Fetching;
    RunSnoc(events, j);
    var s := Run(events[..j]);
    AnsweredIsCurrent(s, events[j], c);
    if j <= i { CallersStay(events, j, i, c); }
    RunKeepsTag(events, i, j, c);
    RunMono(events, i, j);
    if k <= j {
      RunMono(events, i, k);
      RunMono(events, k, j);
    }
  }

  lemma {:induction false} CallersStay(events: seq<Event>, j: nat, i: nat, c: nat)
    requires j <= i <= |events| && c in Run(events[..j]).callers
    ensures c in Run(events[..i]).callers
    decreases i
  {
    hide Step, Run;
    if j < i {
      CallersStay(events, j, i - 1, c);
      RunSnoc(events, i - 1);
      StepKeepsCaller(Run(events[..i - 1]), events[i - 1], c);
    }
  }

  lemma StepKeepsCaller(s: State, e: Event, c: nat)
    requires c in s.callers
    ensures c in Step(s, e).callers
  {
  }

  /** Every response has its call and its answer. */
  lemma {:induction false} AnswerHasItsCall(events: seq<Event>, c: nat) returns (i: nat, j: nat)
    requires c in Run(events).callers && Run(events).callers[c].Answered?
    ensures Starts(events, i, c) && Answers(events, j, c)
  {
    hide Step;
    assert events[..|events|] == events;
    i := FindStart(events, |events|, c);
    j := FindAnswer(events, |events|, c);
  }

  lemma {:induction false} FindStart(events: seq<Event>, n: nat, c: nat) returns (i: nat)
    requires n <= |events| && c in Run(events[..n]).callers
    ensures Starts(events, i, c)
    decreases n
  {
    hide Step;
    assert n > 0 by { assert events[..0] == []; }
    RunSnoc(events, n - 1);
    if c in Run(events[..n - 1]).callers {
      i := FindStart(events, n - 1, c);
    } else {
      NewCaller(Run(events[..n - 1]), events[n - 1], c);
      i := n - 1;
    }
  }

  lemma NewCaller(s: State, e: Event, c: nat)
    requires c in Step(s, e).callers && c !in s.callers
    ensures e.Fetch? && e.caller == c
  {
  }

  lemma {:induction false} FindAnswer(events: seq<Event>, n: nat, c: nat) returns (j: nat)
    requires n <= |events| && c in Run(events[..n]).callers && Run(events[..n]).callers[c].Answered?
    ensures Answers(events, j, c)
    decreases n
  {
    hide Step;
    assert n > 0 by { assert events[..0] == []; }
    if c in Run(events[..n - 1]).callers && Run(events[..n - 1]).callers[c].Answered? {
      j := FindAnswer(events, n - 1, c);
    } else {
      j := n - 1;
    }
  }

  // ---------------------------------------------------------------- logouts that were overtaken

  /** DELETE requests still on their way that no later sign-in waits for. */
  function Strays(s: State): set<nat>
  {
    s.outstanding - (if s.pendingLogout.Some? then {s.pendingLogout.value} else {})
  }

  predicate StartsLogout(s: State, e: Event)
  {
    || (e.SignOut? && e.logout !in s.outstanding)
    || (e.SwitchWallet? && e.logout !in s.outstanding && e.next != s.wallet && s.wallet.Some?)
  }

  /** A logout goes stray exactly when another one starts while it is pending. */
  lemma GoesStrayExactly(events: seq<Event>, e: Event, logout: nat)
    requires logout !in Strays(Run(events))
    ensures logout in Strays(Step(Run(events), e)) <==> StartsLogout(Run(events), e) && Run(events).pendingLogout == Some(logout)
  {
    hide Run, EnsuredState, Resumed, FlightSettled, Fetching, CallerResumed, FlightOk;
    var s := Run(events);
    RunSafe(events);
    SameLogouts(s, e);
  }

  lemma SameLogouts(s: State, e: Event)
    ensures !StartsLogout(s, e) && !e.LogoutLands? ==>
              Step(s, e).outstanding == s.outstanding && Step(s, e).pendingLogout == s.pendingLogout
  {
  }

  /** Without such overlaps, no DELETE is on its way while there is a session. */
  ghost predicate NeverOverlaps(events: seq<Event>)
  {
    forall k | 0 <= k < |events| :: StartsLogout(Run(events[..k]), events[k]) ==> Run(events[..k]).pendingLogout.None?
  }

  lemma {:induction false} NoStrays(events: seq<Event>)
    requires NeverOverlaps(events)
    ensures Strays(Run(events)) == {}
    ensures Run(events).session.Some? ==> Run(events).outstanding == {}
  {
    hide Step, StartsLogout;
    RunSafe(events);
    if events != [] {
      var n := |events| - 1;
      forall k | 0 <= k < n ensures StartsLogout(Run(events[..n][..k]), events[..n][k]) ==> Run(events[..n][..k]).pendingLogout.None? {
        assert events[..n][..k] == events[..k];
      }
      NoStrays(events[..n]);
      forall logout | logout in Strays(Run(events)) ensures false {
        GoesStrayExactly(events[..n], events[n], logout);
      }
    }
  }

  /** Two sign-outs and a sign-in: the session is set while the first DELETE is still on its way. */
  lemma StrayLogoutOutlivesSignIn()
    ensures var events := [SetWallet(Some("0xa")), SignOut(1), SignOut(2), LogoutLands(2), Ensure(0, true, 0),
                           FlightResumes(0, Reply(true, Some("0xa"), 100), 0)];
            Run(events).session == Some(Session("0xa", 100, 1)) && Run(events).outstanding == {1}
  {
    var events := [SetWallet(Some("0xa")), SignOut(1), SignOut(2), LogoutLands(2), Ensure(0, true, 0),
                   FlightResumes(0, Reply(true, Some("0xa"), 100), 0)];
    assert events[..5][..4][..3][..2][..1][..0] == [];
    assert events[..5][..4][..3][..2][..1] == events[..1];
    var s1 := Step(START, events[0]);
    assert Run(events[..1]) == s1;
    assert events[..2][..1] == events[..1];
    var s2 := Step(s1, events[1]);
    assert Run(events[..2]) == s2;
    assert events[..3][..2] == events[..2];
    var s3 := Step(s2, events[2]);
    assert Run(events[..3]) == s3;
    assert events[..4][..3] == events[..3];
    var s4 := Step(s3, events[3]);
    assert Run(events[..4]) == s4 && s4.outstanding == {1};
    assert events[..5][..4] == events[..4];
    var s5 := Step(s4, events[4]);
    assert Run(events[..5]) == s5;
  }
}
