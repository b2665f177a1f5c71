/**
  The spend cap over every run. The rows of the ledger that still weigh on the window, RESERVED
  ones at any age and CONSUMED ones since the window opened, never sum to more than the cap.
*/
module CapSafety {
  import opened Text
  import opened PolicyLedger
  import opened LedgerRuns

  /** One policy's cap and window, and what each verified intent was really worth and when. */
  datatype World = World(cap: nat, window: nat, settled: map<string, SpendFact>)

  function HoldShare(row: Row, t: int, window: nat): nat
  {
    if row.status == Reserved then row.amount
    else if row.status == Consumed && row.consumedAt.Some? && t - window < row.consumedAt.value then row.amount
    else 0
  }

  function HoldTotal(doc: Doc, t: int, window: nat): nat
  {
    if doc == [] then 0 else HoldTotal(doc[..|doc| - 1], t, window) + HoldShare(doc[|doc| - 1], t, window)
  }

  // ---------------------------------------------------------------- hypotheses on the calls

  ghost predicate FactAgrees(w: World, fact: SpendFact, intents: Intents)
  {
    var id := Lower(fact.id);
    && id in w.settled && w.settled[id].amount == fact.amount && w.settled[id].verifiedAt == fact.verifiedAt
    && id in intents && intents[id].status == Verified && intents[id].verifiedAt == Some(fact.verifiedAt)
  }

  ghost predicate IntentAgrees(w: World, id: string, fact: IntentFact)
  {
    fact.status == Verified && fact.verifiedAt.Some? ==> id in w.settled && w.settled[id].verifiedAt == fact.verifiedAt.value
  }

  ghost predicate AmountAgrees(w: World, row: Row)
  {
    row.id in w.settled ==> w.settled[row.id].amount == row.amount
  }

  /**
    What a call is given is true but may be old: `verified` and `intents` come from one read of the
    intents, any subset of the facts, and the policy with this cap is among the policies it checks.
  */
  ghost predicate Admissible(w: World, call: Call)
  {
    match call
    case Reserve(args, _) =>
      && Canonical(call) && AmountAgrees(w, args.reservation)
      && Policy(Some(w.cap), Some(w.window)) in args.policies
      && (forall fact | fact in args.verified :: FactAgrees(w, fact, args.intents))
      && (forall id | id in args.intents :: IntentAgrees(w, id, args.intents[id]))
    case Move(id, next, _) =>
      next.ToConsumed? ==> id in w.settled && w.settled[id].verifiedAt == next.consumedAt
  }

  ghost predicate NoneAhead(doc: Doc, now: int)
  {
    forall i | 0 <= i < |doc| && doc[i].status == Consumed && doc[i].consumedAt.Some? :: doc[i].consumedAt.value <= now
  }

  /** The call that is about to write does not lag behind a `consumedAt` it evaluates. */
  ghost predicate Clocked(s: State, e: Event)
  {
    (e.Commits? || e.ReplyLost?) && e.c in s.clients && s.clients[e.c].Deciding? && s.clients[e.c].call.Reserve? ==>
      var args := s.clients[e.c].call.args;
      NoneAhead(Recovered(s.clients[e.c].snapshot, args.intents, args.now), args.now)
  }

  ghost predicate GoodRun(w: World, events: seq<Event>)
  {
    forall k | 0 <= k < |events| ::
      (events[k].Begins? ==> Admissible(w, events[k].call)) && Clocked(Run(events[..k]), events[k])
  }

  ghost predicate RowAgrees(w: World, row: Row)
  {
    && Lower(row.id) == row.id
    && AmountAgrees(w, row)
    && (row.status == Consumed ==> row.id in w.settled && row.consumedAt == Some(w.settled[row.id].verifiedAt))
  }

  ghost predicate DocAgrees(w: World, doc: Doc)
  {
    Keyed(doc) && forall i | 0 <= i < |doc| :: RowAgrees(w, doc[i])
  }

  // ---------------------------------------------------------------- the sums

  /** The map names, for every fact in the list, what it was worth and when. */
  ghost predicate FactsAre(settled: map<string, SpendFact>, verified: seq<SpendFact>)
  {
    forall fact | fact in verified ::
      var id := Lower(fact.id);
      id in settled && settled[id].amount == fact.amount && settled[id].verifiedAt == fact.verifiedAt
  }

  /** Leaving one more id out of the verified sum drops exactly that id's fact. */
  lemma {:induction false} VerifiedDrop(settled: map<string, SpendFact>, verified: seq<SpendFact>, counted: set<string>, id: string, now: int, window: nat)
    requires FactsAre(settled, verified)
    ensures id in VerifiedIds(verified) ==> id in settled
    ensures VerifiedTotal(verified, counted, now, window)
            == VerifiedTotal(verified, counted + {id}, now, window)
               + (if id in VerifiedIds(verified) && id !in counted then FactShare(settled[id], now, window) else 0)
    decreases |verified|
  {
    hide Lower;
    if verified != [] {
      var head, rest := verified[0], verified[1..];
      var hid := Lower(head.id);
      assert head in verified;
      assert VerifiedIds(verified) == {hid} + VerifiedIds(rest);
      if id in counted {
        assert counted + {id} == counted;
      } else if hid == id {
        assert counted + {id} + {id} == counted + {id};
      } else if hid in counted {
        VerifiedDrop(settled, rest, counted, id, now, window);
      } else {
        VerifiedDrop(settled, rest, counted + {hid}, id, now, window);
        assert counted + {hid} + {id} == counted + {id} + {hid};
      }
    }
  }

  /** The ids of rows that are RESERVED or CONSUMED. */
  function ActiveIds(doc: Doc): set<string>
  {
    set i | 0 <= i < |doc| && doc[i].status != Released :: doc[i].id
  }

  /** What weighs on the window: the held and spent rows, and the verified spends that no such row stands for. */
  function Weight(doc: Doc, verified: seq<SpendFact>, now: int, window: nat): nat
  {
    HoldTotal(doc, now, window) + VerifiedTotal(verified, ActiveIds(doc), now, window)
  }

  /** A reserved row whose intent is verified does not survive recovery, so it is never dropped from the sum. */
  ghost predicate NoneReserved(doc: Doc, ids: set<string>)
  {
    forall i | 0 <= i < |doc| :: doc[i].status == Reserved ==> doc[i].id !in ids
  }

  /** A CONSUMED row that is also among the facts is the same payment there. */
  predicate RowMatches(settled: map<string, SpendFact>, row: Row, ids: set<string>)
  {
    row.status == Consumed && row.id in ids ==>
      row.id in settled && settled[row.id].amount == row.amount && row.consumedAt == Some(settled[row.id].verifiedAt)
  }

  /** Facts that agree with each other and with the rows, and leave no RESERVED row verified. */
  ghost predicate FactsFit(settled: map<string, SpendFact>, doc: Doc, verified: seq<SpendFact>)
  {
    && FactsAre(settled, verified) && NoneReserved(doc, VerifiedIds(verified))
    && forall i | 0 <= i < |doc| :: RowMatches(settled, doc[i], VerifiedIds(verified))
  }

  lemma ShareIsExact(settled: map<string, SpendFact>, row: Row, ids: set<string>, now: int, window: nat)
    requires Lower(row.id) == row.id && RowMatches(settled, row, ids) && (row.status == Reserved ==> row.id !in ids)
    requires row.status == Consumed && row.consumedAt.Some? ==> row.consumedAt.value <= now
    requires row.id in ids ==> row.id in settled
    ensures row.status != Released ==>
              HoldShare(row, now, window) ==
              RowShare(row, ids, now, window) + (if row.id in ids then FactShare(settled[row.id], now, window) else 0)
    ensures row.status == Released ==> HoldShare(row, now, window) == RowShare(row, ids, now, window) == 0
  {
  }

  /** With fitting facts and no row ahead of the clock, the committed sum is the weight: nothing is left out or counted twice. */
  lemma {:induction false} CommittedIsWeight(settled: map<string, SpendFact>, doc: Doc, verified: seq<SpendFact>, now: int, window: nat)
    requires Keyed(doc) && NoneAhead(doc, now) && FactsFit(settled, doc, verified)
    ensures Committed(doc, verified, now, window) == Weight(doc, verified, now, window)
    decreases |doc|
  {
    hide Lower, VerifiedTotal, HoldShare, RowShare, FactShare, FactsAre, RowMatches;
    if doc == [] {
      assert ActiveIds(doc) == {};
    } else {
      var n := |doc| - 1;
      var front, row := doc[..n], doc[n];
      CommittedIsWeight(settled, front, verified, now, window);
      VerifiedDrop(settled, verified, ActiveIds(front), row.id, now, window);
      ShareIsExact(settled, row, VerifiedIds(verified), now, window);
      if row.status == Released {
        assert ActiveIds(doc) == ActiveIds(front);
      } else {
        assert ActiveIds(doc) == ActiveIds(front) + {row.id};
        assert row.id !in ActiveIds(front);
      }
    }
  }

  lemma {:induction false} HoldPointwise(before: Doc, after: Doc, t: int, u: int, window: nat)
    requires |before| == |after|
    requires forall i | 0 <= i < |before| :: HoldShare(after[i], u, window) <= HoldShare(before[i], t, window)
    ensures HoldTotal(after, u, window) <= HoldTotal(before, t, window)
  {
    hide HoldShare;
    if before != [] {
      HoldPointwise(before[..|before| - 1], after[..|after| - 1], t, u, window);
    }
  }

  /** Recovery and transitions never raise the weight, and neither does time. */
  lemma SettlingLowers(before: Doc, after: Doc, t: int, u: int, window: nat)
    requires AllSettle(before, after) && t <= u
    ensures HoldTotal(after, u, window) <= HoldTotal(before, t, window)
  {
    HoldPointwise(before, after, t, u, window);
  }

  lemma {:induction false} HoldUpdate(doc: Doc, k: nat, row: Row, t: int, window: nat)
    requires k < |doc|
    ensures HoldTotal(doc[k := row], t, window) + HoldShare(doc[k], t, window) == HoldTotal(doc, t, window) + HoldShare(row, t, window)
    decreases |doc|
  {
    hide HoldShare;
    var n := |doc| - 1;
    if k == n {
      assert doc[k := row][..n] == doc[..n];
    } else {
      HoldUpdate(doc[..n], k, row, t, window);
      assert doc[k := row][..n] == doc[..n][k := row];
    }
  }

  lemma HoldPut(doc: Doc, row: Row, t: int, window: nat)
    requires row.status == Reserved && Inactive(doc, row.id)
    ensures HoldTotal(Put(doc, row), t, window) == HoldTotal(doc, t, window) + row.amount
  {
    hide Find;
    var k := Find(doc, row.id);
    if k < |doc| {
      HoldUpdate(doc, k, row, t, window);
    } else {
      assert (doc + [row])[..|doc|] == doc;
    }
  }

  // ---------------------------------------------------------------- one decision

  lemma RecoveredAgrees(w: World, doc: Doc, call: Call)
    requires DocAgrees(w, doc) && call.Reserve? && Admissible(w, call)
    ensures var d := Recovered(doc, call.args.intents, call.args.now);
            DocAgrees(w, d) && NoneReserved(d, VerifiedIds(call.args.verified))
  {
    hide Lower, Keyed;
    KeyedRecovered(doc, call.args.intents, call.args.now);
    var args := call.args;
    var d := Recovered(doc, args.intents, args.now);
    forall i | 0 <= i < |doc| ensures RowAgrees(w, d[i]) && (d[i].status == Reserved ==> d[i].id !in VerifiedIds(args.verified)) {
      assert RowAgrees(w, doc[i]);
      RowRecovers(w, doc[i], call);
    }
  }

  lemma RowRecovers(w: World, row: Row, call: Call)
    requires RowAgrees(w, row) && call.Reserve? && Admissible(w, call)
    ensures var r := RecoverRow(row, call.args.intents, call.args.now);
            RowAgrees(w, r) && (r.status == Reserved ==> r.id !in VerifiedIds(call.args.verified))
  {
    hide Lower;
    var args := call.args;
    if row.id in args.intents {
      assert IntentAgrees(w, row.id, args.intents[row.id]);
    }
    if row.id in VerifiedIds(args.verified) {
      var fact :| fact in args.verified && Lower(fact.id) == row.id;
      assert FactAgrees(w, fact, args.intents);
    }
  }

  lemma PutAgrees(w: World, doc: Doc, row: Row)
    requires DocAgrees(w, doc) && RowAgrees(w, row) && row.status == Reserved && Inactive(doc, row.id)
    ensures DocAgrees(w, Put(doc, row))
  {
    hide Find, Lower;
    PutEvolves(doc, row);
  }

  lemma FactsOfWorldFit(w: World, doc: Doc, verified: seq<SpendFact>, intents: Intents)
    requires DocAgrees(w, doc) && NoneReserved(doc, VerifiedIds(verified))
    requires forall fact | fact in verified :: FactAgrees(w, fact, intents)
    ensures FactsFit(w.settled, doc, verified) && Keyed(doc)
  {
    hide Lower;
    forall i | 0 <= i < |doc| ensures RowMatches(w.settled, doc[i], VerifiedIds(verified)) {
      assert RowAgrees(w, doc[i]);
    }
    forall fact | fact in verified ensures Lower(fact.id) in w.settled { assert FactAgrees(w, fact, intents); }
  }

  /** A reservation that the decision accepts fits under the cap at its own clock. */
  lemma WriteFits(w: World, call: Call, snapshot: Doc)
    requires call.Reserve? && Admissible(w, call) && DocAgrees(w, snapshot)
    requires NoneAhead(Recovered(snapshot, call.args.intents, call.args.now), call.args.now)
    requires ReserveDecision(snapshot, call.args).Write?
    ensures HoldTotal(Recovered(snapshot, call.args.intents, call.args.now), call.args.now, w.window)
            + call.args.reservation.amount <= w.cap
  {
    hide Lower, Recovered, Find, Put, HoldTotal, Committed, DocAgrees, NoneAhead, Keyed;
    var args := call.args;
    var doc := Recovered(snapshot, args.intents, args.now);
    RecoveredAgrees(w, snapshot, call);
    FactsOfWorldFit(w, doc, args.verified, args.intents);
    CommittedIsWeight(w.settled, doc, args.verified, args.now, w.window);
    var policy := Policy(Some(w.cap), Some(w.window));
    var i :| 0 <= i < |args.policies| && args.policies[i] == policy;
    assert !Exceeds(args.policies[i], doc, args);
  }

  lemma MoveAgrees(w: World, call: Call, snapshot: Doc)
    requires call.Move? && Admissible(w, call) && DocAgrees(w, snapshot) && Decide(call, snapshot).Propose?
    ensures DocAgrees(w, Decide(call, snapshot).doc)
  {
    hide Find, Lower;
  }

  /** What any decision proposes agrees with the facts. */
  lemma DecisionAgrees(w: World, call: Call, snapshot: Doc)
    requires Admissible(w, call) && Canonical(call) && DocAgrees(w, snapshot) && Decide(call, snapshot).Propose?
    ensures DocAgrees(w, Decide(call, snapshot).doc)
  {
    hide Lower, Find, Put, DocAgrees, Recovered, Exceeds;
    if call.Move? {
      MoveAgrees(w, call, snapshot);
    } else {
      RecoveredAgrees(w, snapshot, call);
      DocKeyed(w, snapshot);
      DecideProposes(call, snapshot);
      if ReserveDecision(snapshot, call.args).Write? {
        PutAgrees(w, Decide(call, snapshot).mid, call.args.reservation);
      }
    }
  }

  lemma DocKeyed(w: World, doc: Doc)
    requires DocAgrees(w, doc)
    ensures Keyed(doc)
  {
  }

  /** The weight of what a decision proposes, for every later clock. */
  lemma DecisionHolds(w: World, call: Call, snapshot: Doc, lastNow: int, t: int)
    requires Admissible(w, call) && Canonical(call) && DocAgrees(w, snapshot) && Decide(call, snapshot).Propose?
    requires call.Reserve? ==> NoneAhead(Recovered(snapshot, call.args.intents, call.args.now), call.args.now)
    requires forall u | lastNow <= u :: HoldTotal(snapshot, u, w.window) <= w.cap
    requires (if call.Reserve? && Decide(call, snapshot).outcome == GotReserved then call.args.now else lastNow) <= t
    ensures HoldTotal(Decide(call, snapshot).doc, t, w.window) <= w.cap
  {
    hide Lower, Find, Put, DocAgrees, Recovered, ReserveDecision, TransitionDecision, HoldTotal, NoneAhead, AllSettle, Admissible, Keyed, Inactive;
    var e := Decide(call, snapshot);
    DocKeyed(w, snapshot);
    DecideProposes(call, snapshot);
    if call.Reserve? && e.outcome == GotReserved {
      WriteFits(w, call, snapshot);
      SettlesItself(e.mid);
      SettlingLowers(e.mid, e.mid, call.args.now, t, w.window);
      HoldPut(e.mid, call.args.reservation, t, w.window);
    } else {
      SettlingLowers(snapshot, e.mid, t, t, w.window);
    }
  }

  lemma SettlesItself(doc: Doc)
    ensures AllSettle(doc, doc)
  {
  }

  // ---------------------------------------------------------------- every run

  ghost predicate CapOk(w: World, s: State)
  {
    && DocAgrees(w, s.ledger)
    && (forall c | c in s.clients :: Admissible(w, s.clients[c].call) && Canonical(s.clients[c].call))
    && (forall t | s.lastNow <= t :: HoldTotal(s.ledger, t, w.window) <= w.cap)
  }

  lemma StepCapOk(w: World, s: State, e: Event)
    requires CapOk(w, s) && Clocked(s, e) && (e.Begins? ==> Admissible(w, e.call) && Canonical(e.call))
    ensures CapOk(w, Step(s, e))
  {
    hide DocAgrees, HoldTotal, Decide, Admissible, Canonical, NoneAhead, Recovered, Freed, NewHold, Failure;
    if (e.Commits? || e.ReplyLost?) && e.c in s.clients && s.clients[e.c].Deciding? {
      var d := s.clients[e.c];
      if s.ledger == d.snapshot && Decide(d.call, d.snapshot).Propose? {
        DecisionAgrees(w, d.call, d.snapshot);
        forall t | Step(s, e).lastNow <= t ensures HoldTotal(Step(s, e).ledger, t, w.window) <= w.cap {
          DecisionHolds(w, d.call, d.snapshot, s.lastNow, t);
        }
      }
    }
  }

  lemma CallCanonical(w: World, call: Call)
    requires Admissible(w, call)
    ensures Canonical(call)
  {
  }

  lemma {:induction false} RunCapOk(w: World, events: seq<Event>)
    requires GoodRun(w, events)
    ensures CapOk(w, Run(events))
  {
    hide Step, Admissible, Clocked, Canonical;
    if events == [] {
      assert CapOk(w, EMPTY);
    } else {
      var n := |events| - 1;
      forall k | 0 <= k < n
        ensures (events[..n][k].Begins? ==> Admissible(w, events[..n][k].call)) && Clocked(Run(events[..n][..k]), events[..n][k])
      {
        assert events[..n][..k] == events[..k];
      }
      RunCapOk(w, events[..n]);
      if events[n].Begins? { CallCanonical(w, events[n].call); }
      StepCapOk(w, Run(events[..n]), events[n]);
    }
  }

  /**
    Cap safety. After any run, at any clock not before the last reservation that was written, the
    RESERVED rows and the CONSUMED rows since the window opened sum to at most the cap.
  */
  lemma {:induction false} CapIsNeverExceeded(w: World, events: seq<Event>, t: int)
    requires GoodRun(w, events) && Run(events).lastNow <= t
    ensures HoldTotal(Run(events).ledger, t, w.window) <= w.cap
    ensures Committed(Run(events).ledger, [], t, w.window) <= w.cap
  {
    hide Run, GoodRun, HoldTotal, RowsTotal, DocAgrees;
    RunCapOk(w, events);
    RowsBelowHold(Run(events).ledger, t, w.window);
  }

  lemma {:induction false} RowsBelowHold(doc: Doc, t: int, window: nat)
    ensures RowsTotal(doc, {}, t, window) <= HoldTotal(doc, t, window)
    ensures Committed(doc, [], t, window) == RowsTotal(doc, {}, t, window)
  {
    assert VerifiedIds([]) == {};
    if doc != [] {
      RowsBelowHold(doc[..|doc| - 1], t, window);
    }
  }

  // ---------------------------------------------------------------- why the clock hypothesis is needed

  /** With these facts, a request that passes the check under this cap fits under it. */
  predicate CheckIsSound(doc: Doc, verified: seq<SpendFact>, now: int, window: nat, cap: nat, amount: nat)
  {
    amount > 0 && Committed(doc, verified, now, window) + amount <= cap ==> HoldTotal(doc, now, window) + amount <= cap
  }

  ghost predicate AlwaysSound(doc: Doc, now: int, window: nat)
  {
    forall settled, verified, cap: nat, amount: nat ::
      FactsFit(settled, doc, verified) ==> CheckIsSound(doc, verified, now, window, cap, amount)
  }

  /**
    The cap check is sound for every list of fitting facts, every cap and every amount exactly when
    no CONSUMED row is ahead of the clock.
  */
  lemma {:induction false} CheckIsSoundExactly(doc: Doc, now: int, window: nat)
    requires Keyed(doc) && forall i | 0 <= i < |doc| :: doc[i].amount > 0
    ensures AlwaysSound(doc, now, window) <==> NoneAhead(doc, now)
  {
    hide Committed, HoldTotal, NoneAhead, FactsFit, Keyed;
    if NoneAhead(doc, now) {
      forall settled, verified, cap: nat, amount: nat | FactsFit(settled, doc, verified)
        ensures CheckIsSound(doc, verified, now, window, cap, amount)
      {
        CommittedIsWeight(settled, doc, verified, now, window);
      }
    } else {
      HoldExceedsExactly(doc, now, window);
      NoFactsFit(doc);
      assert !CheckIsSound(doc, [], now, window, Committed(doc, [], now, window) + 1, 1);
    }
  }

  lemma NoFactsFit(doc: Doc)
    ensures FactsFit(map[], doc, [])
  {
  }

  /** Facts that name a RESERVED row do not fit: the row drops out of the sum. Recovery leaves no such row. */
  lemma ReservedVerifiedIsDropped()
    ensures var held := Row("0xa", 60, 0, 900, Reserved, None, None, None);
            && NoneAhead([held], 500) && Committed([held], [SpendFact("0xa", 60, 0)], 500, 100) == 0 && HoldTotal([held], 500, 100) == 60
            && !FactsFit(map["0xa" := SpendFact("0xa", 60, 0)], [held], [SpendFact("0xa", 60, 0)])
  {
    var held, fact := Row("0xa", 60, 0, 900, Reserved, None, None, None), SpendFact("0xa", 60, 0);
    assert Lower("0xa") == "0xa";
    assert fact in [fact] && [held][0] == held && [held][..0] == [];
    assert "0xa" in VerifiedIds([fact]);
  }

  lemma {:induction false} HoldExceedsExactly(doc: Doc, now: int, window: nat)
    requires forall i | 0 <= i < |doc| :: doc[i].amount > 0
    ensures Committed(doc, [], now, window) <= HoldTotal(doc, now, window)
    ensures Committed(doc, [], now, window) == HoldTotal(doc, now, window) <==> NoneAhead(doc, now)
  {
    RowsBelowHold(doc, now, window);
    if doc != [] {
      var n := |doc| - 1;
      HoldExceedsExactly(doc[..n], now, window);
      RowsBelowHold(doc[..n], now, window);
      NoneAheadSplits(doc, now);
    }
  }

  lemma NoneAheadSplits(doc: Doc, now: int)
    requires doc != []
    ensures var n := |doc| - 1; NoneAhead(doc, now) <==> NoneAhead(doc[..n], now) && NoneAhead([doc[n]], now)
  {
    var n := |doc| - 1;
    assert forall i | 0 <= i < n :: doc[..n][i] == doc[i];
    if NoneAhead(doc[..n], now) && NoneAhead([doc[n]], now) {
      assert [doc[n]][0] == doc[n];
      forall i | 0 <= i < |doc| && doc[i].status == Consumed && doc[i].consumedAt.Some? ensures doc[i].consumedAt.value <= now {
        if i < n { assert doc[..n][i] == doc[i]; }
      }
    }
  }

  /** 60 consumed at 100, cap 100 over 100 seconds; a call whose clock says 50 still reserves 60 more. */
  lemma {:induction false} SkewedClockOvershoots()
    ensures var spent := Row("0xa", 60, 0, 900, Consumed, Some(100), None, None);
            var wanted := Row("0xb", 60, 50, 950, Reserved, None, None, None);
            var args := ReserveArgs(wanted, [Policy(Some(100), Some(100))], [], map[], 50);
            ReserveDecision([spent], args) == Write([spent, wanted]) && HoldTotal([spent, wanted], 50, 100) == 120
  {
    var spent := Row("0xa", 60, 0, 900, Consumed, Some(100), None, None);
    var wanted := Row("0xb", 60, 50, 950, Reserved, None, None, None);
    var args := ReserveArgs(wanted, [Policy(Some(100), Some(100))], [], map[], 50);
    assert Recovered([spent], map[], 50) == [spent];
    assert "0xa" != "0xb" by { assert "0xa"[2] != "0xb"[2]; }
    assert Find([spent], "0xb") == 1;
    assert [spent][..0] == [] && VerifiedIds([]) == {};
    assert RowsTotal([spent], {}, 50, 100) == 0;
    assert Put([spent], wanted) == [spent, wanted];
    assert [spent, wanted][..1] == [spent];
  }
}
