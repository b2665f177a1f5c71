/**
  `mutatePayStoreBlob`: many concurrent calls, each a bounded loop of read, mutate, guard and
  compare-and-set on the raw stored text. Every run is a sequence of atomic operations.
*/
module PayStoreCas {
  import opened Text
  import opened PayRecords
  import opened Webhooks
  import opened PayStore
  import opened SettlementRuns

  /**
    The stored text. `Canonical(s)` is what `JSON.stringify` gives for `s`; `Reads(n, s)` is any other
    text that parses to `s`, such as the older quoted form; `Malformed` does not parse to a store.
  */
  datatype Raw = Missing | Canonical(store: Store) | Reads(form: nat, store: Store) | Malformed(form: nat)

  const PAY_STORE_CAS_MAX_ATTEMPTS: nat := 8

  function Parsed(raw: Raw): Store
    requires !raw.Malformed?
  {
    if raw.Missing? then EMPTY_STORE else raw.store
  }

  /** A call runs its mutator once per attempt, with the clock and the fresh ids of that attempt. */
  type Call = nat -> Op

  datatype Result =
    | Answered(answer: Answer, base: Store, op: Op)
    | Threw(duplicate: bool)
    | MalformedStore
    | Unavailable
    | Exhausted

  /** `since` and `seen` are lengths of the history, `base` the text read by the current attempt. */
  datatype Client =
    | Waiting(call: Call, attempt: nat, since: nat)
    | Holding(call: Call, attempt: nat, since: nat, base: Raw, seen: nat)
    | Returned(call: Call, result: Result, since: nat)

  datatype Event =
    | Begins(c: nat, call: Call)
    | Reading(c: nat)
    | ReadFails(c: nat)
    | Commits(c: nat)
    | CommitFails(c: nat)
    | ReplyLost(c: nat)

  /** One write: who wrote, what it applied, and the stores around it. */
  datatype Write = Write(writer: nat, op: Op, before: Store, after: Store)

  datatype State = State(raw: Raw, history: seq<Raw>, writes: seq<Write>, clients: map<nat, Client>)

  function Initial(raw: Raw): State
  {
    State(raw, [raw], [], map[])
  }

  // ---------------------------------------------------------------- steps

  function With(s: State, c: nat, client: Client): State
  {
    s.(clients := s.clients[c := client])
  }

  function Begin(call: Call, attempt: nat, since: nat): Client
  {
    if attempt < PAY_STORE_CAS_MAX_ATTEMPTS then Waiting(call, attempt + 1, since) else Returned(call, Exhausted, since)
  }

  function Committing(s: State, c: nat, d: Client, reaches: bool, heard: bool): State
    requires d.Holding? && !d.base.Malformed?
  {
    var op, base := d.call(d.attempt), Parsed(d.base);
    match Run(base, op)
    case Thrown(duplicate) => With(s, c, Returned(d.call, Threw(duplicate), d.since))
    case Kept(mutated, answer) =>
      var next := Guarded(base, mutated);
      if Canonical(next) == d.base then With(s, c, Returned(d.call, Answered(answer, base, op), d.since))
      else
        var stored := reaches && s.raw == d.base;
        var after := if stored then s.(raw := Canonical(next), history := s.history + [Canonical(next)],
                                       writes := s.writes + [Write(c, op, base, next)]) else s;
        if !heard then With(after, c, Returned(d.call, Unavailable, d.since))
        else if stored then With(after, c, Returned(d.call, Answered(answer, base, op), d.since))
        else With(after, c, Begin(d.call, d.attempt, d.since))
  }

  function Step(s: State, e: Event): State
  {
    match e
    case Begins(c, call) => if c in s.clients then s else With(s, c, Begin(call, 0, |s.history|))
    case Reading(c) =>
      if c in s.clients && s.clients[c].Waiting? then
        var w := s.clients[c];
        if s.raw.Malformed? then With(s, c, Returned(w.call, MalformedStore, w.since))
        else With(s, c, Holding(w.call, w.attempt, w.since, s.raw, |s.history|))
      else s
    case ReadFails(c) =>
      if c in s.clients && s.clients[c].Waiting? then With(s, c, Returned(s.clients[c].call, Unavailable, s.clients[c].since)) else s
    case Commits(c) =>
      if c in s.clients && s.clients[c].Holding? && !s.clients[c].base.Malformed? then Committing(s, c, s.clients[c], true, true) else s
    case CommitFails(c) =>
      if c in s.clients && s.clients[c].Holding? && !s.clients[c].base.Malformed? then Committing(s, c, s.clients[c], false, false) else s
    case ReplyLost(c) =>
      if c in s.clients && s.clients[c].Holding? && !s.clients[c].base.Malformed? then Committing(s, c, s.clients[c], true, false) else s
  }

  function RunEvents(start: Raw, events: seq<Event>): State
  {
    if events == [] then Initial(start) else Step(RunEvents(start, events[..|events| - 1]), events[|events| - 1])
  }

  // ---------------------------------------------------------------- the guards do nothing

  /** A mutator's row never loses what the guards protect. */
  ghost predicate KeepsFlags(stored: PayRecord, next: PayRecord)
  {
    && (stored.paidTx.Some? ==> next.paidTx.Some?)
    && (stored.cancelled ==> next.cancelled || next.paidTx.Some?)
    && (stored.lateSettlementTx.Some? ==> next.lateSettlementTx.Some?)
  }

  ghost predicate KeepsRows(before: seq<PayRecord>, after: seq<PayRecord>)
  {
    |before| <= |after| && forall i | 0 <= i < |before| :: after[i].token == before[i].token && KeepsFlags(before[i], after[i])
  }

  lemma {:induction false} GuardIsIdentity(current: seq<PayRecord>, outgoing: seq<PayRecord>)
    requires Keyed(outgoing) && KeepsRows(current, outgoing)
    ensures KeepRows(current, outgoing) == outgoing
    decreases |current|
  {
    if current != [] {
      var n := |current| - 1;
      GuardIsIdentity(current[..n], outgoing);
      FindAt(outgoing, n);
      assert KeepFlags(current[n], outgoing[n]) == outgoing[n];
      assert outgoing[n := outgoing[n]] == outgoing;
    }
  }

  lemma QuietKeepsFlags(before: seq<PayRecord>, after: seq<PayRecord>)
    requires QuietStep(before, after)
    ensures KeepsRows(before, after)
  {
    hide RowOk, Unpaid;
    if after == before {
    } else if k, row :| 0 <= k < |before| && after == before[k := row] && Quiet(before[k], row) {
    } else {
    }
  }

  lemma TransitionKeepsFlags(s: Store, op: Op)
    requires Keyed(s.records) && Transitions(s, op)
    ensures KeepsRows(s.records, Next(s, op).records)
  {
    hide Lower, IsV2RequestId, IsSafe, SettleOn, Next, Find;
    TransitionShape(s, op);
  }

  lemma NextKeepsSections(s: Store, op: Op)
    ensures var next := Next(s, op);
            (s.webhooks.Some? ==> next.webhooks.Some?) && Overlay(next.others, s.others) == next.others
  {
    hide CreateOn, Merge, Lookup, Find, Cancelling, Submitted, Put, MayCancel, SettleOn, SettledRecords, EnqueuePaid, Apply;
  }

  /** The guards change nothing for the named mutators. */
  lemma GuardsChangeNothing(s: Store, op: Op)
    requires RowsOk(s.records) && Plain(op)
    ensures Guarded(s, Next(s, op)) == Next(s, op)
  {
    hide Next, RowOk, Clash, Plain, KeepRows, Transitions, QuietStep, KeepsRows, Overlay;
    var next := Next(s, op);
    StepKeepsRows(s, op);
    NextKeepsSections(s, op);
    if Transitions(s, op) {
      TransitionKeepsFlags(s, op);
    } else {
      StepIsQuiet(s, op);
      QuietKeepsFlags(s.records, next.records);
    }
    GuardIsIdentity(s.records, next.records);
  }

  // ---------------------------------------------------------------- the refinement invariant

  ghost predicate GoodCall(call: Call)
  {
    forall n: nat :: Plain(call(n))
  }

  ghost predicate NoWrite(writes: seq<Write>, c: nat)
  {
    forall k | 0 <= k < |writes| :: writes[k].writer != c
  }

  ghost predicate OnlyWrite(writes: seq<Write>, c: nat, k: nat)
  {
    k < |writes| && writes[k].writer == c && forall j | 0 <= j < |writes| && j != k :: writes[j].writer != c
  }

  /** Each stored text is the result of one operation on exactly the store it replaced. */
  ghost predicate Linear(s: State)
  {
    && |s.history| == |s.writes| + 1 && s.history[|s.writes|] == s.raw
    && forall k | 0 <= k < |s.writes| :: LinearAt(s.history[k], s.history[k + 1], s.writes[k])
  }

  ghost predicate LinearAt(before: Raw, after: Raw, w: Write)
  {
    && !before.Malformed? && Parsed(before) == w.before && after == Canonical(w.after)
    && Run(w.before, w.op).Kept? && w.after == Next(w.before, w.op) && Plain(w.op)
  }

  /** The answer was computed on the store this call's commit replaced, or, for a no-op, on one it read. */
  ghost predicate AnswerOk(s: State, c: nat, call: Call, answer: Answer, base: Store, op: Op, since: nat)
  {
    && (exists n: nat :: 1 <= n <= 8 && op == call(n))
    && Run(base, op).Kept? && Run(base, op).answer == answer
    && ((exists k: nat :: since <= k + 1 && OnlyWrite(s.writes, c, k) && s.writes[k].op == op && s.writes[k].before == base)
        || (NoWrite(s.writes, c) && Next(base, op) == base
            && exists k: nat :: since <= k + 1 && k < |s.history| && s.history[k] == Canonical(base)))
  }

  ghost predicate ClientOk(s: State, c: nat, client: Client)
  {
    && GoodCall(client.call) && client.since <= |s.history|
    && (!client.Returned? ==> 1 <= client.attempt <= PAY_STORE_CAS_MAX_ATTEMPTS && NoWrite(s.writes, c))
    && (client.Holding? ==>
          !client.base.Malformed? && RowsOk(Parsed(client.base).records)
          && client.since <= client.seen <= |s.history| && 0 < client.seen && s.history[client.seen - 1] == client.base)
    && (client.Returned? ==>
          match client.result
          case Answered(answer, base, op) => AnswerOk(s, c, client.call, answer, base, op, client.since)
          case Unavailable => NoWrite(s.writes, c) || exists k: nat :: OnlyWrite(s.writes, c, k)
          case _ => NoWrite(s.writes, c))
  }

  ghost predicate Consistent(s: State)
  {
    && Linear(s)
    && (!s.raw.Malformed? ==> RowsOk(Parsed(s.raw).records))
    && (forall k | 0 <= k < |s.writes| :: s.writes[k].writer in s.clients)
    && (forall c | c in s.clients :: ClientOk(s, c, s.clients[c]))
  }

  // ---------------------------------------------------------------- every step keeps it

  lemma SetClient(s: State, c: nat, client: Client)
    requires Consistent(s) && ClientOk(s, c, client)
    ensures Consistent(With(s, c, client))
  {
    hide RowsOk, LinearAt, GoodCall, AnswerOk, NoWrite, OnlyWrite;
    var after := With(s, c, client);
    forall d | d in after.clients ensures ClientOk(after, d, after.clients[d]) {
      if d != c { SameStore(s, after, d, s.clients[d]); }
      else { SameStore(s, after, d, client); }
    }
  }

  /** What a client may claim depends on the history and the writes alone. */
  lemma SameStore(s: State, t: State, c: nat, client: Client)
    requires s.history == t.history && s.writes == t.writes && ClientOk(s, c, client)
    ensures ClientOk(t, c, client)
  {
    hide RowsOk, GoodCall, NoWrite, OnlyWrite, Plain;
  }

  lemma BeginOk(s: State, c: nat, call: Call, attempt: nat, since: nat)
    requires GoodCall(call) && since <= |s.history| && NoWrite(s.writes, c)
    ensures ClientOk(s, c, Begin(call, attempt, since))
  {
    hide GoodCall, NoWrite;
  }

  lemma OtherKeeps(s: State, raw: Raw, w: Write, c: nat, client: Client)
    requires ClientOk(s, c, client) && c != w.writer
    ensures ClientOk(s.(raw := raw, history := s.history + [raw], writes := s.writes + [w]), c, client)
  {
    hide RowsOk, GoodCall, Run, Next;
    var t := s.(raw := raw, history := s.history + [raw], writes := s.writes + [w]);
    assert NoWrite(s.writes, c) ==> NoWrite(t.writes, c);
    assert forall k: nat :: OnlyWrite(s.writes, c, k) ==> OnlyWrite(t.writes, c, k) && t.writes[k] == s.writes[k];
    if client.Returned? && client.result.Answered? {
      AnswerKeeps(s, raw, w, c, client);
    }
  }

  lemma AnswerKeeps(s: State, raw: Raw, w: Write, c: nat, client: Client)
    requires client.Returned? && client.result.Answered? && c != w.writer
    requires AnswerOk(s, c, client.call, client.result.answer, client.result.base, client.result.op, client.since)
    ensures AnswerOk(s.(raw := raw, history := s.history + [raw], writes := s.writes + [w]), c, client.call,
                     client.result.answer, client.result.base, client.result.op, client.since)
  {
    hide Run, Next;
    var t := s.(raw := raw, history := s.history + [raw], writes := s.writes + [w]);
    if k: nat :| client.since <= k + 1 && OnlyWrite(s.writes, c, k) && s.writes[k].op == client.result.op && s.writes[k].before == client.result.base {
      assert OnlyWrite(t.writes, c, k);
    } else {
      var k: nat :| client.since <= k + 1 && k < |s.history| && s.history[k] == Canonical(client.result.base);
      assert t.history[k] == Canonical(client.result.base);
      assert NoWrite(t.writes, c);
    }
  }

  /** The write itself: `s` with one more stored text. */
  function Stored(s: State, w: Write): State
  {
    s.(raw := Canonical(w.after), history := s.history + [Canonical(w.after)], writes := s.writes + [w])
  }

  lemma StoredIsLinear(s: State, w: Write)
    requires Linear(s) && LinearAt(s.raw, Canonical(w.after), w)
    ensures Linear(Stored(s, w))
  {
    hide LinearAt;
    var t := Stored(s, w);
    forall k | 0 <= k < |t.writes| ensures LinearAt(t.history[k], t.history[k + 1], t.writes[k]) {
      if k < |s.writes| { assert LinearAt(s.history[k], s.history[k + 1], s.writes[k]); }
    }
  }

  lemma StoredOk(s: State, c: nat, op: Op, client: Client)
    requires Consistent(s) && c in s.clients && !s.raw.Malformed? && Plain(op) && NoWrite(s.writes, c)
    requires Run(Parsed(s.raw), op).Kept?
    requires var w := Write(c, op, Parsed(s.raw), Next(Parsed(s.raw), op)); ClientOk(Stored(s, w), c, client)
    ensures var w := Write(c, op, Parsed(s.raw), Next(Parsed(s.raw), op)); Consistent(With(Stored(s, w), c, client))
  {
    hide RowsOk, GoodCall, AnswerOk, NoWrite, OnlyWrite, Run, Next, Plain;
    var w := Write(c, op, Parsed(s.raw), Next(Parsed(s.raw), op));
    StoredIsLinear(s, w);
    StepKeepsRows(Parsed(s.raw), op);
    var t := With(Stored(s, w), c, client);
    forall d | d in t.clients ensures ClientOk(t, d, t.clients[d]) {
      if d == c {
        SameStore(Stored(s, w), t, c, client);
      } else {
        OtherKeeps(s, Canonical(w.after), w, d, s.clients[d]);
        SameStore(Stored(s, w), t, d, s.clients[d]);
      }
    }
  }

  lemma WriterOk(s: State, c: nat, d: Client, w: Write, heard: bool)
    requires ClientOk(s, c, d) && d.Holding? && Linear(s)
    requires w == Write(c, d.call(d.attempt), Parsed(d.base), Next(Parsed(d.base), d.call(d.attempt))) && Run(w.before, w.op).Kept?
    ensures ClientOk(Stored(s, w), c, Returned(d.call, if heard then Answered(Run(w.before, w.op).answer, w.before, w.op) else Unavailable, d.since))
  {
    hide RowsOk, GoodCall, Run, Next, LinearAt;
    var t := Stored(s, w);
    assert OnlyWrite(t.writes, c, |s.writes|);
  }

  lemma NoOpOk(s: State, c: nat, d: Client)
    requires ClientOk(s, c, d) && d.Holding? && Run(Parsed(d.base), d.call(d.attempt)).Kept?
    requires Canonical(Next(Parsed(d.base), d.call(d.attempt))) == d.base
    ensures ClientOk(s, c, Returned(d.call, Answered(Run(Parsed(d.base), d.call(d.attempt)).answer, Parsed(d.base), d.call(d.attempt)), d.since))
  {
    hide RowsOk, GoodCall, Run, Next, NoWrite;
    assert s.history[d.seen - 1] == Canonical(Parsed(d.base));
  }

  lemma CommittingOk(s: State, c: nat, reaches: bool, heard: bool)
    requires Consistent(s) && c in s.clients && s.clients[c].Holding? && !s.clients[c].base.Malformed?
    ensures Consistent(Committing(s, c, s.clients[c], reaches, heard))
  {
    hide RowsOk, GoodCall, AnswerOk, NoWrite, OnlyWrite, Run, Plain, Linear, Guarded;
    var d := s.clients[c];
    assert ClientOk(s, c, d);
    var op, base := d.call(d.attempt), Parsed(d.base);
    PlainAttempt(d.call, d.attempt);
    GuardsChangeNothing(base, op);
    match Run(base, op)
    case Thrown(duplicate) => SetClient(s, c, Returned(d.call, Threw(duplicate), d.since));
    case Kept(mutated, answer) =>
      if Canonical(Next(base, op)) == d.base {
        NoOpOk(s, c, d);
        SetClient(s, c, Returned(d.call, Answered(answer, base, op), d.since));
      } else if reaches && s.raw == d.base {
        WriterOk(s, c, d, Write(c, op, base, Next(base, op)), heard);
        StoredOk(s, c, op, Returned(d.call, if heard then Answered(answer, base, op) else Unavailable, d.since));
      } else if heard {
        BeginOk(s, c, d.call, d.attempt, d.since);
        SetClient(s, c, Begin(d.call, d.attempt, d.since));
      } else {
        SetClient(s, c, Returned(d.call, Unavailable, d.since));
      }
  }

  lemma PlainAttempt(call: Call, n: nat)
    requires GoodCall(call)
    ensures Plain(call(n))
  {
  }

  lemma StepOk(s: State, e: Event)
    requires Consistent(s) && (e.Begins? ==> GoodCall(e.call))
    ensures Consistent(Step(s, e))
  {
    hide RowsOk, GoodCall, AnswerOk, OnlyWrite, Linear, Committing, With;
    match e
    case Begins(c, call) =>
      if c !in s.clients {
        NoWriteYet(s, c);
        BeginOk(s, c, call, 0, |s.history|);
        SetClient(s, c, Begin(call, 0, |s.history|));
      }
    case Reading(c) => ReadingOk(s, c);
    case ReadFails(c) =>
      if c in s.clients && s.clients[c].Waiting? {
        assert ClientOk(s, c, s.clients[c]);
        SetClient(s, c, Returned(s.clients[c].call, Unavailable, s.clients[c].since));
      }
    case Commits(c) =>
      if c in s.clients && s.clients[c].Holding? && !s.clients[c].base.Malformed? { CommittingOk(s, c, true, true); }
    case CommitFails(c) =>
      if c in s.clients && s.clients[c].Holding? && !s.clients[c].base.Malformed? { CommittingOk(s, c, false, false); }
    case ReplyLost(c) =>
      if c in s.clients && s.clients[c].Holding? && !s.clients[c].base.Malformed? { CommittingOk(s, c, true, false); }
  }

  lemma NoWriteYet(s: State, c: nat)
    requires Consistent(s) && c !in s.clients
    ensures NoWrite(s.writes, c)
  {
    hide ClientOk, Linear, RowsOk;
  }

  lemma ReadingOk(s: State, c: nat)
    requires Consistent(s)
    ensures Consistent(Step(s, Reading(c)))
  {
    hide RowsOk, GoodCall, AnswerOk, OnlyWrite, NoWrite, LinearAt;
    if c in s.clients && s.clients[c].Waiting? {
      var w := s.clients[c];
      assert ClientOk(s, c, w);
      if s.raw.Malformed? {
        SetClient(s, c, Returned(w.call, MalformedStore, w.since));
      } else {
        SetClient(s, c, Holding(w.call, w.attempt, w.since, s.raw, |s.history|));
      }
    }
  }

  ghost predicate GoodEvents(events: seq<Event>)
  {
    forall e | e in events && e.Begins? :: GoodCall(e.call)
  }

  ghost predicate GoodStart(start: Raw)
  {
    !start.Malformed? ==> RowsOk(Parsed(start).records)
  }

  lemma {:induction false} RunOk(start: Raw, events: seq<Event>)
    requires GoodStart(start) && GoodEvents(events)
    ensures Consistent(RunEvents(start, events)) && RunEvents(start, events).history[0] == start
  {
    hide GoodCall, ClientOk, RowsOk;
    if events == [] {
    } else {
      var n := |events| - 1;
      RunOk(start, events[..n]);
      assert events[n] in events;
      StepOk(RunEvents(start, events[..n]), events[n]);
      HistoryGrows(RunEvents(start, events[..n]), events[n]);
    }
  }

  lemma HistoryGrows(s: State, e: Event)
    requires Consistent(s)
    ensures |Step(s, e).history| > 0 && Step(s, e).history[0] == s.history[0]
  {
    hide Run, Guarded, ClientOk, RowsOk, LinearAt;
  }

  // ---------------------------------------------------------------- what a run guarantees

  function Ops(writes: seq<Write>): seq<Op>
  {
    seq(|writes|, i requires 0 <= i < |writes| => writes[i].op)
  }

  /** Each write replaced the store it was computed on: read, mutate and commit are one atomic step. */
  lemma {:induction false} WritesAreAtomic(start: Raw, events: seq<Event>, k: nat)
    requires GoodStart(start) && GoodEvents(events) && k < |RunEvents(start, events).writes|
    ensures var s := RunEvents(start, events); var w := s.writes[k];
            && |s.history| == |s.writes| + 1 && s.history[|s.writes|] == s.raw
            && !s.history[k].Malformed? && w.before == Parsed(s.history[k])
            && s.history[k + 1] == Canonical(w.after) && w.after == Next(w.before, w.op)
  {
    hide RunEvents, ClientOk, RowsOk, Next, Run;
    RunOk(start, events);
    var s := RunEvents(start, events);
    assert LinearAt(s.history[k], s.history[k + 1], s.writes[k]);
  }

  /** A call that answers computed its answer on the store its one commit replaced, or read and left unchanged. */
  lemma {:induction false} AnswersAreAtomic(start: Raw, events: seq<Event>, c: nat)
    requires GoodStart(start) && GoodEvents(events) && c in RunEvents(start, events).clients
    ensures var s := RunEvents(start, events); var client := s.clients[c];
            && (client.Returned? && client.result.Answered? ==>
                  AnswerOk(s, c, client.call, client.result.answer, client.result.base, client.result.op, client.since))
            && (client.Returned? && (client.result.Exhausted? || client.result.Threw? || client.result.MalformedStore?) ==>
                  NoWrite(s.writes, c))
  {
    hide RunEvents, AnswerOk, NoWrite, OnlyWrite, Linear, RowsOk;
    RunOk(start, events);
    var s := RunEvents(start, events);
    assert ClientOk(s, c, s.clients[c]);
  }

  /** A store that does not parse is never overwritten. */
  lemma {:induction false} MalformedIsKept(start: Raw, events: seq<Event>)
    requires start.Malformed? && GoodEvents(events)
    ensures RunEvents(start, events).raw == start && RunEvents(start, events).writes == []
  {
    hide RunEvents, ClientOk, RowsOk, Next, Run;
    RunOk(start, events);
    var s := RunEvents(start, events);
    if s.writes != [] {
      FirstWriteParses(s);
    }
  }

  lemma FirstWriteParses(s: State)
    requires Linear(s) && s.writes != []
    ensures !s.history[0].Malformed?
  {
    assert LinearAt(s.history[0], s.history[1], s.writes[0]);
  }

  /** Whatever the interleaving, the stored rows keep the settlement invariant. */
  lemma {:induction false} ConcurrentSettlementsAreUnique(start: Raw, events: seq<Event>)
    requires GoodStart(start) && GoodEvents(events) && !RunEvents(start, events).raw.Malformed?
    ensures RowsOk(Parsed(RunEvents(start, events).raw).records)
  {
    hide RunEvents, RowsOk, ClientOk, Linear;
    RunOk(start, events);
  }

  /** From an empty key, the stored store is the atomic run of the written operations, in commit order. */
  lemma {:induction false} StoreIsAtomicRun(events: seq<Event>, k: nat)
    requires GoodEvents(events) && k <= |RunEvents(Missing, events).writes|
    ensures var s := RunEvents(Missing, events);
            k < |s.history| && !s.history[k].Malformed? && Parsed(s.history[k]) == At(Ops(s.writes), k) && AllPlain(Ops(s.writes))
    decreases k
  {
    hide RunEvents, ClientOk, Next, Run, Plain;
    RunOk(Missing, events);
    var s := RunEvents(Missing, events);
    forall i | 0 <= i < |s.writes| ensures Plain(Ops(s.writes)[i]) {
      assert LinearAt(s.history[i], s.history[i + 1], s.writes[i]);
    }
    if k > 0 {
      StoreIsAtomicRun(events, k - 1);
      assert LinearAt(s.history[k - 1], s.history[k], s.writes[k - 1]);
    }
  }
}
