/** What each store operation does and answers, exactly, and what the section guards restore after any mutator. */
module StoreEffects {
  import opened Text
  import opened PayRecords
  import opened Webhooks
  import opened PayStore
  import opened SettlementRuns
  import opened SettlementAnswers

  // ---------------------------------------------------------------- registration

  /** A stored request that the new one would repeat: another token, the same V2 id in any case, for the same merchant. */
  predicate Repeats(other: PayRecord, record: PayRecord, merchant: string)
  {
    && other.token != record.token && IsV2RequestId(other.id) && IsV2RequestId(record.id)
    && Same(other.id, record.id) && Same(other.to, merchant)
  }

  /** The stored rows whose token is the owner's. */
  function Owned(records: seq<PayRecord>, owns: string -> bool): set<int>
  {
    set i | 0 <= i < |records| && owns(records[i].token)
  }

  lemma {:induction false} OwnedCounts(records: seq<PayRecord>, owns: string -> bool)
    ensures OwnedBy(records, owns) == |Owned(records, owns)|
  {
    if records == [] {
      assert Owned(records, owns) == {};
    } else {
      var n := |records| - 1;
      OwnedCounts(records[..n], owns);
      assert Owned(records, owns) == Owned(records[..n], owns) + (if owns(records[n].token) then {n} else {});
    }
  }

  lemma RepeatsCollides(records: seq<PayRecord>, record: PayRecord, merchant: string)
    ensures (exists i :: 0 <= i < |records| && Collides(records[i], record, merchant)) <==>
            exists i :: 0 <= i < |records| && Repeats(records[i], record, merchant)
  {
    hide IsV2RequestId, Same;
    if i :| 0 <= i < |records| && Collides(records[i], record, merchant) { assert Repeats(records[i], record, merchant); }
    if i :| 0 <= i < |records| && Repeats(records[i], record, merchant) { assert Collides(records[i], record, merchant); }
  }

  /** A registration merges into the row of its token; else it is refused for a repeated request, then for the owner's limit; else it is created. */
  lemma {:induction false} CreatesExactly(records: seq<PayRecord>, record: PayRecord, merchant: string, owns: string -> bool, limit: nat)
    requires Keyed(records)
    ensures var r := CreateOn(records, record, merchant, owns, limit);
            var stored := exists k :: IsRow(records, k, record.token);
            var repeated := exists i :: 0 <= i < |records| && Repeats(records[i], record, merchant);
            && (r.Merged? <==> stored)
            && (forall k | IsRow(records, k, record.token) :: r == Merged(Merge(Some(records[k]), record)))
            && (r == Duplicate <==> !stored && repeated)
            && (r == LimitReached <==> !stored && !repeated && |Owned(records, owns)| >= limit)
            && (r == Created(record) <==> !stored && !repeated && |Owned(records, owns)| < limit)
  {
    hide Merge, Repeats, Collides, Find, Owned;
    FoundRow(records, record.token);
    OwnedCounts(records, owns);
    RepeatsCollides(records, record, merchant);
    var k := Find(records, record.token);
    if k < |records| { assert IsRow(records, k, record.token); }
  }

  // ---------------------------------------------------------------- views, cancels and submitted hashes

  /** The command names this row: the payee of a V1 request, the id of a V2 one. */
  predicate Names(row: PayRecord, command: CancelCommand)
  {
    if command.CancelV2? then IsV2RequestId(row.id) && Same(row.id, command.requestId) else Same(row.to, command.payee)
  }

  /** Row `k` of the store is replaced and no other row or section changes. */
  predicate Replaces(s: Store, after: Store, k: nat, row: PayRecord)
    requires k < |s.records|
  {
    after == s.(records := s.records[k := row])
  }

  /**
    A view counts one more on its row. A cancel takes the row to its cancelled form exactly when the
    command names the row, and a submitted hash is taken exactly when it is 0x and 64 hexadecimal
    digits. Each changes at most its own row, and answers with that row or with nothing.
  */
  lemma {:induction false} RowOperations(s: Store, op: Op, k: nat)
    requires Keyed(s.records) && (op.View? || op.Cancel? || op.Submit?) && IsRow(s.records, k, op.token)
    ensures var row, e := s.records[k], Run(s, op);
            && e.Kept?
            && (op.View? ==>
                  var seen := row.(views := row.views + 1, lastViewedAt := Some(op.at));
                  Replaces(s, e.store, k, seen) && e.answer == Row(Some(seen)))
            && (op.Cancel? ==>
                  var next := Cancelling(row, op.command, op.cancelledAt, op.clock);
                  if Names(row, op.command) then Replaces(s, e.store, k, next) && e.answer == Row(Some(next))
                  else e == Kept(s, Row(None)))
            && (op.Submit? ==>
                  var next := Submitted(row, op.hash);
                  if IsHex(Lower(op.hash), 64) then Replaces(s, e.store, k, next) && e.answer == Row(Some(next))
                  else e == Kept(s, Row(None)))
  {
    hide Find, Cancelling, Submitted, Lower, IsHex, IsV2RequestId, Same;
    FoundRow(s.records, op.token);
    assert k == Find(s.records, op.token);
  }

  /** On a token that is not stored they do nothing and answer so. */
  lemma {:induction false} UnknownToken(s: Store, op: Op)
    requires (op.View? || op.Cancel? || op.Submit?) && forall k :: !IsRow(s.records, k, op.token)
    ensures Run(s, op) == Kept(s, Row(None))
  {
    hide Cancelling, Submitted, Lower, IsHex;
    var k := Find(s.records, op.token);
    assert !IsRow(s.records, k, op.token);
  }

  /** An upsert merges into the row of its token or appends a new one, and nothing else changes. */
  lemma {:induction false} UpsertsExactly(s: Store, op: Op)
    requires Keyed(s.records) && op.Upsert?
    ensures forall k | IsRow(s.records, k, op.record.token) ::
              var saved := Merge(Some(s.records[k]), op.record);
              Replaces(s, Next(s, op), k, saved) && Run(s, op) == Kept(Next(s, op), Saved(saved, false))
    ensures (forall k :: !IsRow(s.records, k, op.record.token)) ==>
              Run(s, op) == Kept(s.(records := s.records + [op.record]), Saved(op.record, false))
  {
    hide Find;
    FoundRow(s.records, op.record.token);
    var k := Find(s.records, op.record.token);
    if k < |s.records| { assert IsRow(s.records, k, op.record.token); }
  }

  /** What a registration stores and answers: the merged row in its place, or the new row at the end and that it is new, or only why not. */
  lemma {:induction false} CreateOperation(s: Store, op: Op)
    requires Keyed(s.records) && op.Create?
    ensures var r, e := CreateOn(s.records, op.record, op.owner, op.owns, op.limit), Run(s, op);
            && (r == Duplicate ==> e == Thrown(true) && Next(s, op) == s)
            && (r == LimitReached ==> e == Thrown(false) && Next(s, op) == s)
            && (r.Created? ==> e == Kept(s.(records := s.records + [op.record]), Saved(op.record, true)))
            && (r.Merged? ==> e.Kept? && e.answer == Saved(r.record, false)
                              && forall k | IsRow(s.records, k, op.record.token) :: Replaces(s, e.store, k, r.record))
  {
    hide Find, Collides, OwnedBy, Merge;
    FoundRow(s.records, op.record.token);
    var k := Find(s.records, op.record.token);
    if k < |s.records| { assert IsRow(s.records, k, op.record.token); }
  }

  // ---------------------------------------------------------------- the guards, after any mutator

  /** What a stored row had recorded is on the row again: its own value where the new row lacks it. */
  predicate Durable(stored: PayRecord, next: PayRecord, kept: PayRecord)
  {
    && kept.token == next.token
    && kept.paidTx == (if next.paidTx.Some? then next.paidTx else stored.paidTx)
    && (kept.paidTx.None? ==> (stored.cancelled || next.cancelled <==> kept.cancelled))
    && (stored.cancelled && !next.cancelled && kept.paidTx.None? ==>
          kept.cancelledAt == stored.cancelledAt
          && kept.cancelledAtSeconds == (if stored.cancelledAtSeconds.Some? then stored.cancelledAtSeconds else next.cancelledAtSeconds))
    && kept.lateSettlementTx == (if next.lateSettlementTx.Some? then next.lateSettlementTx else stored.lateSettlementTx)
    && (stored.paidTx.Some? && next.paidTx.None? && stored.paidBlockTimestamp.Some? && next.paidBlockTimestamp.None? ==>
          kept.paidBlockTimestamp == stored.paidBlockTimestamp)
  }

  lemma FlagsAreDurable(stored: PayRecord, next: PayRecord)
    ensures Durable(stored, next, KeepFlags(stored, next))
  {
  }

  /** One stored row's guard touches the row of its token alone. */
  lemma KeepRowExactly(stored: PayRecord, outgoing: seq<PayRecord>)
    requires Keyed(outgoing)
    ensures var after := KeepRow(stored, outgoing);
            && Keyed(after) && |outgoing| <= |after|
            && (forall k | 0 <= k < |outgoing| ::
                  after[k].token == outgoing[k].token
                  && (outgoing[k].token != stored.token ==> after[k] == outgoing[k])
                  && (outgoing[k].token == stored.token ==> after[k] == KeepFlags(stored, outgoing[k])))
            && (|after| > |outgoing| <==> (stored.paidTx.Some? || stored.cancelled) && forall k :: !IsRow(outgoing, k, stored.token))
            && (|after| > |outgoing| ==> after == outgoing + [stored])
  {
    hide KeepFlags;
    FoundRow(outgoing, stored.token);
    var k := Find(outgoing, stored.token);
    if k < |outgoing| {
      assert IsRow(outgoing, k, stored.token);
      FlagsAreDurable(stored, outgoing[k]);
      forall i | 0 <= i < |outgoing| && outgoing[i].token == stored.token ensures i == k { assert IsRow(outgoing, i, stored.token); }
    }
  }

  /** The row that was written at `k` has its marks back, and is as it was written when no stored row has its token. */
  ghost predicate RestoredAt(current: seq<PayRecord>, next: PayRecord, kept: PayRecord)
  {
    && kept.token == next.token
    && (forall i | IsRow(current, i, next.token) :: Durable(current[i], next, kept))
    && ((forall i :: !IsRow(current, i, next.token)) ==> kept == next)
  }

  ghost predicate IsStored(current: seq<PayRecord>, row: PayRecord)
  {
    exists i :: 0 <= i < |current| && current[i] == row
  }

  /** A stored row with a mark that the mutator dropped is back, after the rows it wrote. */
  ghost predicate Back(outgoing: seq<PayRecord>, after: seq<PayRecord>, stored: PayRecord)
  {
    (stored.paidTx.Some? || stored.cancelled) && (forall k :: !IsRow(outgoing, k, stored.token)) ==>
      exists k :: |outgoing| <= k < |after| && after[k] == stored
  }

  lemma RestoredStep(current: seq<PayRecord>, next: PayRecord, mid: PayRecord, kept: PayRecord)
    requires current != [] && Keyed(current)
    requires var n := |current| - 1;
             RestoredAt(current[..n], next, mid) && kept == if next.token == current[n].token then KeepFlags(current[n], mid) else mid
    ensures RestoredAt(current, next, kept)
  {
    hide KeepFlags, Durable;
    var n := |current| - 1;
    var front, stored := current[..n], current[n];
    FlagsAreDurable(stored, next);
    forall i | IsRow(current, i, next.token) ensures Durable(current[i], next, kept) {
      if i < n { assert IsRow(front, i, next.token); }
      if next.token == stored.token && IsRow(front, i, next.token) { assert false; }
    }
    if forall i :: !IsRow(current, i, next.token) {
      assert !IsRow(current, n, next.token);
      forall i ensures !IsRow(front, i, next.token) { assert !IsRow(current, i, next.token); }
    }
    if next.token == stored.token {
      forall i ensures !IsRow(front, i, next.token) {}
      assert mid == next;
    }
  }

  /**
    Whatever a mutator returns, named or not, the guard gives every row it kept its recorded marks back:
    no stored payment, cancel or late settlement is lost by clearing it or by dropping its row.
  */
  lemma {:induction false} GuardRestores(current: seq<PayRecord>, outgoing: seq<PayRecord>)
    requires Keyed(current) && Keyed(outgoing)
    ensures var after := KeepRows(current, outgoing);
            && Keyed(after) && |outgoing| <= |after|
            && (forall k | 0 <= k < |outgoing| :: RestoredAt(current, outgoing[k], after[k]))
            && (forall i | 0 <= i < |current| :: Back(outgoing, after, current[i]))
            && (forall k | |outgoing| <= k < |after| :: IsStored(current, after[k]))
    decreases |current|
  {
    hide KeepFlags, RestoredAt, Back, KeepRow, Keyed;
    if current == [] {
      forall k | 0 <= k < |outgoing| ensures RestoredAt(current, outgoing[k], outgoing[k]) { NothingStored(outgoing[k]); }
    } else {
      var n := |current| - 1;
      var front, stored := current[..n], current[n];
      var mid, after := KeepRows(front, outgoing), KeepRows(current, outgoing);
      KeyedFront(current);
      GuardRestores(front, outgoing);
      KeepRowExactly(stored, mid);
      forall k | 0 <= k < |outgoing| ensures mid[k].token == outgoing[k].token && RestoredAt(current, outgoing[k], after[k]) {
        TokenKept(front, outgoing[k], mid[k]);
        RestoredStep(current, outgoing[k], mid[k], after[k]);
      }
      forall k | |outgoing| <= k < |after| ensures IsStored(current, after[k]) && (k < |mid| ==> after[k] == mid[k]) {
        if k < |mid| {
          var i :| 0 <= i < n && front[i] == mid[k];
          OtherToken(current, i);
          assert current[i] == mid[k];
        } else {
          assert current[n] == after[k];
        }
      }
      forall i | 0 <= i < |current| ensures Back(outgoing, after, current[i]) {
        if i < n {
          assert front[i] == current[i];
          StaysBack(outgoing, mid, after, current[i]);
        } else {
          BackNow(front, outgoing, mid, after, stored, current);
        }
      }
    }
  }

  lemma NothingStored(next: PayRecord)
    ensures RestoredAt([], next, next)
  {
  }

  lemma KeyedFront(current: seq<PayRecord>)
    requires Keyed(current) && current != []
    ensures Keyed(current[..|current| - 1])
  {
  }

  lemma OtherToken(current: seq<PayRecord>, i: nat)
    requires Keyed(current) && i < |current| - 1
    ensures current[i].token != current[|current| - 1].token
  {
  }

  lemma TokenKept(current: seq<PayRecord>, next: PayRecord, kept: PayRecord)
    requires RestoredAt(current, next, kept)
    ensures kept.token == next.token
  {
  }

  lemma StaysBack(outgoing: seq<PayRecord>, mid: seq<PayRecord>, after: seq<PayRecord>, stored: PayRecord)
    requires Back(outgoing, mid, stored) && |mid| <= |after| && forall k | |outgoing| <= k < |mid| :: after[k] == mid[k]
    ensures Back(outgoing, after, stored)
  {
  }

  lemma BackNow(front: seq<PayRecord>, outgoing: seq<PayRecord>, mid: seq<PayRecord>, after: seq<PayRecord>, stored: PayRecord, current: seq<PayRecord>)
    requires Keyed(current) && current == front + [stored] && |outgoing| <= |mid| <= |after|
    requires forall k | 0 <= k < |outgoing| :: mid[k].token == outgoing[k].token
    requires forall k | |outgoing| <= k < |mid| :: IsStored(front, mid[k])
    requires |after| > |mid| <==> (stored.paidTx.Some? || stored.cancelled) && forall k :: !IsRow(mid, k, stored.token)
    requires |after| > |mid| ==> after == mid + [stored]
    ensures Back(outgoing, after, stored)
  {
    forall k | |outgoing| <= k < |mid| ensures mid[k].token != stored.token {
      var i: nat :| i < |front| && front[i] == mid[k];
      OtherToken(current, i);
      assert current[i] == mid[k];
    }
    if (stored.paidTx.Some? || stored.cancelled) && forall k :: !IsRow(outgoing, k, stored.token) {
      forall k ensures !IsRow(mid, k, stored.token) { assert !IsRow(outgoing, k, stored.token); }
      assert after[|mid|] == stored;
    }
  }

  /** And a section that a mutator leaves unset keeps what was stored; the delivery section too. */
  lemma GuardKeepsSections(current: Store, outgoing: Store)
    ensures var after := Guarded(current, outgoing);
            && after.webhooks == (if outgoing.webhooks.Some? then outgoing.webhooks else current.webhooks)
            && after.others.apiKeys == (if outgoing.others.apiKeys.Some? then outgoing.others.apiKeys else current.others.apiKeys)
            && after.others.escrows == (if outgoing.others.escrows.Some? then outgoing.others.escrows else current.others.escrows)
            && after.others.agents == (if outgoing.others.agents.Some? then outgoing.others.agents else current.others.agents)
            && after.others.policies == (if outgoing.others.policies.Some? then outgoing.others.policies else current.others.policies)
            && after.others.walletAuth == (if outgoing.others.walletAuth.Some? then outgoing.others.walletAuth else current.others.walletAuth)
  {
    hide KeepRows;
  }
}
