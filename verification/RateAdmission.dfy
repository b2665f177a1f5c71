/** Which requests the limiter admits, exactly, said from the admitted requests alone. */
module RateAdmission {
  import opened Text
  import opened RateLimit
  import opened RateLimitRuns

  /** Where a slot's latest window began: at an admitted request that no window before it covers. */
  function WindowStart(log: seq<Request>, slot: Slot, w: nat): Option<int>
  {
    if log == [] then None
    else
      var r, earlier := log[|log| - 1], WindowStart(log[..|log| - 1], slot, w);
      if !Matches(r, slot) then earlier
      else if earlier.Some? && r.now < earlier.value + w then earlier
      else Some(r.now)
  }

  /** The slot's latest window is over, or has admitted fewer than the limit. */
  predicate Spare(log: seq<Request>, slot: Slot, limit: nat, w: nat, now: int)
  {
    var start := WindowStart(log, slot, w);
    start.None? || start.value + w <= now || Since(log, slot, start.value) < limit
  }

  /** The last bucket a slot got began with the slot's latest window. */
  ghost predicate StartsAt(s: State, slot: Slot, w: nat)
  {
    (slot in s.last <==> WindowStart(s.log, slot, w).Some?) && (slot in s.last ==> Some(s.last[slot].start) == WindowStart(s.log, slot, w))
  }

  ghost predicate Tracked(rules: Rules, s: State)
  {
    forall slot: Slot | slot.route in rules.rule :: StartsAt(s, slot, Window(rules, slot))
  }

  /** A slot has room in the buckets that are looked at exactly when its window has. */
  lemma FullExactly(rules: Rules, s: State, r: Request, slot: Slot)
    requires Proper(rules) && Kept(rules, s) && s.clock <= r.now && r.route in rules.rule && slot in {Global(r.route), Key(r.route, r.key)}
    requires StartsAt(s, slot, Window(rules, slot))
    ensures Full(Looked(rules, s.buckets, s.calls, r), slot, Limit(rules, slot)) <==>
              !Spare(s.log, slot, Limit(rules, slot), Window(rules, slot), r.now)
    ensures slot in Looked(rules, s.buckets, s.calls, r) <==> slot in s.last && r.now < s.last[slot].start + Window(rules, slot)
  {
    hide Looked, Bounded, WindowStart, Since, NotAhead;
    assert SlotOk(rules, s, slot);
    LookedFacts(rules, s.buckets, s.calls, r, slot);
  }

  lemma LogSnoc(log: seq<Request>, r: Request, slot: Slot, w: nat)
    ensures WindowStart(log + [r], slot, w) ==
              if !Matches(r, slot) then WindowStart(log, slot, w)
              else if WindowStart(log, slot, w).Some? && r.now < WindowStart(log, slot, w).value + w then WindowStart(log, slot, w)
              else Some(r.now)
  {
    assert (log + [r])[..|log|] == log;
  }

  lemma SlotTracked(rules: Rules, s: State, r: Request, slot: Slot)
    requires Proper(rules) && Kept(rules, s) && s.clock <= r.now && slot.route in rules.rule && StartsAt(s, slot, Window(rules, slot))
    ensures StartsAt(Next(rules, s, r), slot, Window(rules, slot))
  {
    hide Looked, Kept, Proper, WindowStart, Full;
    if Allow(rules, s.buckets, s.calls, r).allowed {
      LogSnoc(s.log, r, slot, Window(rules, slot));
      if slot in {Global(r.route), Key(r.route, r.key)} {
        FullExactly(rules, s, r, slot);
      } else {
        assert !Matches(r, slot);
      }
    }
  }

  lemma {:induction false} RunTracked(rules: Rules, requests: seq<Request>, n: nat)
    requires Proper(rules) && Ordered(requests) && n <= |requests|
    ensures Tracked(rules, At(rules, requests, n))
    decreases n
  {
    hide Next, Kept, StartsAt, Proper;
    if n == 0 {
      forall slot: Slot | slot.route in rules.rule ensures StartsAt(At(rules, requests, 0), slot, Window(rules, slot)) {
        NothingTracked(At(rules, requests, 0), slot, Window(rules, slot));
      }
    } else {
      RunTracked(rules, requests, n - 1);
      RunKeeps(rules, requests, n - 1);
      forall slot: Slot | slot.route in rules.rule ensures StartsAt(At(rules, requests, n), slot, Window(rules, slot)) {
        SlotTracked(rules, At(rules, requests, n - 1), requests[n - 1], slot);
      }
    }
  }

  lemma NothingTracked(s: State, slot: Slot, w: nat)
    requires s.last == map[] && s.log == []
    ensures StartsAt(s, slot, w)
  {
  }

  /**
    Over every run with a clock that does not go back, a request is admitted if and only if its class
    is known and both the class and the key have room in their latest windows; and the log grows by
    it exactly then.
  */
  lemma {:induction false} AdmitsExactly(rules: Rules, requests: seq<Request>, n: nat)
    requires Proper(rules) && Ordered(requests) && n < |requests|
    ensures var s, r := At(rules, requests, n), requests[n];
            var admitted := r.route in rules.rule
                            && Spare(s.log, Global(r.route), rules.rule[r.route].global, rules.rule[r.route].windowSeconds, r.now)
                            && Spare(s.log, Key(r.route, r.key), rules.rule[r.route].perKey, rules.rule[r.route].windowSeconds, r.now);
            && (Allow(rules, s.buckets, s.calls, r).allowed <==> admitted)
            && At(rules, requests, n + 1).log == if admitted then s.log + [r] else s.log
  {
    hide Looked, Kept, Spare, Full, Proper;
    var s, r := At(rules, requests, n), requests[n];
    RunKeeps(rules, requests, n);
    RunTracked(rules, requests, n);
    if r.route in rules.rule {
      FullExactly(rules, s, r, Global(r.route));
      FullExactly(rules, s, r, Key(r.route, r.key));
    }
  }
}
