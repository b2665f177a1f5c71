/** The process-local fixed-window limiter, src/lib/publicRateLimit.ts. */
module RateLimit {
  datatype Rule = Rule(perKey: nat, global: nat, windowSeconds: nat)

  /** The rules by route class; `order` lists the classes. */
  datatype Rules = Rules(order: seq<string>, rule: map<string, Rule>)

  datatype Slot = Global(route: string) | Key(route: string, key: string)

  datatype Bucket = Bucket(start: int, count: nat)

  type Buckets = map<Slot, Bucket>

  /** `order` lists each class once, and every class allows something and has a window. */
  ghost predicate Proper(rules: Rules)
  {
    && (forall i, j | 0 <= i < j < |rules.order| :: rules.order[i] != rules.order[j])
    && (forall c :: c in rules.order <==> c in rules.rule)
    && (forall c | c in rules.rule :: rules.rule[c].perKey > 0 && rules.rule[c].global > 0 && rules.rule[c].windowSeconds > 0)
  }

  /** The longest window of the first `n` classes. */
  function Longest(rules: Rules, n: nat): (w: nat)
    requires n <= |rules.order|
    ensures forall i | 0 <= i < n && rules.order[i] in rules.rule :: rules.rule[rules.order[i]].windowSeconds <= w
  {
    if n == 0 then 0
    else
      var rest := Longest(rules, n - 1);
      var c := rules.order[n - 1];
      if c in rules.rule && rules.rule[c].windowSeconds > rest then rules.rule[c].windowSeconds else rest
  }

  /** It is the window of some class, and no class has a longer one. */
  lemma {:induction false} LongestIsMax(rules: Rules, n: nat)
    requires Proper(rules) && 0 < n <= |rules.order|
    ensures exists i :: 0 <= i < n && rules.rule[rules.order[i]].windowSeconds == Longest(rules, n)
    ensures forall i | 0 <= i < n :: rules.rule[rules.order[i]].windowSeconds <= Longest(rules, n)
  {
    assert rules.order[n - 1] in rules.order;
    if n > 1 { LongestIsMax(rules, n - 1); }
  }

  // ---------------------------------------------------------------- one call, on the buckets

  function Swept(b: Buckets, now: int, longest: nat): Buckets
  {
    map slot | slot in b && now - b[slot].start < longest :: b[slot]
  }

  /** `live`: an expired bucket is dropped. */
  function Fresh(b: Buckets, slot: Slot, now: int, window: nat): Buckets
  {
    if slot in b && now - b[slot].start >= window then b - {slot} else b
  }

  function Counted(b: Buckets, slot: Slot, now: int): Buckets
  {
    b[slot := if slot in b then Bucket(b[slot].start, b[slot].count + 1) else Bucket(now, 1)]
  }

  datatype Request = Request(route: string, key: string, now: int)

  datatype Outcome = Outcome(buckets: Buckets, calls: nat, allowed: bool)

  predicate Full(b: Buckets, slot: Slot, limit: nat)
  {
    slot in b && b[slot].count >= limit
  }

  /** The buckets the decision looks at: swept every 256th call, then without the two slots' expired buckets. */
  function Looked(rules: Rules, b: Buckets, calls: nat, r: Request): Buckets
    requires r.route in rules.rule
  {
    var rule := rules.rule[r.route];
    var swept := if (calls + 1) % 256 == 0 then Swept(b, r.now, Longest(rules, |rules.order|)) else b;
    Fresh(Fresh(swept, Global(r.route), r.now, rule.windowSeconds), Key(r.route, r.key), r.now, rule.windowSeconds)
  }

  function Allow(rules: Rules, b: Buckets, calls: nat, r: Request): Outcome
  {
    if r.route !in rules.rule then Outcome(b, calls, false)
    else
      var rule := rules.rule[r.route];
      var looked := Looked(rules, b, calls, r);
      if Full(looked, Key(r.route, r.key), rule.perKey) || Full(looked, Global(r.route), rule.global)
      then Outcome(looked, calls + 1, false)
      else Outcome(Counted(Counted(looked, Global(r.route), r.now), Key(r.route, r.key), r.now), calls + 1, true)
  }

  class FixedWindowLimiter {
    const rules: Rules
    var buckets: Buckets
    var calls: nat

    constructor (rules: Rules)
      ensures this.rules == rules && buckets == map[] && calls == 0
    {
      this.rules := rules;
      buckets, calls := map[], 0;
    }

    method AllowCall(routeClass: string, key: string, now: int) returns (allowed: bool)
      modifies this
      ensures Outcome(buckets, calls, allowed) == Allow(rules, old(buckets), old(calls), Request(routeClass, key, now))
    {
      if routeClass !in rules.rule { return false; }
      var rule := rules.rule[routeClass];
      calls := calls + 1;
      if calls % 256 == 0 { Sweep(now); }
      var globalSlot, keySlot := Global(routeClass), Key(routeClass, key);
      var global := Live(globalSlot, now, rule.windowSeconds);
      var perKey := Live(keySlot, now, rule.windowSeconds);
      if perKey && buckets[keySlot].count >= rule.perKey { return false; }
      if global && buckets[globalSlot].count >= rule.global { return false; }
      if global {
        buckets := buckets[globalSlot := Bucket(buckets[globalSlot].start, buckets[globalSlot].count + 1)];
      } else {
        buckets := buckets[globalSlot := Bucket(now, 1)];
      }
      if perKey {
        buckets := buckets[keySlot := Bucket(buckets[keySlot].start, buckets[keySlot].count + 1)];
      } else {
        buckets := buckets[keySlot := Bucket(now, 1)];
      }
      return true;
    }

    /** `live`. */
    method Live(slot: Slot, now: int, windowSeconds: nat) returns (found: bool)
      modifies `buckets
      ensures buckets == Fresh(old(buckets), slot, now, windowSeconds)
      ensures found <==> slot in buckets
    {
      if slot !in buckets { return false; }
      if now - buckets[slot].start >= windowSeconds {
        buckets := buckets - {slot};
        return false;
      }
      return true;
    }

    /** `sweep`. */
    method Sweep(now: int)
      modifies `buckets
      ensures buckets == Swept(old(buckets), now, Longest(rules, |rules.order|))
    {
      var longest := 0;
      for i := 0 to |rules.order|
        invariant longest == Longest(rules, i)
        invariant buckets == old(buckets)
      {
        var c := rules.order[i];
        if c in rules.rule && rules.rule[c].windowSeconds > longest { longest := rules.rule[c].windowSeconds; }
      }
      var rest := buckets.Keys;
      while rest != {}
        invariant rest <= old(buckets).Keys
        invariant forall slot :: slot in buckets <==> slot in old(buckets) && (slot in rest || now - old(buckets)[slot].start < longest)
        invariant forall slot | slot in buckets :: buckets[slot] == old(buckets)[slot]
        decreases rest
      {
        var slot :| slot in rest;
        if now - buckets[slot].start >= longest { buckets := buckets - {slot}; }
        rest := rest - {slot};
      }
    }
  }
}

/** Runs of the limiter: how much it admits in any stretch of time, and how much it remembers. */
module RateLimitRuns {
  import opened Arithmetic
  import opened RateLimit

  /** A slot's bucket in the map, the last bucket it ever got, and the one before that. */
  datatype Track = Track(live: bool, last: Bucket, before: Bucket)

  /** `log` holds the admitted requests; `last` and `before` remember buckets the map may have dropped. */
  datatype State = State(buckets: Buckets, calls: nat, log: seq<Request>, last: Buckets, before: Buckets, clock: int)

  predicate Matches(r: Request, slot: Slot)
  {
    match slot
    case Global(route) => r.route == route
    case Key(route, key) => r.route == route && r.key == key
  }

  /** How many admitted requests of a slot came at or after `a`. */
  function Since(log: seq<Request>, slot: Slot, a: int): nat
  {
    if log == [] then 0
    else
      var r := log[|log| - 1];
      Since(log[..|log| - 1], slot, a) + (if Matches(r, slot) && r.now >= a then 1 else 0)
  }

  /** How many came in [a, b). */
  function Between(log: seq<Request>, slot: Slot, a: int, b: int): int
  {
    Since(log, slot, a) - Since(log, slot, b)
  }

  function Remembered(last: Buckets, before: Buckets, looked: Buckets, slot: Slot, now: int): (Buckets, Buckets)
  {
    (Counted(if slot in looked then last else last - {slot}, slot, now),
     if slot in looked || slot !in last then before else before[slot := last[slot]])
  }

  function Next(rules: Rules, s: State, r: Request): State
  {
    var o := Allow(rules, s.buckets, s.calls, r);
    if !o.allowed then s.(buckets := o.buckets, calls := o.calls, clock := r.now)
    else
      var looked := Looked(rules, s.buckets, s.calls, r);
      var g := Remembered(s.last, s.before, looked, Global(r.route), r.now);
      var k := Remembered(g.0, g.1, looked, Key(r.route, r.key), r.now);
      State(o.buckets, o.calls, s.log + [r], k.0, k.1, r.now)
  }

  function At(rules: Rules, requests: seq<Request>, n: nat): State
    requires n <= |requests|
  {
    if n == 0 then State(map[], 0, [], map[], map[], if requests == [] then 0 else requests[0].now)
    else Next(rules, At(rules, requests, n - 1), requests[n - 1])
  }

  ghost predicate Ordered(requests: seq<Request>)
  {
    forall i, j | 0 <= i < j < |requests| :: requests[i].now <= requests[j].now
  }

  function Limit(rules: Rules, slot: Slot): nat
    requires slot.route in rules.rule
  {
    if slot.Global? then rules.rule[slot.route].global else rules.rule[slot.route].perKey
  }

  // ---------------------------------------------------------------- one slot

  /** The books of one slot: each bucket is within its limit, and a new one starts a window after the last. */
  ghost predicate Books(s: State, slot: Slot, limit: nat, w: nat)
  {
    && (slot in s.buckets ==> slot in s.last && s.buckets[slot] == s.last[slot])
    && (slot in s.last && slot !in s.buckets ==> s.last[slot].start + w <= s.clock)
    && (slot in s.last ==>
          && s.last[slot].count <= limit && s.last[slot].start <= s.clock
          && Since(s.log, slot, s.last[slot].start) == s.last[slot].count && Since(s.log, slot, s.last[slot].start + w) == 0)
    && (slot in s.before ==>
          && slot in s.last && s.before[slot].count <= limit && s.before[slot].start + w <= s.last[slot].start
          && Since(s.log, slot, s.before[slot].start) == s.before[slot].count + s.last[slot].count)
    && (slot !in s.last ==> forall a :: Since(s.log, slot, a) == 0)
    && (slot in s.last && slot !in s.before ==> forall a :: Since(s.log, slot, a) <= s.last[slot].count)
  }

  ghost predicate Bounded(log: seq<Request>, slot: Slot, limit: nat, w: nat)
  {
    forall a :: BoundedAt(log, slot, limit, w, a)
  }

  ghost predicate BoundedAt(log: seq<Request>, slot: Slot, limit: nat, w: nat, a: int)
  {
    Between(log, slot, a, a + w) <= 2 * limit
  }

  ghost predicate NotAhead(log: seq<Request>, clock: int)
  {
    forall k | 0 <= k < |log| :: log[k].now <= clock
  }

  lemma {:induction false} SinceFalls(log: seq<Request>, slot: Slot, a: int, b: int)
    requires a <= b
    ensures Since(log, slot, b) <= Since(log, slot, a)
  {
    if log != [] { SinceFalls(log[..|log| - 1], slot, a, b); }
  }

  lemma {:induction false} NoneAfter(log: seq<Request>, slot: Slot, clock: int, b: int)
    requires NotAhead(log, clock) && clock < b
    ensures Since(log, slot, b) == 0
  {
    if log != [] { NoneAfter(log[..|log| - 1], slot, clock, b); }
  }

  lemma SinceSnoc(log: seq<Request>, r: Request, slot: Slot, a: int)
    ensures Since(log + [r], slot, a) == Since(log, slot, a) + (if Matches(r, slot) && r.now >= a then 1 else 0)
  {
    assert (log + [r])[..|log|] == log;
  }

  /** Any window-long stretch that is still open reaches back into the last two buckets only. */
  lemma OpenStretch(s: State, slot: Slot, limit: nat, w: nat, a: int)
    requires Books(s, slot, limit, w) && slot in s.last && s.last[slot].start - w < a
    ensures Since(s.log, slot, a) <= 2 * limit
  {
    if slot in s.before { SinceFalls(s.log, slot, s.before[slot].start, a); }
  }

  /** One slot counts an admitted request. */
  lemma SlotCounts(s: State, t: State, r: Request, slot: Slot, limit: nat, w: nat)
    requires Books(s, slot, limit, w) && Bounded(s.log, slot, limit, w) && NotAhead(s.log, s.clock)
    requires Matches(r, slot) && s.clock <= r.now && w > 0
    requires t.log == s.log + [r] && t.clock == r.now && slot in t.buckets && slot in t.last && t.buckets[slot] == t.last[slot]
    requires slot in s.buckets && r.now - s.buckets[slot].start < w ==>
      && s.buckets[slot].count < limit && t.last[slot] == Bucket(s.last[slot].start, s.last[slot].count + 1)
      && (slot in t.before <==> slot in s.before) && (slot in s.before ==> t.before[slot] == s.before[slot])
    requires !(slot in s.buckets && r.now - s.buckets[slot].start < w) ==>
      && limit > 0 && t.last[slot] == Bucket(r.now, 1)
      && (slot in t.before <==> slot in s.last || slot in s.before) && (slot in s.last ==> slot in t.before && t.before[slot] == s.last[slot])
    ensures Books(t, slot, limit, w) && Bounded(t.log, slot, limit, w)
  {
    hide Since, Matches;
    forall a ensures Since(t.log, slot, a) == Since(s.log, slot, a) + (if r.now >= a then 1 else 0) {
      SinceSnoc(s.log, r, slot, a);
    }
    NewestOnly(s, slot, r.now);
    if !(slot in s.buckets && r.now - s.buckets[slot].start < w) && slot in s.last {
      SinceFalls(s.log, slot, s.last[slot].start + w, r.now);
    }
    assert Books(t, slot, limit, w);
    forall a ensures BoundedAt(t.log, slot, limit, w, a) {
      if r.now < a || a + w <= r.now {
        assert BoundedAt(s.log, slot, limit, w, a);
      } else {
        OpenStretch(t, slot, limit, w, a);
      }
    }
  }

  /** Nothing was admitted after the clock, so a bucket that starts now counts from zero. */
  lemma NewestOnly(s: State, slot: Slot, now: int)
    requires NotAhead(s.log, s.clock) && s.clock <= now
    ensures forall b | now < b :: Since(s.log, slot, b) == 0
  {
    forall b | now < b ensures Since(s.log, slot, b) == 0 {
      NoneAfter(s.log, slot, s.clock, b);
    }
  }

  // ---------------------------------------------------------------- every slot, every step

  function Window(rules: Rules, slot: Slot): nat
    requires slot.route in rules.rule
  {
    rules.rule[slot.route].windowSeconds
  }

  ghost predicate SlotOk(rules: Rules, s: State, slot: Slot)
    requires slot.route in rules.rule
  {
    Books(s, slot, Limit(rules, slot), Window(rules, slot)) && Bounded(s.log, slot, Limit(rules, slot), Window(rules, slot))
  }

  ghost predicate Kept(rules: Rules, s: State)
  {
    && NotAhead(s.log, s.clock)
    && (forall slot: Slot | slot.route in rules.rule :: SlotOk(rules, s, slot))
    && (forall slot | slot in s.buckets :: slot.route in rules.rule)
  }

  lemma LongestCovers(rules: Rules, c: string)
    requires Proper(rules) && c in rules.rule
    ensures rules.rule[c].windowSeconds <= Longest(rules, |rules.order|)
  {
    var i :| 0 <= i < |rules.order| && rules.order[i] == c;
  }

  /** What a call drops has expired, and what it leaves of its own two slots has not. */
  lemma LookedFacts(rules: Rules, b: Buckets, calls: nat, r: Request, slot: Slot)
    requires Proper(rules) && r.route in rules.rule && slot.route in rules.rule
    ensures var looked := Looked(rules, b, calls, r);
            && (slot in looked ==> slot in b && looked[slot] == b[slot])
            && (slot in b && slot !in looked ==> r.now - b[slot].start >= Window(rules, slot))
            && (slot in looked && slot in {Global(r.route), Key(r.route, r.key)} ==> r.now - b[slot].start < Window(rules, slot))
  {
    LongestCovers(rules, slot.route);
    LongestCovers(rules, r.route);
  }

  /** A slot the admitted request does not count in, or any slot when the call is denied. */
  lemma SlotKept(s: State, t: State, slot: Slot, limit: nat, w: nat)
    requires Books(s, slot, limit, w) && Bounded(s.log, slot, limit, w) && s.clock <= t.clock
    requires t.log == s.log || exists r :: !Matches(r, slot) && t.log == s.log + [r]
    requires slot in t.buckets ==> slot in s.buckets && t.buckets[slot] == s.buckets[slot]
    requires slot in s.buckets && slot !in t.buckets ==> t.clock - s.buckets[slot].start >= w
    requires (slot in t.last <==> slot in s.last) && (slot in s.last ==> t.last[slot] == s.last[slot])
    requires (slot in t.before <==> slot in s.before) && (slot in s.before ==> t.before[slot] == s.before[slot])
    ensures Books(t, slot, limit, w) && Bounded(t.log, slot, limit, w)
  {
    hide Since, Matches;
    SameSince(s, t, slot);
    forall a ensures BoundedAt(t.log, slot, limit, w, a) {
      assert BoundedAt(s.log, slot, limit, w, a);
    }
  }

  lemma SameSince(s: State, t: State, slot: Slot)
    requires t.log == s.log || exists r :: !Matches(r, slot) && t.log == s.log + [r]
    ensures forall a :: Since(t.log, slot, a) == Since(s.log, slot, a)
  {
    hide Since, Matches;
    forall a ensures Since(t.log, slot, a) == Since(s.log, slot, a) {
      if t.log != s.log {
        var r :| !Matches(r, slot) && t.log == s.log + [r];
        SinceSnoc(s.log, r, slot, a);
      }
    }
  }

  lemma DeniedKeeps(rules: Rules, s: State, r: Request, slot: Slot)
    requires Proper(rules) && Kept(rules, s) && s.clock <= r.now && slot.route in rules.rule
    requires !Allow(rules, s.buckets, s.calls, r).allowed
    ensures SlotOk(rules, Next(rules, s, r), slot)
  {
    hide Looked, Books, Bounded, Full, NotAhead;
    assert SlotOk(rules, s, slot);
    if r.route in rules.rule { LookedFacts(rules, s.buckets, s.calls, r, slot); }
    SlotKept(s, Next(rules, s, r), slot, Limit(rules, slot), Window(rules, slot));
  }

  lemma AllowedKeeps(rules: Rules, s: State, r: Request, slot: Slot)
    requires Proper(rules) && Kept(rules, s) && s.clock <= r.now && slot.route in rules.rule
    requires Allow(rules, s.buckets, s.calls, r).allowed
    ensures SlotOk(rules, Next(rules, s, r), slot)
  {
    hide Looked, Books, Bounded, NotAhead;
    assert SlotOk(rules, s, slot);
    LookedFacts(rules, s.buckets, s.calls, r, slot);
    var t := Next(rules, s, r);
    if slot in {Global(r.route), Key(r.route, r.key)} {
      LastIsLive(s, slot, Limit(rules, slot), Window(rules, slot));
      SlotCounts(s, t, r, slot, Limit(rules, slot), Window(rules, slot));
    } else {
      assert !Matches(r, slot);
      SlotKept(s, t, slot, Limit(rules, slot), Window(rules, slot));
    }
  }

  lemma LastIsLive(s: State, slot: Slot, limit: nat, w: nat)
    requires Books(s, slot, limit, w)
    ensures slot in s.buckets ==> slot in s.last && s.buckets[slot] == s.last[slot]
  {
  }

  lemma StepKeeps(rules: Rules, s: State, r: Request)
    requires Proper(rules) && Kept(rules, s) && s.clock <= r.now
    ensures Kept(rules, Next(rules, s, r))
  {
    hide SlotOk, Looked, Full;
    var t := Next(rules, s, r);
    forall slot: Slot | slot.route in rules.rule ensures SlotOk(rules, t, slot) {
      if Allow(rules, s.buckets, s.calls, r).allowed {
        AllowedKeeps(rules, s, r, slot);
      } else {
        DeniedKeeps(rules, s, r, slot);
      }
    }
    if r.route in rules.rule { LookedIsOld(rules, s.buckets, s.calls, r); }
  }

  lemma LookedIsOld(rules: Rules, b: Buckets, calls: nat, r: Request)
    requires r.route in rules.rule
    ensures forall slot | slot in Looked(rules, b, calls, r) :: slot in b
  {
  }

  lemma {:induction false} RunKeeps(rules: Rules, requests: seq<Request>, n: nat)
    requires Proper(rules) && Ordered(requests) && n <= |requests|
    ensures Kept(rules, At(rules, requests, n))
    ensures At(rules, requests, n).clock <= if n < |requests| then requests[n].now else At(rules, requests, n).clock
    decreases n
  {
    hide Next;
    if n == 0 {
      StartKept(rules, requests);
    } else {
      RunKeeps(rules, requests, n - 1);
      StepKeeps(rules, At(rules, requests, n - 1), requests[n - 1]);
      ClockMoves(rules, At(rules, requests, n - 1), requests[n - 1]);
    }
  }

  lemma ClockMoves(rules: Rules, s: State, r: Request)
    ensures Next(rules, s, r).clock == r.now
  {
  }

  lemma StartKept(rules: Rules, requests: seq<Request>)
    requires Proper(rules)
    ensures Kept(rules, At(rules, requests, 0))
  {
    var s := At(rules, requests, 0);
    forall slot: Slot | slot.route in rules.rule ensures SlotOk(rules, s, slot) {
      forall a ensures BoundedAt(s.log, slot, Limit(rules, slot), Window(rules, slot), a) {}
    }
  }

  // ---------------------------------------------------------------- the bounds

  /** Any stretch of one window admits at most twice the limit, of one key and of the whole class. */
  lemma {:induction false} AdmitsAtMostTwice(rules: Rules, requests: seq<Request>, route: string, key: string, a: int)
    requires Proper(rules) && Ordered(requests) && route in rules.rule
    ensures var log := At(rules, requests, |requests|).log; var rule := rules.rule[route];
            && Between(log, Global(route), a, a + rule.windowSeconds) <= 2 * rule.global
            && Between(log, Key(route, key), a, a + rule.windowSeconds) <= 2 * rule.perKey
  {
    hide At, Books, Between;
    RunKeeps(rules, requests, |requests|);
    var s := At(rules, requests, |requests|);
    assert SlotOk(rules, s, Global(route)) && SlotOk(rules, s, Key(route, key));
    assert BoundedAt(s.log, Global(route), rules.rule[route].global, rules.rule[route].windowSeconds, a);
    assert BoundedAt(s.log, Key(route, key), rules.rule[route].perKey, rules.rule[route].windowSeconds, a);
  }

  /** The keys of a class that have an admitted request in [a, b). */
  function KeysIn(log: seq<Request>, route: string, a: int, b: int): set<string>
  {
    set k | 0 <= k < |log| && log[k].route == route && a <= log[k].now < b :: log[k].key
  }

  lemma {:induction false} FewKeys(log: seq<Request>, route: string, a: int, b: int)
    requires a <= b
    ensures |KeysIn(log, route, a, b)| <= Between(log, Global(route), a, b)
  {
    if log != [] {
      var front, r := log[..|log| - 1], log[|log| - 1];
      FewKeys(front, route, a, b);
      var extra := if r.route == route && a <= r.now < b then {r.key} else {};
      assert KeysIn(log, route, a, b) == KeysIn(front, route, a, b) + extra;
    }
  }

  /** The per-key buckets of a class whose window has not run out. */
  function LiveKeys(rules: Rules, s: State, route: string): set<Slot>
    requires route in rules.rule
  {
    set slot | slot in s.buckets && slot.Key? && slot.route == route && s.clock - s.buckets[slot].start < rules.rule[route].windowSeconds
  }

  /** Per-key buckets younger than `age`, and the keys of recent requests they stand for. */
  function YoungKeys(s: State, route: string, age: nat): set<Slot>
  {
    set slot | slot in s.buckets && slot.Key? && slot.route == route && s.clock - s.buckets[slot].start < age
  }

  lemma {:induction false} FoundIn(log: seq<Request>, slot: Slot, a: int)
    requires Since(log, slot, a) > 0
    ensures exists k :: 0 <= k < |log| && Matches(log[k], slot) && log[k].now >= a
  {
    var n := |log| - 1;
    if Matches(log[n], slot) && log[n].now >= a {
    } else {
      FoundIn(log[..n], slot, a);
      var k :| 0 <= k < n && Matches(log[..n][k], slot) && log[..n][k].now >= a;
      assert log[k] == log[..n][k];
    }
  }

  ghost predicate Counting(s: State)
  {
    forall slot | slot in s.buckets :: s.buckets[slot].count > 0
  }

  lemma YoungKeysFew(rules: Rules, s: State, route: string, age: nat)
    requires Kept(rules, s) && Counting(s) && route in rules.rule
    ensures |YoungKeys(s, route, age)| <= Between(s.log, Global(route), s.clock - age + 1, s.clock + 1) || age == 0
  {
    hide Since, Bounded;
    if age > 0 {
      var young, keys := YoungKeys(s, route, age), KeysIn(s.log, route, s.clock - age + 1, s.clock + 1);
      forall slot | slot in young ensures slot.key in keys && slot == Key(route, slot.key) {
        assert SlotOk(rules, s, slot);
        FoundIn(s.log, slot, s.buckets[slot].start);
      }
      KeyCount(young, keys, route);
      FewKeys(s.log, route, s.clock - age + 1, s.clock + 1);
    }
  }

  lemma {:induction false} KeyCount(slots: set<Slot>, keys: set<string>, route: string)
    requires forall slot | slot in slots :: slot.Key? && slot.key in keys && slot == Key(route, slot.key)
    ensures |slots| <= |keys|
    decreases |slots|
  {
    if slots != {} {
      var slot :| slot in slots;
      KeyCount(slots - {slot}, keys - {slot.key}, route);
    }
  }

  lemma {:induction false} CountingStays(rules: Rules, requests: seq<Request>, n: nat)
    requires n <= |requests|
    ensures Counting(At(rules, requests, n))
    decreases n
  {
    if n > 0 {
      CountingStays(rules, requests, n - 1);
      StepCounts(rules, At(rules, requests, n - 1), requests[n - 1]);
    }
  }

  lemma StepCounts(rules: Rules, s: State, r: Request)
    requires Counting(s)
    ensures Counting(Next(rules, s, r))
  {
    hide Full;
  }

  /** However many keys arrive, a class never holds more than twice its global limit of live per-key buckets. */
  lemma LiveKeysBounded(rules: Rules, requests: seq<Request>, n: nat, route: string)
    requires Proper(rules) && Ordered(requests) && n <= |requests| && route in rules.rule
    ensures |LiveKeys(rules, At(rules, requests, n), route)| <= 2 * rules.rule[route].global
  {
    hide At, Books, Between, Counting;
    var s, rule := At(rules, requests, n), rules.rule[route];
    RunKeeps(rules, requests, n);
    CountingStays(rules, requests, n);
    YoungKeysFew(rules, s, route, rule.windowSeconds);
    assert YoungKeys(s, route, rule.windowSeconds) == LiveKeys(rules, s, route);
    assert SlotOk(rules, s, Global(route));
    assert BoundedAt(s.log, Global(route), rule.global, rule.windowSeconds, s.clock - rule.windowSeconds + 1);
  }

  // ---------------------------------------------------------------- the size of the map

  lemma {:induction false} ManyWindows(log: seq<Request>, slot: Slot, limit: nat, w: nat, n: nat, b: int)
    requires Bounded(log, slot, limit, w)
    ensures Between(log, slot, b - n * w, b) <= 2 * limit * n
    decreases n
  {
    hide Since;
    if n > 0 {
      ManyWindows(log, slot, limit, w, n - 1, b);
      assert BoundedAt(log, slot, limit, w, b - n * w);
      assert b - n * w + w == b - (n - 1) * w;
    } else {
      assert b - n * w == b;
    }
  }

  /** How many windows of a class cover the longest window. */
  function Windows(rules: Rules, route: string): nat
    requires Proper(rules) && route in rules.rule
  {
    Longest(rules, |rules.order|) / rules.rule[route].windowSeconds + 1
  }

  /** What the first `n` classes may keep after a sweep. */
  function SweptBound(rules: Rules, n: nat): nat
    requires Proper(rules) && n <= |rules.order|
  {
    if n == 0 then 0
    else SweptBound(rules, n - 1) + 2 * rules.rule[rules.order[n - 1]].global * Windows(rules, rules.order[n - 1]) + 1
  }

  lemma OldKeysFew(rules: Rules, s: State, route: string)
    requires Proper(rules) && Kept(rules, s) && Counting(s) && route in rules.rule
    ensures |YoungKeys(s, route, Longest(rules, |rules.order|))| <= 2 * rules.rule[route].global * Windows(rules, route)
  {
    hide Since, Books, Counting, YoungKeys;
    var age, rule, n := Longest(rules, |rules.order|), rules.rule[route], Windows(rules, route);
    YoungKeysFew(rules, s, route, age);
    assert SlotOk(rules, s, Global(route));
    ManyWindows(s.log, Global(route), rule.global, rule.windowSeconds, n, s.clock + 1);
    Covers(age, rule.windowSeconds);
    SinceFalls(s.log, Global(route), s.clock + 1 - n * rule.windowSeconds, s.clock - age + 1);
    LongestCovers(rules, route);
  }

  lemma Covers(age: nat, w: nat)
    requires w > 0
    ensures age <= (age / w + 1) * w
  {
  }

  function SlotsOf(b: Buckets, routes: seq<string>): set<Slot>
  {
    set slot | slot in b && slot.route in routes
  }

  lemma SweptBoundStep(rules: Rules, n: nat)
    requires Proper(rules) && 0 < n <= |rules.order|
    ensures rules.order[n - 1] in rules.rule
    ensures SweptBound(rules, n) == SweptBound(rules, n - 1) + 2 * rules.rule[rules.order[n - 1]].global * Windows(rules, rules.order[n - 1]) + 1
  {
  }

  lemma NoSlots(b: Buckets)
    ensures SlotsOf(b, []) == {}
  {
  }

  lemma {:induction false} SweptFew(rules: Rules, s: State, n: nat)
    requires Proper(rules) && Kept(rules, s) && Counting(s) && n <= |rules.order|
    ensures |SlotsOf(Swept(s.buckets, s.clock, Longest(rules, |rules.order|)), rules.order[..n])| <= SweptBound(rules, n)
    decreases n
  {
    hide *;
    var swept := Swept(s.buckets, s.clock, Longest(rules, |rules.order|));
    if n == 0 {
      assert rules.order[..0] == [];
      NoSlots(swept);
    } else {
      SweptFew(rules, s, n - 1);
      var route := rules.order[n - 1];
      SweptBoundStep(rules, n);
      OldKeysFew(rules, s, route);
      SplitSlots(swept, s, rules.order[..n - 1], route, Longest(rules, |rules.order|));
      assert rules.order[..n] == rules.order[..n - 1] + [route];
    }
  }

  lemma SplitSlots(swept: Buckets, s: State, routes: seq<string>, route: string, longest: nat)
    requires swept == Swept(s.buckets, s.clock, longest)
    ensures |SlotsOf(swept, routes + [route])| <= |SlotsOf(swept, routes)| + |YoungKeys(s, route, longest)| + 1
  {
    var all, older, young := SlotsOf(swept, routes + [route]), SlotsOf(swept, routes), YoungKeys(s, route, longest);
    SubsetSize(all, older + (young + {Global(route)}));
  }

  /** The clock may be read forward without changing what the books say. */
  lemma ClockForward(rules: Rules, s: State, now: int)
    requires Kept(rules, s) && s.clock <= now
    ensures Kept(rules, s.(clock := now))
  {
    hide Books, Bounded;
    var t := s.(clock := now);
    forall slot: Slot | slot.route in rules.rule ensures SlotOk(rules, t, slot) {
      assert SlotOk(rules, s, slot);
      SlotKept(s, t, slot, Limit(rules, slot), Window(rules, slot));
    }
  }

  lemma LookedKeys(rules: Rules, b: Buckets, calls: nat, r: Request)
    requires r.route in rules.rule
    ensures Looked(rules, b, calls, r).Keys <=
            if (calls + 1) % 256 == 0 then Swept(b, r.now, Longest(rules, |rules.order|)).Keys else b.Keys
  {
    hide Longest;
  }

  lemma SweptIsOld(b: Buckets, now: int, longest: nat)
    ensures forall slot | slot in Swept(b, now, longest) :: slot in b
  {
  }

  lemma LookedSize(rules: Rules, s: State, r: Request)
    requires Proper(rules) && Kept(rules, s) && Counting(s) && s.clock <= r.now && r.route in rules.rule
    ensures |Looked(rules, s.buckets, s.calls, r).Keys| <=
            if (s.calls + 1) % 256 == 0 then SweptBound(rules, |rules.order|) else |s.buckets.Keys|
  {
    hide *;
    var looked := Looked(rules, s.buckets, s.calls, r);
    LookedKeys(rules, s.buckets, s.calls, r);
    if (s.calls + 1) % 256 == 0 {
      var t := s.(clock := r.now);
      ClockForward(rules, s, r.now);
      SameCounts(s, t);
      SweptFew(rules, t, |rules.order|);
      var swept := Swept(s.buckets, r.now, Longest(rules, |rules.order|));
      SweptIsOld(s.buckets, r.now, Longest(rules, |rules.order|));
      AllSlots(rules, s, swept);
      SubsetSize(looked.Keys, SlotsOf(swept, rules.order[..|rules.order|]));
    } else {
      SubsetSize(looked.Keys, s.buckets.Keys);
    }
  }

  lemma SameCounts(s: State, t: State)
    requires Counting(s) && t.buckets == s.buckets
    ensures Counting(t)
  {
  }

  lemma AllSlots(rules: Rules, s: State, b: Buckets)
    requires Proper(rules) && Kept(rules, s) && forall slot | slot in b :: slot in s.buckets
    ensures SlotsOf(b, rules.order[..|rules.order|]) == b.Keys
  {
    hide SlotOk;
    assert rules.order[..|rules.order|] == rules.order;
  }

  lemma CountedSize(b: Buckets, slot: Slot, now: int)
    ensures |Counted(b, slot, now).Keys| <= |b.Keys| + 1
  {
    assert Counted(b, slot, now).Keys == b.Keys + {slot};
  }

  lemma StepSize(rules: Rules, s: State, r: Request)
    requires Proper(rules) && Kept(rules, s) && Counting(s) && s.clock <= r.now
    requires |s.buckets.Keys| <= SweptBound(rules, |rules.order|) + 2 + 2 * (s.calls % 256)
    ensures var t := Next(rules, s, r); |t.buckets.Keys| <= SweptBound(rules, |rules.order|) + 2 + 2 * (t.calls % 256)
  {
    hide Kept, SweptBound, Looked, Counting, Counted, Full;
    if r.route in rules.rule {
      LookedSize(rules, s, r);
      var looked := Looked(rules, s.buckets, s.calls, r);
      CountedSize(looked, Global(r.route), r.now);
      CountedSize(Counted(looked, Global(r.route), r.now), Key(r.route, r.key), r.now);
    }
  }

  /** Whatever keys arrive, the map stays below a bound that depends on the rules alone. */
  lemma {:induction false} SizeBounded(rules: Rules, requests: seq<Request>, n: nat)
    requires Proper(rules) && Ordered(requests) && n <= |requests|
    ensures |At(rules, requests, n).buckets.Keys| <= SweptBound(rules, |rules.order|) + 2 + 2 * (At(rules, requests, n).calls % 256)
    ensures |At(rules, requests, n).buckets.Keys| <= SweptBound(rules, |rules.order|) + 512
    decreases n
  {
    hide Next, Kept, SweptBound, Counting;
    if n > 0 {
      SizeBounded(rules, requests, n - 1);
      RunKeeps(rules, requests, n - 1);
      CountingStays(rules, requests, n - 1);
      StepSize(rules, At(rules, requests, n - 1), requests[n - 1]);
    }
  }
}
