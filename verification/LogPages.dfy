/** Paged log scans, src/lib/logPages.ts and `scanMemoLogs` of src/lib/payPaid.ts. */
module LogPages {
  import opened Text

  const MAX_GETLOGS_BLOCK_SPAN: nat := 9999
  const LOOKBACK_BLOCKS: nat := 400000

  /** Both ends included. */
  datatype Page = Page(fromBlock: nat, toBlock: nat)

  function WindowStart(latest: nat, lookback: nat): nat
  {
    if latest > lookback then latest - lookback else 0
  }

  function PageFrom(toBlock: nat, windowStart: nat, maxSpan: nat): nat
  {
    if toBlock > windowStart + maxSpan then toBlock - maxSpan else windowStart
  }

  /** The pages from `toBlock` down to `windowStart`, newest first. */
  function Pages(toBlock: nat, windowStart: nat, maxSpan: nat): seq<Page>
    requires windowStart <= toBlock
    decreases toBlock
  {
    var fromBlock := PageFrom(toBlock, windowStart, maxSpan);
    [Page(fromBlock, toBlock)] + (if fromBlock == windowStart then [] else Pages(fromBlock - 1, windowStart, maxSpan))
  }

  function PagesFrom(toBlock: nat, windowStart: nat, maxSpan: nat): seq<Page>
  {
    if toBlock >= windowStart then Pages(toBlock, windowStart, maxSpan) else []
  }

  lemma PagesStep(done: seq<Page>, toBlock: nat, windowStart: nat, maxSpan: nat)
    requires windowStart <= toBlock
    ensures var fromBlock := PageFrom(toBlock, windowStart, maxSpan);
            && windowStart <= fromBlock <= toBlock
            && done + Pages(toBlock, windowStart, maxSpan) ==
               (done + [Page(fromBlock, toBlock)]) + (if fromBlock == windowStart then [] else Pages(fromBlock - 1, windowStart, maxSpan))
  {
  }

  /** `logBlockPages`. */
  method LogBlockPages(latest: nat, lookback: nat, maxSpan: nat) returns (pages: seq<Page>)
    ensures pages == Pages(latest, WindowStart(latest, lookback), maxSpan)
  {
    hide Pages;
    var windowStart := if latest > lookback then latest - lookback else 0;
    pages := [];
    var toBlock: nat := latest;
    while toBlock >= windowStart
      invariant pages + PagesFrom(toBlock, windowStart, maxSpan) == Pages(latest, windowStart, maxSpan)
      decreases toBlock
    {
      PagesStep(pages, toBlock, windowStart, maxSpan);
      var fromBlock := if toBlock > windowStart + maxSpan then toBlock - maxSpan else windowStart;
      pages := pages + [Page(fromBlock, toBlock)];
      if fromBlock == windowStart { break; }
      toBlock := fromBlock - 1;
    }
  }

  /** The blocks from `hi` down to `lo`. */
  function Down(lo: nat, hi: nat): seq<nat>
    requires lo <= hi
    decreases hi
  {
    [hi] + (if lo == hi then [] else Down(lo, hi - 1))
  }

  function BlocksOf(pages: seq<Page>): seq<nat>
    requires forall p | p in pages :: p.fromBlock <= p.toBlock
  {
    if pages == [] then [] else Down(pages[0].fromBlock, pages[0].toBlock) + BlocksOf(pages[1..])
  }

  lemma {:induction false} DownSplits(lo: nat, mid: nat, hi: nat)
    requires lo < mid <= hi
    ensures Down(lo, hi) == Down(mid, hi) + Down(lo, mid - 1)
    decreases hi
  {
    if mid < hi {
      DownSplits(lo, mid, hi - 1);
    }
  }

  /** The pages partition the window: every block once, newest first, and no page spans more than allowed. */
  lemma {:induction false} PagesPartition(toBlock: nat, windowStart: nat, maxSpan: nat)
    requires windowStart <= toBlock
    ensures forall p | p in Pages(toBlock, windowStart, maxSpan) ::
              windowStart <= p.fromBlock <= p.toBlock <= toBlock && p.toBlock - p.fromBlock <= maxSpan
    ensures BlocksOf(Pages(toBlock, windowStart, maxSpan)) == Down(windowStart, toBlock)
    decreases toBlock
  {
    var fromBlock := PageFrom(toBlock, windowStart, maxSpan);
    var pages := Pages(toBlock, windowStart, maxSpan);
    if fromBlock == windowStart {
      assert pages == [Page(fromBlock, toBlock)];
    } else {
      var rest := Pages(fromBlock - 1, windowStart, maxSpan);
      PagesPartition(fromBlock - 1, windowStart, maxSpan);
      assert pages == [Page(fromBlock, toBlock)] + rest;
      assert forall p | p in pages :: p == pages[0] || p in rest;
      DownSplits(windowStart, fromBlock, toBlock);
    }
  }

  /** Every page but the oldest spans as much as it may, so no scan asks for more pages than it needs. */
  lemma {:induction false} PagesAreFull(toBlock: nat, windowStart: nat, maxSpan: nat, i: nat)
    requires windowStart <= toBlock && i + 1 < |Pages(toBlock, windowStart, maxSpan)|
    ensures var page := Pages(toBlock, windowStart, maxSpan)[i]; page.toBlock - page.fromBlock == maxSpan
    decreases i
  {
    var fromBlock := PageFrom(toBlock, windowStart, maxSpan);
    if i > 0 { PagesAreFull(fromBlock - 1, windowStart, maxSpan, i - 1); }
  }

  /** `lookbackLogPages`: no page is refused by the node, and the pages are the last 400,000 blocks and the latest one. */
  method LookbackLogPages(latest: nat) returns (pages: seq<Page>)
    ensures forall p | p in pages :: p.fromBlock <= p.toBlock <= latest && p.toBlock - p.fromBlock <= 9999
    ensures BlocksOf(pages) == Down(if latest > 400000 then latest - 400000 else 0, latest)
  {
    pages := LogBlockPages(latest, LOOKBACK_BLOCKS, MAX_GETLOGS_BLOCK_SPAN);
    PagesPartition(latest, WindowStart(latest, LOOKBACK_BLOCKS), MAX_GETLOGS_BLOCK_SPAN);
  }

  // ---------------------------------------------------------------- scanning

  /** A chain's memo logs, block by block, oldest first. */
  type Logs = nat -> seq<string>

  /** `getLogs` over blocks [lo, hi). */
  function LogsIn(logs: Logs, lo: nat, hi: nat): seq<string>
    decreases hi
  {
    if hi <= lo then [] else LogsIn(logs, lo, hi - 1) + logs(hi - 1)
  }

  function Backwards<T>(s: seq<T>): (r: seq<T>)
    ensures |r| == |s|
  {
    if s == [] then [] else [s[|s| - 1]] + Backwards(s[..|s| - 1])
  }

  lemma BackwardsLast<T>(s: seq<T>)
    requires s != []
    ensures Backwards(s) == [s[|s| - 1]] + Backwards(s[..|s| - 1])
  {
  }

  lemma {:induction false} BackwardsJoin<T>(a: seq<T>, b: seq<T>)
    ensures Backwards(a + b) == Backwards(b) + Backwards(a)
    decreases |b|
  {
    if b == [] {
      assert a + b == a;
    } else {
      hide Backwards;
      var n := |b| - 1;
      BackwardsJoin(a, b[..n]);
      BackwardsLast(a + b);
      BackwardsLast(b);
      assert (a + b)[..|a + b| - 1] == a + b[..n];
      assert [b[n]] + (Backwards(b[..n]) + Backwards(a)) == ([b[n]] + Backwards(b[..n])) + Backwards(a);
    }
  }

  lemma {:induction false} LogsSplit(logs: Logs, lo: nat, mid: nat, hi: nat)
    requires lo <= mid <= hi
    ensures LogsIn(logs, lo, hi) == LogsIn(logs, lo, mid) + LogsIn(logs, mid, hi)
    decreases hi
  {
    if mid < hi {
      LogsSplit(logs, lo, mid, hi - 1);
    }
  }

  /** The first acceptance in order. */
  function FirstHit<T>(txs: seq<string>, accept: string -> Option<T>): Option<T>
  {
    if txs == [] then None else if accept(txs[0]).Some? then accept(txs[0]) else FirstHit(txs[1..], accept)
  }

  lemma {:induction false} FirstHitJoin<T>(a: seq<string>, b: seq<string>, accept: string -> Option<T>)
    ensures FirstHit(a + b, accept) == if FirstHit(a, accept).Some? then FirstHit(a, accept) else FirstHit(b, accept)
  {
    if a == [] {
      assert a + b == b;
    } else {
      assert (a + b)[1..] == a[1..] + b;
      FirstHitJoin(a[1..], b, accept);
    }
  }

  /** Scanning the newest page and then the older blocks is scanning them all. */
  lemma NewestPageFirst<T>(logs: Logs, lo: nat, mid: nat, hi: nat, accept: string -> Option<T>)
    requires lo <= mid <= hi
    ensures FirstHit(Backwards(LogsIn(logs, lo, hi)), accept) ==
            (var hit := FirstHit(Backwards(LogsIn(logs, mid, hi)), accept);
             if hit.Some? then hit else FirstHit(Backwards(LogsIn(logs, lo, mid)), accept))
  {
    LogsSplit(logs, lo, mid, hi);
    BackwardsJoin(LogsIn(logs, lo, mid), LogsIn(logs, mid, hi));
    FirstHitJoin(Backwards(LogsIn(logs, mid, hi)), Backwards(LogsIn(logs, lo, mid)), accept);
  }

  /** One page's logs, newest first, stopping at the first that is accepted. */
  method ScanPage<T>(found: seq<string>, accept: string -> Option<T>) returns (hit: Option<T>)
    ensures hit == FirstHit(Backwards(found), accept)
  {
    var newestFirst := Backwards(found);
    for i := 0 to |newestFirst|
      invariant FirstHit(newestFirst, accept) == FirstHit(newestFirst[i..], accept)
    {
      var r := accept(newestFirst[i]);
      if r.Some? { return r; }
    }
    return None;
  }

  /** The next page of a scan that has the blocks below `top` left, and what is left after it. */
  lemma ScanStep(pages: seq<Page>, i: nat, top: nat, start: nat, maxSpan: nat)
    requires i < |pages| && start < top && pages[i..] == Pages(top - 1, start, maxSpan)
    ensures start <= pages[i].fromBlock < top && pages[i].toBlock == top - 1
    ensures if i + 1 == |pages| then pages[i].fromBlock == start
            else start < pages[i].fromBlock && pages[i + 1..] == Pages(pages[i].fromBlock - 1, start, maxSpan)
  {
    hide Pages;
    var rest := pages[i..];
    PagesStep([], top - 1, start, maxSpan);
    assert rest[0] == pages[i] && rest[1..] == pages[i + 1..];
    var fromBlock := PageFrom(top - 1, start, maxSpan);
    assert [] + rest == rest && [] + [Page(fromBlock, top - 1)] == [Page(fromBlock, top - 1)];
    if fromBlock != start { PagesStep([], fromBlock - 1, start, maxSpan); }
  }

  /** The blocks below `top` are the pages from `i` on. */
  ghost predicate LeftToScan(pages: seq<Page>, i: nat, top: nat, start: nat, maxSpan: nat)
  {
    i <= |pages| && if i == |pages| then top == start else start < top && pages[i..] == Pages(top - 1, start, maxSpan)
  }

  lemma NothingLeft<T>(logs: Logs, start: nat, accept: string -> Option<T>)
    ensures FirstHit(Backwards(LogsIn(logs, start, start)), accept) == None
  {
  }

  lemma FirstPages(latest: nat, start: nat, maxSpan: nat)
    requires start <= latest
    ensures LeftToScan(Pages(latest, start, maxSpan), 0, latest + 1, start, maxSpan)
  {
    assert Pages(latest, start, maxSpan)[0..] == Pages(latest, start, maxSpan);
  }

  /** `scanMemoLogs`: the paged scan returns what one newest-to-oldest scan of the whole window would. */
  method ScanMemoLogs<T>(latest: nat, lookback: nat, maxSpan: nat, logs: Logs, accept: string -> Option<T>) returns (hit: Option<T>)
    ensures hit == FirstHit(Backwards(LogsIn(logs, WindowStart(latest, lookback), latest + 1)), accept)
  {
    hide Pages, FirstHit, Backwards, LogsIn, PageFrom;
    var start := WindowStart(latest, lookback);
    var pages := LogBlockPages(latest, lookback, maxSpan);
    FirstPages(latest, start, maxSpan);
    ghost var top: nat := latest + 1;
    for i := 0 to |pages|
      invariant LeftToScan(pages, i, top, start, maxSpan)
      invariant FirstHit(Backwards(LogsIn(logs, start, latest + 1)), accept) == FirstHit(Backwards(LogsIn(logs, start, top)), accept)
    {
      var page := pages[i];
      ScanStep(pages, i, top, start, maxSpan);
      NewestPageFirst(logs, start, page.fromBlock, top, accept);
      hit := ScanPage(LogsIn(logs, page.fromBlock, page.toBlock + 1), accept);
      if hit.Some? { return; }
      top := page.fromBlock;
    }
    NothingLeft(logs, start, accept);
    return None;
  }
}
