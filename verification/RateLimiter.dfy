/** The per-address sliding-window rate limiter: a pruned log that must agree with the whole history. */
module RateLimiter {
  import opened Base

  type Store = map<string, seq<Time>>

  datatype Request = Request(ip: string, at: Time)

  /** The times later than a cutoff, in order. */
  function Recent(times: seq<Time>, cutoff: Time): (r: seq<Time>)
    ensures |r| <= |times|
  {
    if times == [] then []
    else
      var rest, t := Recent(times[..|times| - 1], cutoff), times[|times| - 1];
      if t > cutoff then rest + [t] else rest
  }

  function LogOf(store: Store, ip: string): seq<Time> {
    if ip in store then store[ip] else []
  }

  /** One request against the pruned logs. */
  function Handle(store: Store, limit: int, window: int, req: Request): (bool, Store) {
    var valid := Recent(LogOf(store, req.ip), req.at - window);
    if |valid| >= limit then (false, store[req.ip := valid]) else (true, store[req.ip := valid + [req.at]])
  }

  class IpRateLimiter {
    var entries: Store
    const limit: int
    const window: int

    constructor (limit: int, window: int)
      ensures entries == map[] && this.limit == limit && this.window == window
    {
      entries, this.limit, this.window := map[], limit, window;
    }

    method Allow(ip: string, now: Time) returns (ok: bool)
      modifies this`entries
      ensures (ok, entries) == Handle(old(entries), limit, window, Request(ip, now))
      ensures var log := if ip in old(entries) then old(entries)[ip] else [];
              ok <==> |set i | 0 <= i < |log| && log[i] > now - window| < limit
      ensures forall other :: other != ip ==> LogOf(entries, other) == LogOf(old(entries), other)
    {
      var cutoff := now - window;
      var times := if ip in entries then entries[ip] else [];
      var valid: seq<Time> := [];
      for i := 0 to |times|
        invariant valid == Recent(times[..i], cutoff)
      {
        assert times[..i + 1][..i] == times[..i];
        if times[i] > cutoff {
          valid := valid + [times[i]];
        }
      }
      assert times[..|times|] == times;
      RecentCounts(times, cutoff);
      if |valid| >= limit {
        entries := entries[ip := valid];
        return false;
      }
      entries := entries[ip := valid + [now]];
      return true;
    }
  }

  // ------------------------------------------------------------ whole runs

  /** The pruned logs after a run. */
  function StoreAfter(limit: int, window: int, reqs: seq<Request>): Store {
    if reqs == [] then map[]
    else Handle(StoreAfter(limit, window, reqs[..|reqs| - 1]), limit, window, reqs[|reqs| - 1]).1
  }

  /** Whether the limiter admits one more request after a run. */
  predicate Admits(limit: int, window: int, reqs: seq<Request>, next: Request) {
    Handle(StoreAfter(limit, window, reqs), limit, window, next).0
  }

  /** The whole history of admissions of one address, never pruned. */
  function History(limit: int, window: int, reqs: seq<Request>, ip: string): seq<Time> {
    if reqs == [] then []
    else
      var before, last := reqs[..|reqs| - 1], reqs[|reqs| - 1];
      var h := History(limit, window, before, ip);
      if last.ip == ip && Admits(limit, window, before, last) then h + [last.at] else h
  }

  ghost predicate ClockRuns(reqs: seq<Request>) {
    forall i, j :: 0 <= i < j < |reqs| ==> reqs[i].at <= reqs[j].at
  }

  /** When an address last asked. */
  function LastAsked(reqs: seq<Request>, ip: string): Option<Time> {
    if reqs == [] then None
    else if reqs[|reqs| - 1].ip == ip then Some(reqs[|reqs| - 1].at)
    else LastAsked(reqs[..|reqs| - 1], ip)
  }

  /** Admissions in the half-open interval (lo, hi]. */
  function Within(times: seq<Time>, lo: Time, hi: Time): nat {
    if times == [] then 0
    else Within(times[..|times| - 1], lo, hi) + (if lo < times[|times| - 1] <= hi then 1 else 0)
  }

  /** How many times are later than a cutoff. */
  lemma {:induction false} RecentCounts(times: seq<Time>, cutoff: Time)
    ensures |Recent(times, cutoff)| == |set i | 0 <= i < |times| && times[i] > cutoff|
  {
    if times != [] {
      var n := |times| - 1;
      RecentCounts(times[..n], cutoff);
      var before, all := set i | 0 <= i < n && times[..n][i] > cutoff, set i | 0 <= i < |times| && times[i] > cutoff;
      assert all == if times[n] > cutoff then before + {n} else before;
    }
  }

  /** They keep their order: filtering distributes over concatenation, and takes or leaves a single time. */
  lemma {:induction false} RecentConcat(first: seq<Time>, second: seq<Time>, cutoff: Time)
    ensures Recent(first + second, cutoff) == Recent(first, cutoff) + Recent(second, cutoff)
  {
    if second == [] {
      assert first + second == first;
    } else {
      var n := |second| - 1;
      assert (first + second)[..|first| + n] == first + second[..n];
      RecentConcat(first, second[..n], cutoff);
      assert Recent(first, cutoff) + Recent(second[..n], cutoff) + [second[n]]
          == Recent(first, cutoff) + (Recent(second[..n], cutoff) + [second[n]]);
    }
  }

  lemma RecentOne(t: Time, cutoff: Time)
    ensures Recent([t], cutoff) == if t > cutoff then [t] else []
  {
    assert [t][..0] == [];
  }

  /** How many admissions lie in (lo, hi]. */
  lemma {:induction false} WithinCounts(times: seq<Time>, lo: Time, hi: Time)
    ensures Within(times, lo, hi) == |set i | 0 <= i < |times| && lo < times[i] <= hi|
  {
    if times != [] {
      var n := |times| - 1;
      WithinCounts(times[..n], lo, hi);
      var before := set i | 0 <= i < n && lo < times[..n][i] <= hi;
      var all := set i | 0 <= i < |times| && lo < times[i] <= hi;
      assert all == if lo < times[n] <= hi then before + {n} else before;
    }
  }

  lemma {:induction false} RecentTwice(times: seq<Time>, c: Time, d: Time)
    requires c <= d
    ensures Recent(Recent(times, c), d) == Recent(times, d)
  {
    if times != [] {
      var n := |times| - 1;
      RecentTwice(times[..n], c, d);
      var rest := Recent(times[..n], c);
      assert (rest + [times[n]])[..|rest|] == rest;
    }
  }

  lemma RecentSnoc(times: seq<Time>, t: Time, c: Time)
    ensures Recent(times + [t], c) == Recent(times, c) + (if t > c then [t] else [])
  {
    assert (times + [t])[..|times|] == times;
    assert Recent(times, c) + [] == Recent(times, c);
  }

  lemma {:induction false} LastAskedBounded(reqs: seq<Request>, ip: string)
    requires ClockRuns(reqs)
    ensures LastAsked(reqs, ip).Some? ==> reqs != [] && LastAsked(reqs, ip).value <= reqs[|reqs| - 1].at
  {
    if reqs != [] && reqs[|reqs| - 1].ip != ip {
      LastAskedBounded(reqs[..|reqs| - 1], ip);
    }
  }

  /** Pruning at c and then admitting or refusing is not noticed at later cutoffs. */
  lemma PruneStep(log: seq<Time>, h: seq<Time>, c: Time, cutoff: Time, t: Time)
    requires Recent(log, c) == Recent(h, c) && c <= cutoff
    ensures Recent(Recent(log, c), cutoff) == Recent(h, cutoff)
    ensures Recent(Recent(log, c) + [t], cutoff) == Recent(h + [t], cutoff)
  {
    RecentTwice(log, c, cutoff);
    RecentTwice(h, c, cutoff);
    RecentSnoc(Recent(log, c), t, cutoff);
    RecentSnoc(h, t, cutoff);
  }

  /** One more request, unfolded. */
  lemma RunSnoc(limit: int, window: int, reqs: seq<Request>, ip: string)
    requires reqs != []
    ensures var before, last := reqs[..|reqs| - 1], reqs[|reqs| - 1];
            var log, h := LogOf(StoreAfter(limit, window, before), ip), History(limit, window, before, ip);
            var log', h' := LogOf(StoreAfter(limit, window, reqs), ip), History(limit, window, reqs, ip);
            var valid := Recent(log, last.at - window);
            if last.ip != ip then log' == log && h' == h
            else if |valid| >= limit then log' == valid && h' == h
            else log' == valid + [last.at] && h' == h + [last.at]
  {
    var before, last := reqs[..|reqs| - 1], reqs[|reqs| - 1];
    assert StoreAfter(limit, window, reqs) == Handle(StoreAfter(limit, window, before), limit, window, last).1;
  }

  /** From the window of its last request on, the pruned log of an address is as good as its whole history. */
  lemma {:induction false} PrunedSeesRecentHistory(
    limit: int, window: int, reqs: seq<Request>, ip: string, cutoff: Time)
    requires ClockRuns(reqs)
    requires LastAsked(reqs, ip).Some? ==> LastAsked(reqs, ip).value - window <= cutoff
    ensures Recent(LogOf(StoreAfter(limit, window, reqs), ip), cutoff)
         == Recent(History(limit, window, reqs, ip), cutoff)
    decreases |reqs|
  {
    if reqs != [] {
      var before, last := reqs[..|reqs| - 1], reqs[|reqs| - 1];
      RunSnoc(limit, window, reqs, ip);
      if last.ip == ip {
        LastAskedBounded(before, ip);
        PrunedSeesRecentHistory(limit, window, before, ip, last.at - window);
        PruneStep(LogOf(StoreAfter(limit, window, before), ip), History(limit, window, before, ip),
                  last.at - window, cutoff, last.at);
      } else {
        PrunedSeesRecentHistory(limit, window, before, ip, cutoff);
      }
    }
  }

  /** With a positive window, the log kept for an address is exactly its history filtered to the last window. */
  lemma {:induction false} PrunedIsRecentHistory(limit: int, window: int, reqs: seq<Request>, ip: string)
    requires ClockRuns(reqs) && window > 0
    ensures var log, h := LogOf(StoreAfter(limit, window, reqs), ip), History(limit, window, reqs, ip);
            match LastAsked(reqs, ip)
            case None => log == [] && h == []
            case Some(t) => log == Recent(h, t - window)
  {
    if reqs != [] {
      var before, last := reqs[..|reqs| - 1], reqs[|reqs| - 1];
      RunSnoc(limit, window, reqs, ip);
      if last.ip == ip {
        LastAskedBounded(before, ip);
        PrunedSeesRecentHistory(limit, window, before, ip, last.at - window);
        RecentSnoc(History(limit, window, before, ip), last.at, last.at - window);
      } else {
        PrunedIsRecentHistory(limit, window, before, ip);
      }
    }
  }

  /** A limiter that never prunes: a request is admitted while fewer than limit admissions lie in its window. */
  function Unpruned(limit: int, window: int, reqs: seq<Request>, ip: string): seq<Time> {
    if reqs == [] then []
    else
      var last := reqs[|reqs| - 1];
      var h := Unpruned(limit, window, reqs[..|reqs| - 1], ip);
      if last.ip == ip && |Recent(h, last.at - window)| < limit then h + [last.at] else h
  }

  /** Pruning changes no decision: in every run the limiter admits just what the unpruned one admits. */
  lemma {:induction false} PruningIsInvisible(limit: int, window: int, reqs: seq<Request>, ip: string)
    requires ClockRuns(reqs)
    ensures History(limit, window, reqs, ip) == Unpruned(limit, window, reqs, ip)
  {
    if reqs != [] {
      var before, last := reqs[..|reqs| - 1], reqs[|reqs| - 1];
      PruningIsInvisible(limit, window, before, ip);
      if last.ip == ip {
        LastAskedBounded(before, ip);
        PrunedSeesRecentHistory(limit, window, before, ip, last.at - window);
      }
    }
  }

  lemma {:induction false} HistoryBounded(limit: int, window: int, reqs: seq<Request>, ip: string, now: Time)
    requires ClockRuns(reqs) && (reqs != [] ==> reqs[|reqs| - 1].at <= now)
    ensures forall i :: 0 <= i < |History(limit, window, reqs, ip)| ==> History(limit, window, reqs, ip)[i] <= now
  {
    if reqs != [] {
      HistoryBounded(limit, window, reqs[..|reqs| - 1], ip, now);
    }
  }

  lemma {:induction false} WithinIsRecent(times: seq<Time>, lo: Time, hi: Time, cutoff: Time)
    ensures cutoff <= lo ==> Within(times, lo, hi) <= |Recent(times, cutoff)|
    ensures cutoff == lo && (forall i :: 0 <= i < |times| ==> times[i] <= hi) ==>
              Within(times, lo, hi) == |Recent(times, cutoff)|
  {
    if times != [] {
      WithinIsRecent(times[..|times| - 1], lo, hi, cutoff);
    }
  }

  lemma WithinSnoc(times: seq<Time>, t: Time, lo: Time, hi: Time)
    ensures Within(times + [t], lo, hi) == Within(times, lo, hi) + (if lo < t <= hi then 1 else 0)
  {
    assert (times + [t])[..|times|] == times;
  }

  /** In every run, no half-open interval of window length holds more than limit admissions of one address. */
  lemma {:induction false} WindowHoldsAtMostLimit(
      limit: int, window: int, reqs: seq<Request>, ip: string, lo: Time, hi: Time)
    requires ClockRuns(reqs) && hi <= lo + window
    ensures Within(History(limit, window, reqs, ip), lo, hi) <= if limit > 0 then limit else 0
  {
    if reqs != [] {
      var before, last := reqs[..|reqs| - 1], reqs[|reqs| - 1];
      RunSnoc(limit, window, reqs, ip);
      WindowHoldsAtMostLimit(limit, window, before, ip, lo, hi);
      if last.ip == ip {
        var h := History(limit, window, before, ip);
        LastAskedBounded(before, ip);
        PrunedSeesRecentHistory(limit, window, before, ip, last.at - window);
        WithinSnoc(h, last.at, lo, hi);
        WithinIsRecent(h, lo, hi, last.at - window);
      }
    }
  }

  lemma ClockPrefix(reqs: seq<Request>, next: Request)
    requires ClockRuns(reqs + [next])
    ensures ClockRuns(reqs) && (reqs != [] ==> reqs[|reqs| - 1].at <= next.at)
  {
    var all := reqs + [next];
    assert forall i :: 0 <= i < |reqs| ==> all[i] == reqs[i];
    assert all[|reqs|] == next;
  }

  // The induction on the run is in PrunedSeesRecentHistory; attempting another one here is slow.
  /** The decision depends on the whole history's admissions in the window. */
  lemma {:induction false} AdmitsByHistory(limit: int, window: int, reqs: seq<Request>, next: Request)
    requires ClockRuns(reqs + [next])
    ensures Admits(limit, window, reqs, next) <==>
            Within(History(limit, window, reqs, next.ip), next.at - window, next.at) < limit
  {
    ClockPrefix(reqs, next);
    LastAskedBounded(reqs, next.ip);
    PrunedSeesRecentHistory(limit, window, reqs, next.ip, next.at - window);
    HistoryBounded(limit, window, reqs, next.ip, next.at);
    WithinIsRecent(History(limit, window, reqs, next.ip), next.at - window, next.at, next.at - window);
  }

  // The induction on the run is in WindowHoldsAtMostLimit; attempting another one here is slow.
  lemma {:induction false} WindowOfNext(limit: nat, window: int, reqs: seq<Request>, next: Request)
    requires ClockRuns(reqs + [next])
    ensures Within(History(limit, window, reqs, next.ip), next.at - window, next.at) <= limit
  {
    ClockPrefix(reqs, next);
    WindowHoldsAtMostLimit(limit, window, reqs, next.ip, next.at - window, next.at);
  }

  /** A request is refused exactly when limit admissions of its address lie in (at - window, at]. */
  lemma RefusedExactlyAtLimit(limit: nat, window: int, reqs: seq<Request>, next: Request)
    requires ClockRuns(reqs + [next])
    ensures !Admits(limit, window, reqs, next) <==>
            Within(History(limit, window, reqs, next.ip), next.at - window, next.at) == limit
  {
    AdmitsByHistory(limit, window, reqs, next);
    WindowOfNext(limit, window, reqs, next);
  }

  /** The logs kept never grow beyond the limit. */
  lemma {:induction false} LogsStaySmall(limit: int, window: int, reqs: seq<Request>, ip: string)
    ensures |LogOf(StoreAfter(limit, window, reqs), ip)| <= if limit > 0 then limit else 0
  {
    if reqs != [] {
      LogsStaySmall(limit, window, reqs[..|reqs| - 1], ip);
    }
  }
}
