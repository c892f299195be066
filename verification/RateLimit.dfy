/** The sliding-window rate limiter. Times are real numbers read from a monotonic clock. */
module RateLimit {
  /** One call for a key: when, and whether it was allowed. */
  datatype Call = Call(now: real, allowed: bool)

  predicate Ordered(ts: seq<real>) { forall i, j | 0 <= i < j < |ts| :: ts[i] <= ts[j] }

  /** The allowed calls of a history, in order. */
  function Allowed(calls: seq<Call>): seq<real> {
    if calls == [] then []
    else
      var n := |calls| - 1;
      Allowed(calls[..n]) + if calls[n].allowed then [calls[n].now] else []
  }

  /** How many of the times lie in `[from, to]`. */
  function Count(ts: seq<real>, from: real, to: real): (n: nat)
    ensures n <= |ts|
  {
    if ts == [] then 0
    else Count(ts[..|ts| - 1], from, to) + if from <= ts[|ts| - 1] <= to then 1 else 0
  }

  /** The specification: allow while fewer than `limit` allowed calls lie in the last `window` seconds. */
  predicate Decide(calls: seq<Call>, now: real, limit: int, window: real) {
    Count(Allowed(calls), now - window, now) < limit
  }

  /** Call `i` comes no earlier than the one before it, and is decided by the specification. */
  predicate Follows(calls: seq<Call>, i: nat, limit: int, window: real)
    requires i < |calls|
  {
    && (i > 0 ==> calls[i - 1].now <= calls[i].now)
    && calls[i].allowed == Decide(calls[..i], calls[i].now, limit, window)
  }

  /** A run of one key. */
  predicate Run(calls: seq<Call>, limit: int, window: real) {
    forall i | 0 <= i < |calls| :: Follows(calls, i, limit, window)
  }

  // ---------------------------------------------------------------------------------------------
  // Counting
  // ---------------------------------------------------------------------------------------------

  lemma {:induction false} CountConcat(a: seq<real>, b: seq<real>, from: real, to: real)
    ensures Count(a + b, from, to) == Count(a, from, to) + Count(b, from, to)
  {
    if b == [] {
      assert a + b == a;
    } else {
      var n := |b| - 1;
      CountConcat(a, b[..n], from, to);
      assert (a + b)[..|a + b| - 1] == a + b[..n];
    }
  }

  predicate UpTo(ts: seq<real>, latest: real) { forall k | 0 <= k < |ts| :: ts[k] <= latest }

  predicate Before(ts: seq<real>, since: real) { forall k | 0 <= k < |ts| :: ts[k] < since }

  predicate From(ts: seq<real>, since: real) { forall k | 0 <= k < |ts| :: since <= ts[k] }

  lemma {:induction false} CountOutside(ts: seq<real>, from: real, to: real)
    requires Before(ts, from)
    ensures Count(ts, from, to) == 0
  {
    if ts != [] {
      CountOutside(ts[..|ts| - 1], from, to);
    }
  }

  lemma {:induction false} CountInside(ts: seq<real>, from: real, to: real)
    requires From(ts, from) && UpTo(ts, to)
    ensures Count(ts, from, to) == |ts|
  {
    if ts != [] {
      CountInside(ts[..|ts| - 1], from, to);
    }
  }

  lemma {:induction false} CountWider(ts: seq<real>, from: real, to: real, from2: real, to2: real)
    requires from2 <= from && to <= to2
    ensures Count(ts, from, to) <= Count(ts, from2, to2)
  {
    if ts != [] {
      CountWider(ts[..|ts| - 1], from, to, from2, to2);
    }
  }

  lemma {:induction false} CountUpTo(ts: seq<real>, from: real, to: real, latest: real)
    requires latest <= to && UpTo(ts, latest)
    ensures Count(ts, from, to) == Count(ts, from, latest)
  {
    if ts != [] {
      CountUpTo(ts[..|ts| - 1], from, to, latest);
    }
  }

  lemma CountSnoc(ts: seq<real>, t: real, from: real, to: real)
    ensures Count(ts + [t], from, to) == Count(ts, from, to) + if from <= t <= to then 1 else 0
  {
    assert (ts + [t])[..|ts|] == ts;
  }

  /** The clock of a history never goes back. */
  predicate Forward(calls: seq<Call>) { forall i | 0 < i < |calls| :: calls[i - 1].now <= calls[i].now }

  lemma {:induction false} AllowedTimes(calls: seq<Call>, now: real)
    requires Forward(calls) && (calls != [] ==> calls[|calls| - 1].now <= now)
    ensures Ordered(Allowed(calls)) && UpTo(Allowed(calls), now)
  {
    if calls != [] {
      var n := |calls| - 1;
      AllowedTimes(calls[..n], calls[n].now);
    }
  }

  // ---------------------------------------------------------------------------------------------
  // No window holds too many
  // ---------------------------------------------------------------------------------------------

  lemma FollowsPrefix(calls: seq<Call>, limit: int, window: real, n: nat, i: nat)
    requires i < n <= |calls|
    ensures Follows(calls[..n], i, limit, window) == Follows(calls, i, limit, window)
  {
    hide Decide;
    assert calls[..n][..i] == calls[..i];
  }

  lemma RunPrefix(calls: seq<Call>, limit: int, window: real, n: nat)
    requires Run(calls, limit, window) && n <= |calls|
    ensures Run(calls[..n], limit, window)
  {
    hide Follows;
    forall i | 0 <= i < n
      ensures Follows(calls[..n], i, limit, window)
    {
      FollowsPrefix(calls, limit, window, n, i);
    }
  }

  lemma RunForward(calls: seq<Call>, limit: int, window: real)
    requires Run(calls, limit, window)
    ensures Forward(calls)
  {
    hide Decide;
    forall i | 0 < i < |calls|
      ensures calls[i - 1].now <= calls[i].now
    {
      assert Follows(calls, i, limit, window);
    }
  }

  lemma LastCall(calls: seq<Call>, limit: int, window: real)
    requires Run(calls, limit, window) && calls != []
    ensures var n := |calls| - 1;
            && Run(calls[..n], limit, window) && Forward(calls[..n])
            && (n > 0 ==> calls[n - 1].now <= calls[n].now)
            && calls[n].allowed == Decide(calls[..n], calls[n].now, limit, window)
  {
    var n := |calls| - 1;
    RunPrefix(calls, limit, window, n);
    RunForward(calls[..n], limit, window);
    hide Decide;
    assert Follows(calls, n, limit, window);
  }

  /** In any run, whatever interval of `window` seconds is taken, at most `limit` allowed calls lie in it. */
  lemma {:induction false} NoWindowOverflows(calls: seq<Call>, limit: nat, window: real, from: real)
    requires Run(calls, limit, window)
    ensures Count(Allowed(calls), from, from + window) <= limit
  {
    if calls != [] {
      var n := |calls| - 1;
      var c := calls[n];
      LastCall(calls, limit, window);
      NoWindowOverflows(calls[..n], limit, window, from);
      hide Run, Count, Decide;
      if c.allowed {
        CountSnoc(Allowed(calls[..n]), c.now, from, from + window);
        if from <= c.now <= from + window {
          WindowFits(calls[..n], c.now, limit, window, from);
        }
      } else {
        assert Allowed(calls) == Allowed(calls[..n]) + [] == Allowed(calls[..n]);
      }
    }
  }

  /** The allowed calls that share an interval with a call now being allowed lie in its own window. */
  lemma WindowFits(h: seq<Call>, now: real, limit: nat, window: real, from: real)
    requires Forward(h) && (h != [] ==> h[|h| - 1].now <= now)
    requires Decide(h, now, limit, window) && from <= now <= from + window
    ensures Count(Allowed(h), from, from + window) < limit
  {
    hide Count;
    AllowedTimes(h, now);
    CountUpTo(Allowed(h), from, from + window, now);
    CountWider(Allowed(h), from, now, now - window, now);
  }

  /** A call is refused exactly when `limit` allowed calls already lie in `[now - window, now]`. */
  lemma RefusedExactly(calls: seq<Call>, limit: nat, window: real, i: nat)
    requires Run(calls, limit, window) && i < |calls|
    ensures !calls[i].allowed <==> Count(Allowed(calls[..i]), calls[i].now - window, calls[i].now) == limit
  {
    hide Count;
    RunPrefix(calls, limit, window, i);
    assert Follows(calls, i, limit, window);
    NoWindowOverflows(calls[..i], limit, window, calls[i].now - window);
    assert calls[i].now - window + window == calls[i].now;
  }

  // ---------------------------------------------------------------------------------------------
  // The deque
  // ---------------------------------------------------------------------------------------------

  /** The bucket is the allowed history without a prefix of calls too old to matter from `since` on. */
  predicate Refines(bucket: seq<real>, history: seq<real>, since: real) {
    && |bucket| <= |history| && bucket == history[|history| - |bucket|..]
    && forall k | 0 <= k < |history| - |bucket| :: history[k] < since
  }

  lemma RefinesLater(bucket: seq<real>, history: seq<real>, since: real, later: real)
    requires Refines(bucket, history, since) && since <= later
    ensures Refines(bucket, history, later)
  {
  }

  /** Once its old entries are popped, the length of the bucket is the count over the whole history. */
  lemma BucketCounts(bucket: seq<real>, history: seq<real>, now: real, window: real)
    requires Refines(bucket, history, now - window) && Ordered(history) && UpTo(history, now)
    requires bucket == [] || now - window <= bucket[0]
    ensures |bucket| == Count(history, now - window, now)
  {
    hide Count;
    var k := |history| - |bucket|;
    assert history == history[..k] + bucket;
    CountConcat(history[..k], bucket, now - window, now);
    CountOutside(history[..k], now - window, now);
    assert From(bucket, now - window) by {
      assert forall i | 0 <= i < |bucket| :: bucket[i] == history[k + i];
    }
    CountInside(bucket, now - window, now);
  }

  /** The module-level table of buckets; `history` is every call ever made, key by key. */
  class Limiter {
    var buckets: map<string, seq<real>>
    ghost var history: map<string, seq<Call>>

    ghost function HistoryOf(key: string): seq<Call>
      reads this
    {
      if key in history then history[key] else []
    }

    function BucketOf(key: string): seq<real>
      reads this
    {
      if key in buckets then buckets[key] else []
    }

    /** For a key always used with this limit and window: its calls are a run, and its bucket keeps every
        allowed call that can still count. */
    ghost predicate Tracks(key: string, limit: int, window: real)
      reads this
    {
      var h := HistoryOf(key);
      && Run(h, limit, window)
      && (h == [] ==> BucketOf(key) == [])
      && (h != [] ==> Refines(BucketOf(key), Allowed(h), h[|h| - 1].now - window))
    }

    constructor ()
      ensures buckets == map[] && history == map[]
      ensures forall key, limit, window :: Tracks(key, limit, window)
    {
      buckets, history := map[], map[];
    }

    /** `check_rate_limit`. */
    method CheckRateLimit(key: string, limit: int, window: real, now: real) returns (allowed: bool)
      requires Tracks(key, limit, window)
      requires HistoryOf(key) != [] ==> HistoryOf(key)[|HistoryOf(key)| - 1].now <= now
      modifies this
      ensures Tracks(key, limit, window)
      ensures allowed == Decide(old(HistoryOf(key)), now, limit, window)
      ensures HistoryOf(key) == old(HistoryOf(key)) + [Call(now, allowed)]
      ensures history == old(history)[key := HistoryOf(key)]
      ensures buckets == old(buckets)[key := BucketOf(key)]
    {
      hide Run, Refines, Allowed, Ordered, UpTo, Count;
      ghost var h := HistoryOf(key);
      var bucket := BucketOf(key);
      var cutoff := now - window;
      ghost var ts := Allowed(h);
      assert Refines(bucket, ts, cutoff) by { StartOfCall(h, bucket, window, now); }
      while bucket != [] && bucket[0] < cutoff
        invariant Refines(bucket, ts, cutoff)
        modifies {}
      {
        PopOld(bucket, ts, cutoff);
        bucket := bucket[1..];
      }
      RunTimes(h, limit, window, now);
      BucketCounts(bucket, ts, now, window);
      allowed := |bucket| < limit;
      AfterCall(h, Call(now, allowed), bucket, limit, window);
      history := history[key := h + [Call(now, allowed)]];
      if allowed {
        bucket := bucket + [now];
      }
      buckets := buckets[key := bucket];
    }
  }

  lemma StartOfCall(h: seq<Call>, bucket: seq<real>, window: real, now: real)
    requires h == [] ==> bucket == []
    requires h != [] ==> h[|h| - 1].now <= now && Refines(bucket, Allowed(h), h[|h| - 1].now - window)
    ensures Refines(bucket, Allowed(h), now - window)
  {
    NoneAllowed();
    hide Refines, Allowed;
    if h != [] {
      RefinesLater(bucket, Allowed(h), h[|h| - 1].now - window, now - window);
    } else {
      RefinesNone(now - window);
    }
  }

  lemma NoneAllowed()
    ensures Allowed([]) == []
  {
  }

  lemma RefinesNone(since: real)
    ensures Refines([], [], since)
  {
  }

  lemma RunTimes(h: seq<Call>, limit: int, window: real, now: real)
    requires Run(h, limit, window) && (h != [] ==> h[|h| - 1].now <= now)
    ensures Ordered(Allowed(h)) && UpTo(Allowed(h), now)
  {
    RunForward(h, limit, window);
    AllowedTimes(h, now);
  }

  lemma AfterCall(h: seq<Call>, c: Call, bucket: seq<real>, limit: int, window: real)
    requires Run(h, limit, window) && (h != [] ==> h[|h| - 1].now <= c.now) && c.allowed == Decide(h, c.now, limit, window)
    requires Refines(bucket, Allowed(h), c.now - window)
    ensures Run(h + [c], limit, window)
    ensures Refines(if c.allowed then bucket + [c.now] else bucket, Allowed(h + [c]), c.now - window)
  {
    Extended(h, c, limit, window);
    hide Run, Allowed, Decide;
    if c.allowed {
      RefinesSnoc(bucket, Allowed(h), c.now, c.now - window);
    }
  }

  lemma RefinesSnoc(bucket: seq<real>, history: seq<real>, t: real, since: real)
    requires Refines(bucket, history, since)
    ensures Refines(bucket + [t], history + [t], since)
  {
  }

  lemma PopOld(bucket: seq<real>, history: seq<real>, cutoff: real)
    requires Refines(bucket, history, cutoff) && bucket != [] && bucket[0] < cutoff
    ensures Refines(bucket[1..], history, cutoff)
  {
    assert history[|history| - |bucket|] == bucket[0];
  }

  lemma Extended(h: seq<Call>, c: Call, limit: int, window: real)
    requires Run(h, limit, window) && (h != [] ==> h[|h| - 1].now <= c.now) && c.allowed == Decide(h, c.now, limit, window)
    ensures Run(h + [c], limit, window)
    ensures Allowed(h + [c]) == if c.allowed then Allowed(h) + [c.now] else Allowed(h)
  {
    var all := h + [c];
    AllowedSnoc(h, c, all);
    assert all[..|h|] == h;
    assert Follows(all, |h|, limit, window);
    hide Follows, Allowed, Decide;
    forall i | 0 <= i < |h|
      ensures Follows(all, i, limit, window)
    {
      FollowsPrefix(all, limit, window, |h|, i);
    }
  }

  lemma AllowedSnoc(h: seq<Call>, c: Call, all: seq<Call>)
    requires all == h + [c]
    ensures Allowed(all) == if c.allowed then Allowed(h) + [c.now] else Allowed(h)
  {
    assert all[..|h|] == h;
    assert Allowed(h) + [] == Allowed(h);
  }
}
