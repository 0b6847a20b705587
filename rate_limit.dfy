/** The per-token sliding-window rate limiter (main.py:60-75).

    For every access token the limiter keeps the timestamps of the requests
    it admitted.  A check at time `now` first drops every timestamp `t` with
    `now - t >= Window` (the comparison that keeps an entry is strict), then
    refuses with 429 if `MaxHits` or more remain, and otherwise records `now`.
    The clock is an explicit parameter. */
module RateLimit {
  import opened Wrappers

  /** Length of the sliding window, in seconds. */
  const Window: real := 60.0

  /** Largest number of admitted requests inside one window. */
  const MaxHits: nat := 20

  const RateLimitedDetail: string := "Rate limit exceeded. Please wait before making more requests."

  /** The error the limiter raises when a token is over its quota. */
  const RateLimited: HttpError := HttpError(429, RateLimitedDetail)

  /** A timestamp survives pruning at `now` exactly when it lies inside the window. */
  predicate InWindow(t: real, now: real) {
    now - t < Window
  }

  /** The timestamps of `hits` that are still inside the window at `now`,
      in their original order. */
  function Pruned(hits: seq<real>, now: real): (kept: seq<real>)
    ensures |kept| <= |hits|
    ensures forall i :: 0 <= i < |kept| ==> InWindow(kept[i], now)
    ensures forall t :: t in kept <==> t in hits && InWindow(t, now)
  {
    if hits == [] then []
    else if InWindow(hits[0], now) then [hits[0]] + Pruned(hits[1..], now)
    else Pruned(hits[1..], now)
  }

  /** Pruning is a filter: it distributes over concatenation, so it keeps
      the surviving timestamps in the order they were recorded. */
  lemma {:induction false} PrunedAppend(a: seq<real>, b: seq<real>, now: real)
    ensures Pruned(a + b, now) == Pruned(a, now) + Pruned(b, now)
  {
    if a == [] {
      assert a + b == b;
    } else {
      assert (a + b)[0] == a[0];
      assert (a + b)[1..] == a[1..] + b;
      PrunedAppend(a[1..], b, now);
    }
  }

  /** A list whose timestamps are all inside the window is left as it is. */
  lemma {:induction false} PrunedAllInWindow(hits: seq<real>, now: real)
    requires forall i :: 0 <= i < |hits| ==> InWindow(hits[i], now)
    ensures Pruned(hits, now) == hits
  {
    if hits != [] {
      PrunedAllInWindow(hits[1..], now);
    }
  }

  /** Pruning twice, the second time no earlier than the first, is the same
      as pruning once at the later time: lazy pruning loses nothing. */
  lemma {:induction false} PrunedLater(hits: seq<real>, now: real, later: real)
    requires now <= later
    ensures Pruned(Pruned(hits, now), later) == Pruned(hits, later)
  {
    if hits != [] {
      PrunedLater(hits[1..], now, later);
    }
  }

  /** Pruning the same list twice at the same time changes nothing more. */
  lemma PrunedIdempotent(hits: seq<real>, now: real)
    ensures Pruned(Pruned(hits, now), now) == Pruned(hits, now)
  {
    PrunedLater(hits, now, now);
  }

  /** The prune step of the limiter: the list comprehension over the stored
      timestamps, written as the loop it performs. */
  method Prune(hits: seq<real>, now: real) returns (kept: seq<real>)
    ensures kept == Pruned(hits, now)
  {
    kept := [];
    var i := 0;
    while i < |hits|
      invariant 0 <= i <= |hits|
      invariant kept == Pruned(hits[..i], now)
    {
      PrunedAppend(hits[..i], [hits[i]], now);
      assert hits[..i + 1] == hits[..i] + [hits[i]];
      if InWindow(hits[i], now) {
        kept := kept + [hits[i]];
      }
      i := i + 1;
    }
    assert hits[..i] == hits;
  }

  /** What one check does to a token's list: whether the request is
      admitted, and the list stored afterwards. */
  datatype Verdict = Verdict(admitted: bool, stored: seq<real>)

  /** The decision of one check at `now` on the list `hits` of one token. */
  function Admit(hits: seq<real>, now: real): (v: Verdict)
    // admitted exactly when fewer than MaxHits timestamps are still in the window
    ensures v.admitted <==> |Pruned(hits, now)| < MaxHits
    // an admitted request is recorded last, after the surviving timestamps
    ensures v.admitted ==> |v.stored| > 0 && v.stored[|v.stored| - 1] == now
                           && v.stored[..|v.stored| - 1] == Pruned(hits, now)
    // a refused request is not recorded; the pruned list is still stored
    ensures !v.admitted ==> v.stored == Pruned(hits, now) && |v.stored| >= MaxHits
    // every stored timestamp is inside the window at `now`
    ensures forall i :: 0 <= i < |v.stored| ==> InWindow(v.stored[i], now)
    // the quota bound is preserved
    ensures |hits| <= MaxHits ==> |v.stored| <= MaxHits
  {
    var kept := Pruned(hits, now);
    if |kept| >= MaxHits then Verdict(false, kept)
    else
      assert (kept + [now])[..|kept|] == kept;
      Verdict(true, kept + [now])
  }

  /** After a pause of at least one window since the last recorded request,
      a token is admitted again with its whole quota: only `now` is stored. */
  lemma QuotaRestoredAfterWindow(hits: seq<real>, last: real, now: real)
    requires forall i :: 0 <= i < |hits| ==> hits[i] <= last
    requires now - last >= Window
    ensures Pruned(hits, now) == []
    ensures Admit(hits, now) == Verdict(true, [now])
  {
  }

  /** The outcomes of a run of checks of one token at the times `times`,
      starting from the list `hits`. */
  function Run(hits: seq<real>, times: seq<real>): (outcomes: seq<bool>)
    ensures |outcomes| == |times|
    decreases |times|
  {
    if times == [] then []
    else
      var v := Admit(hits, times[0]);
      [v.admitted] + Run(v.stored, times[1..])
  }

  /** Requests that all fall inside one window: each is less than `Window`
      after every earlier one. */
  predicate WithinOneWindow(times: seq<real>) {
    forall i, j :: 0 <= i < j < |times| ==> InWindow(times[i], times[j])
  }

  /** Within one window, starting from a list that is itself inside the
      window of every request, the k-th request is admitted exactly when
      fewer than MaxHits requests precede it. */
  lemma {:induction false} RunWithinOneWindow(hits: seq<real>, times: seq<real>)
    requires WithinOneWindow(times)
    requires forall i, j :: 0 <= i < |hits| && 0 <= j < |times| ==> InWindow(hits[i], times[j])
    ensures forall k :: 0 <= k < |times| ==> Run(hits, times)[k] == (|hits| + k < MaxHits)
    decreases |times|
  {
    if times != [] {
      var now := times[0];
      PrunedAllInWindow(hits, now);
      var v := Admit(hits, now);
      var rest := times[1..];
      if v.admitted {
        assert v.stored == hits + [now];
        forall i, j | 0 <= i < |v.stored| && 0 <= j < |rest|
          ensures InWindow(v.stored[i], rest[j])
        {
          if i == |hits| {
            assert InWindow(times[0], times[j + 1]);
          } else {
            assert v.stored[i] == hits[i];
            assert InWindow(hits[i], times[j + 1]);
          }
        }
      } else {
        assert v.stored == hits;
        forall i, j | 0 <= i < |v.stored| && 0 <= j < |rest|
          ensures InWindow(v.stored[i], rest[j])
        {
          assert InWindow(hits[i], times[j + 1]);
        }
      }
      assert WithinOneWindow(rest) by {
        forall i, j | 0 <= i < j < |rest| ensures InWindow(rest[i], rest[j]) {
          assert InWindow(times[i + 1], times[j + 1]);
        }
      }
      RunWithinOneWindow(v.stored, rest);
      var outcomes := Run(hits, times);
      assert outcomes == [v.admitted] + Run(v.stored, rest);
      forall k | 0 <= k < |times| ensures outcomes[k] == (|hits| + k < MaxHits) {
        if k > 0 {
          assert outcomes[k] == Run(v.stored, rest)[k - 1];
        }
      }
    }
  }

  /** A burst of requests inside one window from a fresh token: the first
      MaxHits are admitted and every later one is refused. */
  lemma BurstAdmitsExactlyMaxHits(times: seq<real>)
    requires WithinOneWindow(times)
    ensures forall k :: 0 <= k < |times| ==> Run([], times)[k] == (k < MaxHits)
  {
    RunWithinOneWindow([], times);
  }

  /** The limiter state shared by all requests: the admitted timestamps of
      every token that has been checked. */
  class RateLimiter {
    var hits: map<string, seq<real>>

    /** No token ever holds more than MaxHits timestamps. */
    ghost predicate Valid()
      reads this
    {
      forall token :: token in hits ==> |hits[token]| <= MaxHits
    }

    /** The stored timestamps of `token`; none when it was never checked. */
    function HitsOf(token: string): seq<real>
      reads this
    {
      if token in hits then hits[token] else []
    }

    constructor ()
      ensures Valid() && hits == map[]
    {
      hits := map[];
    }

    /** Checks `token` at time `now`: prunes its list, refuses with 429 when
        the quota is used up, and otherwise records `now`.  Only the entry of
        `token` is created or changed. */
    method Check(token: string, now: real) returns (r: Outcome<HttpError>)
      requires Valid()
      modifies this
      ensures Valid()
      ensures r == (if Admit(old(HitsOf(token)), now).admitted then Pass else Fail(RateLimited))
      ensures hits == old(hits)[token := Admit(old(HitsOf(token)), now).stored]
      ensures forall i :: 0 <= i < |hits[token]| ==> InWindow(hits[token][i], now)
    {
      // setdefault: a token seen for the first time starts with no hits
      var current := HitsOf(token);
      var kept := Prune(current, now);
      ghost var v := Admit(current, now);
      if |kept| >= MaxHits {
        hits := hits[token := kept];
        r := Fail(RateLimited);
      } else {
        hits := hits[token := kept + [now]];
        r := Pass;
      }
      assert hits[token] == v.stored;
    }
  }
}
