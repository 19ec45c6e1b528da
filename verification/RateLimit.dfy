/** The sliding-window rate limiter of the admin UI: a pruned deque against the full history of admissions. */
module RateLimit {

  // `duration_since` saturates at zero.
  function Elapsed(now: nat, at: nat): nat {
    if at <= now then now - at else 0
  }

  // How many of the admitted times lie less than a window ago: the specification looks at all of them.
  function Recent(history: seq<nat>, now: nat, window: nat): nat {
    if history == [] then 0 else
    Recent(history[1..], now, window) + if Elapsed(now, history[0]) < window then 1 else 0
  }

  function Prune(attempts: seq<nat>, now: nat, window: nat): seq<nat> {
    if attempts != [] && Elapsed(now, attempts[0]) >= window then Prune(attempts[1..], now, window) else attempts
  }

  predicate Sorted(s: seq<nat>) {
    forall i, j | 0 <= i < j < |s| :: s[i] <= s[j]
  }

  predicate UpTo(s: seq<nat>, now: nat) {
    Sorted(s) && forall i | 0 <= i < |s| :: s[i] <= now
  }

  // On admissions in order of time, what pruning keeps is exactly what is recent.
  lemma {:induction false} PruneKeepsRecent(s: seq<nat>, now: nat, window: nat)
    requires UpTo(s, now)
    ensures Recent(s, now, window) <= |s|
    ensures Prune(s, now, window) == s[|s| - Recent(s, now, window)..]
  {
    if s != [] {
      PruneKeepsRecent(s[1..], now, window);
      if Elapsed(now, s[0]) < window {
        AllRecent(s, now, window);
      }
    }
  }

  lemma {:induction false} AllRecent(s: seq<nat>, now: nat, window: nat)
    requires UpTo(s, now) && (s != [] ==> Elapsed(now, s[0]) < window)
    ensures Recent(s, now, window) == |s|
  {
    if s != [] {
      AllRecent(s[1..], now, window);
    }
  }

  lemma {:induction false} RecentSplits(a: seq<nat>, b: seq<nat>, now: nat, window: nat)
    ensures Recent(a + b, now, window) == Recent(a, now, window) + Recent(b, now, window)
  {
    if a == [] {
      assert a + b == b;
    } else {
      assert (a + b)[1..] == a[1..] + b;
      RecentSplits(a[1..], b, now, window);
    }
  }

  lemma {:induction false} NoneRecent(s: seq<nat>, now: nat, window: nat)
    requires forall i | 0 <= i < |s| :: Elapsed(now, s[i]) >= window
    ensures Recent(s, now, window) == 0
  {
    if s != [] {
      NoneRecent(s[1..], now, window);
    }
  }

  // The places of the times less than a window ago.
  function RecentPlaces(history: seq<nat>, now: nat, window: nat): set<nat> {
    set i: nat | i < |history| && now - history[i] < window
  }

  // Counting them is what `Recent` does.
  lemma {:induction false} RecentCounts(history: seq<nat>, now: nat, window: nat)
    requires UpTo(history, now)
    ensures Recent(history, now, window) == |RecentPlaces(history, now, window)|
  {
    if history == [] {
      assert RecentPlaces(history, now, window) == {};
    } else {
      var n := |history| - 1;
      var before, last := history[..n], history[n];
      assert history == before + [last];
      RecentCounts(before, now, window);
      RecentSplits(before, [last], now, window);
      assert Recent([last][1..], now, window) == 0;
      assert RecentPlaces(history, now, window)
          == RecentPlaces(before, now, window) + if now - last < window then {n} else {};
    }
  }

  // The deque is the end of the history, and whatever was dropped is out of the window for good.
  ghost predicate Keeps(history: seq<nat>, attempts: seq<nat>, clock: nat, window: nat) {
    && UpTo(history, clock)
    && |attempts| <= |history|
    && attempts == history[|history| - |attempts|..]
    && forall i | 0 <= i < |history| - |attempts| :: Elapsed(clock, history[i]) >= window
  }

  lemma PruneIsRecent(history: seq<nat>, attempts: seq<nat>, clock: nat, now: nat, window: nat)
    requires Keeps(history, attempts, clock, window) && clock <= now
    ensures Recent(history, now, window) <= |history|
    ensures Prune(attempts, now, window) == history[|history| - Recent(history, now, window)..]
  {
    var dropped := history[..|history| - |attempts|];
    assert history == dropped + attempts;
    RecentSplits(dropped, attempts, now, window);
    NoneRecent(dropped, now, window);
    PruneKeepsRecent(attempts, now, window);
  }

  lemma PruneKeeps(history: seq<nat>, attempts: seq<nat>, clock: nat, now: nat, window: nat)
    requires Keeps(history, attempts, clock, window) && clock <= now
    ensures |Prune(attempts, now, window)| == Recent(history, now, window)
    ensures Keeps(history, Prune(attempts, now, window), now, window)
  {
    PruneIsRecent(history, attempts, clock, now, window);
    DroppedAreOld(history, now, window);
  }

  lemma PushKeeps(history: seq<nat>, attempts: seq<nat>, now: nat, window: nat)
    requires Keeps(history, attempts, now, window)
    ensures Keeps(history + [now], attempts + [now], now, window)
  {
  }

  /** The limiter itself. `history` is every time it ever admitted. */
  class RateLimiter {
    var attempts: seq<nat>
    const limit: nat
    const window: nat
    ghost var history: seq<nat>
    ghost var clock: nat

    ghost predicate Valid()
      reads this
    {
      Keeps(history, attempts, clock, window)
    }

    constructor (limit: nat, window: nat)
      ensures Valid() && this.limit == limit && this.window == window && history == [] && clock == 0
    {
      attempts, this.limit, this.window, history, clock := [], limit, window, [], 0;
    }

    // Admits exactly when fewer than `limit` of all the times ever admitted lie less than a window ago.
    method Allow(now: nat) returns (allowed: bool)
      requires Valid() && clock <= now
      modifies this
      ensures Valid() && clock == now
      ensures allowed <==> Recent(old(history), now, window) < limit
      ensures allowed <==> |set i: nat | i < |old(history)| && now - old(history)[i] < window| < limit
      ensures history == if allowed then old(history) + [now] else old(history)
    {
      ghost var start := attempts;
      RecentCounts(history, now, window);
      assert RecentPlaces(history, now, window) == set i: nat | i < |history| && now - history[i] < window;
      while attempts != [] && Elapsed(now, attempts[0]) >= window
        invariant Prune(attempts, now, window) == Prune(start, now, window)
        invariant history == old(history) && clock == old(clock)
        decreases |attempts|
      {
        attempts := attempts[1..];
      }
      PruneKeeps(history, start, clock, now, window);
      clock := now;
      if |attempts| >= limit {
        return false;
      }
      PushKeeps(history, attempts, now, window);
      attempts := attempts + [now];
      history := history + [now];
      return true;
    }
  }

  lemma {:induction false} DroppedAreOld(s: seq<nat>, now: nat, window: nat)
    requires UpTo(s, now)
    ensures Recent(s, now, window) <= |s|
    ensures forall i | 0 <= i < |s| - Recent(s, now, window) :: Elapsed(now, s[i]) >= window
  {
    if s != [] {
      DroppedAreOld(s[1..], now, window);
      if Elapsed(now, s[0]) < window {
        AllRecent(s, now, window);
      }
    }
  }

  // ---- Whole runs ----

  // What the full-history specification admits, request by request.
  function Admitted(limit: nat, window: nat, requests: seq<nat>): seq<nat> {
    if requests == [] then [] else
    var before, now := Admitted(limit, window, requests[..|requests| - 1]), requests[|requests| - 1];
    if Recent(before, now, window) < limit then before + [now] else before
  }

  // Any run of the limiter on a monotone clock admits what the specification admits.
  method Serve(limit: nat, window: nat, requests: seq<nat>) returns (admitted: seq<nat>)
    requires Sorted(requests)
    ensures admitted == Admitted(limit, window, requests)
  {
    var limiter := new RateLimiter(limit, window);
    admitted := [];
    for i := 0 to |requests|
      invariant limiter.Valid() && fresh(limiter) && limiter.limit == limit && limiter.window == window
      invariant admitted == limiter.history == Admitted(limit, window, requests[..i])
      invariant limiter.clock == if i == 0 then 0 else requests[i - 1]
    {
      AdmittedNext(limit, window, requests, i);
      var allowed := limiter.Allow(requests[i]);
      if allowed {
        admitted := admitted + [requests[i]];
      }
    }
    assert requests[..|requests|] == requests;
  }

  lemma AdmittedNext(limit: nat, window: nat, requests: seq<nat>, i: nat)
    requires i < |requests|
    ensures var before := Admitted(limit, window, requests[..i]);
            Admitted(limit, window, requests[..i + 1])
            == if Recent(before, requests[i], window) < limit then before + [requests[i]] else before
  {
    assert requests[..i + 1][..i] == requests[..i];
  }

  lemma {:induction false} AdmittedInOrder(limit: nat, window: nat, requests: seq<nat>)
    requires Sorted(requests)
    ensures requests != [] ==> UpTo(Admitted(limit, window, requests), requests[|requests| - 1])
  {
    if |requests| > 0 {
      AdmittedInOrder(limit, window, requests[..|requests| - 1]);
    }
  }

  // `limit` admissions not older than a window leave no room for another.
  lemma FullWindow(h: seq<nat>, i: nat, now: nat, window: nat)
    requires UpTo(h, now) && i < |h| && now < h[i] + window
    ensures Recent(h, now, window) >= |h| - i
  {
    var tail := h[i..];
    assert h == h[..i] + tail;
    RecentSplits(h[..i], tail, now, window);
    AllRecent(tail, now, window);
  }

  // Of any `limit` + 1 consecutive admissions, the first and the last are at least a window apart.
  lemma {:induction false} NeverTooMany(limit: nat, window: nat, requests: seq<nat>, i: nat)
    requires Sorted(requests) && i + limit < |Admitted(limit, window, requests)|
    ensures var h := Admitted(limit, window, requests);
            h[i + limit] >= h[i] + window
  {
    var before, now := requests[..|requests| - 1], requests[|requests| - 1];
    var h := Admitted(limit, window, before);
    AdmittedInOrder(limit, window, before);
    if i + limit < |h| {
      NeverTooMany(limit, window, before, i);
    } else if i < |h| && now < h[i] + window {
      FullWindow(h, i, now, window);
    }
  }
}
