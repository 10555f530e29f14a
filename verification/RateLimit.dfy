/**
  The sliding-window limiter: a dictionary of deques, pruned when touched and
  swept every 500 hits, against a ledger that never forgets a hit.
  Clock readings are parameters; a hit that sweeps reads the clock twice.
 */
module RateLimit {

  const SWEEP_EVERY := 500

  /** `Retry(0)` admits; IndexError is Python's, from indexing an empty deque. */
  datatype Answer = Retry(seconds: int) | IndexError

  datatype Limiter = Limiter(windows: map<string, seq<real>>, maxWindow: int, hitCount: nat)

  function Get(m: map<string, seq<real>>, key: string): seq<real>
  {
    if key in m then m[key] else []
  }

  /** Entries are taken from the front for as long as they are not after the cutoff. */
  function Pruned(dq: seq<real>, cutoff: real): seq<real>
  {
    if dq != [] && dq[0] <= cutoff then Pruned(dq[1..], cutoff) else dq
  }

  function RetryAfter(oldest: real, window: int, now: real): int
  {
    var n := (oldest + window as real - now).Floor + 1;
    if n < 1 then 1 else n
  }

  predicate CanSweep(windows: map<string, seq<real>>) { forall k :: k in windows ==> windows[k] != [] }

  function Swept(windows: map<string, seq<real>>, cutoff: real): map<string, seq<real>>
    requires CanSweep(windows)
  {
    map k | k in windows && windows[k][|windows[k]| - 1] > cutoff :: windows[k]
  }

  function Store(l: Limiter, key: string, dq: seq<real>): Limiter { l.(windows := l.windows[key := dq]) }
  function Drop(l: Limiter, key: string): Limiter { l.(windows := l.windows - {key}) }

  function Admit(l: Limiter, key: string, limit: int, window: int, now: real): (Limiter, Answer)
  {
    var dq := Pruned(Get(l.windows, key), now - window as real);
    if |dq| < limit then (Store(l, key, dq + [now]), Retry(0))
    else if dq == [] then (Store(l, key, []), IndexError)
    else (Store(l, key, dq), Retry(RetryAfter(dq[0], window, now)))
  }

  function HitResult(l: Limiter, key: string, limit: int, window: int, sweepAt: real, now: real): (Limiter, Answer)
  {
    var l1 := l.(hitCount := l.hitCount + 1);
    if l1.hitCount % SWEEP_EVERY != 0 then Admit(l1, key, limit, window, now)
    else if !CanSweep(l1.windows) then (l1, IndexError)
    else Admit(l1.(windows := Swept(l1.windows, sweepAt - l.maxWindow as real)), key, limit, window, now)
  }

  function BlockedResult(l: Limiter, key: string, limit: int, window: int, now: real): (Limiter, Answer)
  {
    var dq := Pruned(Get(l.windows, key), now - window as real);
    if dq == [] then (Drop(l, key), Retry(0))
    else (Store(l, key, dq), if |dq| >= limit then Retry(RetryAfter(dq[0], window, now)) else Retry(0))
  }

  class RateLimiter {
    var windows: map<string, seq<real>>
    const maxWindow: int
    var hitCount: nat

    function State(): Limiter
      reads this
    {
      Limiter(windows, maxWindow, hitCount)
    }

    constructor (maxWindow: int)
      ensures State() == Limiter(map[], maxWindow, 0)
    {
      this.maxWindow := maxWindow;
      windows, hitCount := map[], 0;
    }

    /** The number of keys evicted; IndexError when a stored deque is empty. */
    method Sweep(now: real) returns (ok: bool, evicted: nat)
      modifies this`windows
      ensures ok <==> CanSweep(old(windows))
      ensures ok ==> evicted == |old(windows)| - |windows|
      ensures windows == if CanSweep(old(windows)) then Swept(old(windows), now - maxWindow as real) else old(windows)
    {
      var cutoff := now - maxWindow as real;
      if exists k :: k in windows && windows[k] == [] { return false, 0; }
      var stale := set k | k in windows && windows[k][|windows[k]| - 1] <= cutoff;
      windows := windows - stale;
      assert old(windows).Keys == windows.Keys + stale && windows.Keys !! stale;
      return true, |stale|;
    }

    /** Drops expired entries in place; an emptied deque is removed from the dictionary. */
    method Prune(key: string, cutoff: real) returns (dq: seq<real>)
      modifies this`windows
      ensures dq == Pruned(Get(old(windows), key), cutoff)
      ensures windows == if dq == [] then old(windows) - {key} else old(windows)[key := dq]
    {
      if key !in windows {
        assert windows == windows - {key};
        return [];
      }
      dq := windows[key];
      while dq != [] && dq[0] <= cutoff
        invariant Pruned(dq, cutoff) == Pruned(Get(old(windows), key), cutoff)
        decreases |dq|
      {
        dq := dq[1..];
      }
      if dq == [] {
        windows := windows - {key};
      } else {
        windows := windows[key := dq];
      }
    }

    method AdmitHit(key: string, limit: int, window: int, now: real) returns (a: Answer)
      modifies this`windows
      ensures (State(), a) == Admit(old(State()), key, limit, window, now)
    {
      var dq := Prune(key, now - window as real);
      if dq == [] { windows := windows[key := []]; }
      assert windows == old(windows)[key := dq];
      if |dq| >= limit {
        if dq == [] { return IndexError; }
        return Retry(RetryAfter(dq[0], window, now));
      }
      windows := windows[key := dq + [now]];
      assert windows == old(windows)[key := dq + [now]];
      return Retry(0);
    }

    method Hit(key: string, limit: int, window: int, sweepAt: real, now: real) returns (a: Answer)
      modifies this
      ensures (State(), a) == HitResult(old(State()), key, limit, window, sweepAt, now)
    {
      hide Admit, Swept;
      hitCount := hitCount + 1;
      if hitCount % SWEEP_EVERY == 0 {
        var ok, evicted := Sweep(sweepAt);
        if !ok { return IndexError; }
      }
      a := AdmitHit(key, limit, window, now);
    }

    method IsBlocked(key: string, limit: int, window: int, now: real) returns (a: Answer)
      modifies this`windows
      ensures (State(), a) == BlockedResult(old(State()), key, limit, window, now)
    {
      var dq := Prune(key, now - window as real);
      if dq == [] { return Retry(0); }
      if |dq| >= limit { return Retry(RetryAfter(dq[0], window, now)); }
      return Retry(0);
    }
  }

  // ----- the ledger that never forgets

  /** All admitted hits of every key, in order. */
  type Ledger = map<string, seq<real>>

  function Recent(h: seq<real>, cutoff: real): seq<real>
  {
    if h == [] then [] else (if h[0] > cutoff then [h[0]] else []) + Recent(h[1..], cutoff)
  }

  function Verdict(h: seq<real>, limit: int, window: int, now: real): Answer
    requires limit >= 1
  {
    var live := Recent(h, now - window as real);
    if |live| < limit then Retry(0) else Retry(RetryAfter(live[0], window, now))
  }

  datatype Call = Hit(key: string, limit: int, sweepAt: real, now: real) | Blocked(key: string, limit: int, now: real)

  function LedgerAfter(g: Ledger, c: Call, window: int): Ledger
    requires c.limit >= 1
  {
    if c.Hit? && Verdict(Get(g, c.key), c.limit, window, c.now) == Retry(0)
    then g[c.key := Get(g, c.key) + [c.now]] else g
  }

  function Step(l: Limiter, c: Call, window: int): (Limiter, Answer)
  {
    match c
    case Hit(key, limit, sweepAt, now) => HitResult(l, key, limit, window, sweepAt, now)
    case Blocked(key, limit, now) => BlockedResult(l, key, limit, window, now)
  }

  /** Call times do not run backwards, and limits are positive. */
  predicate Timely(calls: seq<Call>, from: real)
    decreases |calls|
  {
    calls == [] ||
    (calls[0].limit >= 1 && calls[0].now >= from
     && (calls[0].Hit? ==> from <= calls[0].sweepAt <= calls[0].now)
     && Timely(calls[1..], calls[0].now))
  }

  function Answers(l: Limiter, w: string -> int, calls: seq<Call>): (r: seq<Answer>)
    ensures |r| == |calls|
    decreases |calls|
  {
    if calls == [] then [] else
    var (l', a) := Step(l, calls[0], w(calls[0].key));
    [a] + Answers(l', w, calls[1..])
  }

  function LedgerAnswers(g: Ledger, w: string -> int, calls: seq<Call>): (r: seq<Answer>)
    requires forall k :: 0 <= k < |calls| ==> calls[k].limit >= 1
    ensures |r| == |calls|
    decreases |calls|
  {
    if calls == [] then [] else
    var c := calls[0];
    [Verdict(Get(g, c.key), c.limit, w(c.key), c.now)] + LedgerAnswers(LedgerAfter(g, c, w(c.key)), w, calls[1..])
  }

  // ----- pruning a sorted deque is filtering

  predicate Ascending(h: seq<real>) { forall i, j :: 0 <= i < j < |h| ==> h[i] <= h[j] }

  predicate AscendingTo(h: seq<real>, now: real) { Ascending(h) && forall i :: 0 <= i < |h| ==> h[i] <= now }

  lemma {:induction false} RecentMembers(h: seq<real>, cutoff: real)
    ensures forall x :: x in Recent(h, cutoff) <==> x in h && x > cutoff
    ensures Ascending(h) ==> Ascending(Recent(h, cutoff))
  {
    if h != [] {
      RecentMembers(h[1..], cutoff);
      assert h == [h[0]] + h[1..];
      var r := Recent(h[1..], cutoff);
      assert forall i :: 0 <= i < |r| ==> r[i] in r;
    }
  }

  lemma {:induction false} RecentAll(h: seq<real>, cutoff: real)
    requires forall i :: 0 <= i < |h| ==> h[i] > cutoff
    ensures Recent(h, cutoff) == h
  {
    if h != [] { RecentAll(h[1..], cutoff); }
  }

  lemma {:induction false} PrunedIsRecent(dq: seq<real>, cutoff: real)
    requires Ascending(dq)
    ensures Pruned(dq, cutoff) == Recent(dq, cutoff)
  {
    if dq != [] {
      if dq[0] <= cutoff { PrunedIsRecent(dq[1..], cutoff); } else { RecentAll(dq, cutoff); }
    }
  }

  lemma {:induction false} RecentConcat(a: seq<real>, b: seq<real>, cutoff: real)
    ensures Recent(a + b, cutoff) == Recent(a, cutoff) + Recent(b, cutoff)
  {
    if a == [] {
      assert a + b == b;
    } else {
      assert (a + b)[1..] == a[1..] + b;
      RecentConcat(a[1..], b, cutoff);
    }
  }

  lemma {:induction false} RecentNone(h: seq<real>, cutoff: real)
    requires forall i :: 0 <= i < |h| ==> h[i] <= cutoff
    ensures Recent(h, cutoff) == []
  {
    if h != [] { RecentNone(h[1..], cutoff); }
  }
}
