/** What the limiter promises over whole call sequences. */
module Limits {
  import opened RateLimit

  // ----- what a deque remembers

  predicate IsSuffix(dq: seq<real>, h: seq<real>) { |dq| <= |h| && h[|h| - |dq|..] == dq }

  /** Every hit the deque has lost is at or before the cutoff. */
  predicate LostOnly(dq: seq<real>, h: seq<real>, cutoff: real)
  {
    IsSuffix(dq, h) && forall i :: 0 <= i < |h| - |dq| ==> h[i] <= cutoff
  }

  ghost predicate Sound(l: Limiter, g: Ledger, now: real)
  {
    && CanSweep(l.windows)
    && forall k :: IsSuffix(Get(l.windows, k), Get(g, k)) && AscendingTo(Get(g, k), now)
  }

  /** The stored deques still hold everything inside each key's window. */
  ghost predicate Faithful(l: Limiter, g: Ledger, w: string -> int, now: real)
  {
    && Sound(l, g, now)
    && forall k :: LostOnly(Get(l.windows, k), Get(g, k), now - w(k) as real)
  }

  lemma {:induction false} PrunedSuffix(dq: seq<real>, cutoff: real)
    ensures LostOnly(Pruned(dq, cutoff), dq, cutoff)
  {
    if dq != [] && dq[0] <= cutoff { PrunedSuffix(dq[1..], cutoff); }
  }

  lemma SuffixChain(a: seq<real>, b: seq<real>, h: seq<real>, cutoff: real)
    requires LostOnly(a, b, cutoff) && IsSuffix(b, h)
    ensures IsSuffix(a, h)
    ensures LostOnly(b, h, cutoff) ==> LostOnly(a, h, cutoff)
  {
    var n := |h| - |b|;
    assert forall i :: 0 <= i < |b| ==> h[n + i] == b[i];
    assert h[|h| - |a|..] == a;
    if LostOnly(b, h, cutoff) {
      forall i | 0 <= i < |h| - |a| ensures h[i] <= cutoff {
        if i >= n { assert h[i] == b[i - n]; }
      }
    }
  }

  lemma SuffixAscends(dq: seq<real>, h: seq<real>)
    requires IsSuffix(dq, h) && Ascending(h)
    ensures Ascending(dq)
  {
    assert forall i :: 0 <= i < |dq| ==> dq[i] == h[|h| - |dq| + i];
  }

  /** A deque that lost only old hits gives the same recent hits as the whole ledger. */
  lemma RecentOfDeque(dq: seq<real>, h: seq<real>, cutoff: real)
    requires LostOnly(dq, h, cutoff) && Ascending(h)
    ensures Pruned(dq, cutoff) == Recent(h, cutoff)
  {
    var lost := h[..|h| - |dq|];
    assert h == lost + dq;
    SuffixAscends(dq, h);
    PrunedIsRecent(dq, cutoff);
    RecentConcat(lost, dq, cutoff);
    RecentNone(lost, cutoff);
  }

  // ----- one call

  lemma SweepKeeps(l: Limiter, g: Ledger, t: real, key: string, sweepAt: real)
    requires Sound(l, g, t) && t <= sweepAt
    ensures var swept := Swept(l.windows, sweepAt - l.maxWindow as real);
            CanSweep(swept) && LostOnly(Get(swept, key), Get(l.windows, key), sweepAt - l.maxWindow as real)
  {
    SuffixAscends(Get(l.windows, key), Get(g, key));
  }

  /** The dictionary just before the key is pruned. */
  function Ready(l: Limiter, c: Call): map<string, seq<real>>
    requires CanSweep(l.windows)
  {
    if c.Hit? && (l.hitCount + 1) % SWEEP_EVERY == 0 then Swept(l.windows, c.sweepAt - l.maxWindow as real)
    else l.windows
  }

  /** The ledger of what the limiter itself admitted. */
  function Recorded(g: Ledger, c: Call, a: Answer): Ledger
  {
    if c.Hit? && a == Retry(0) then g[c.key := Get(g, c.key) + [c.now]] else g
  }

  /** One call touches one deque: it is pruned, and extended if the hit is admitted. */
  lemma StepEffect(l: Limiter, c: Call, window: int)
    requires CanSweep(l.windows) && c.limit >= 1
    ensures var (l', a) := Step(l, c, window); var cutoff := c.now - window as real;
            var dq := Pruned(Get(Ready(l, c), c.key), cutoff);
            && a == (if |dq| < c.limit then Retry(0) else Retry(RetryAfter(dq[0], window, c.now)))
            && Get(l'.windows, c.key) == (if c.Hit? && a == Retry(0) then dq + [c.now] else dq)
            && (forall k :: k != c.key ==> Get(l'.windows, k) == Get(Ready(l, c), k))
            && CanSweep(l'.windows) && l'.maxWindow == l.maxWindow
  {
  }

  lemma ReadySuffix(l: Limiter, g: Ledger, c: Call, t: real, k: string)
    requires Sound(l, g, t) && Timely([c], t)
    ensures IsSuffix(Get(Ready(l, c), k), Get(g, k))
    ensures forall cutoff :: LostOnly(Get(l.windows, k), Get(g, k), cutoff)
                             && (c.Hit? ==> c.sweepAt - l.maxWindow as real <= cutoff)
                             ==> LostOnly(Get(Ready(l, c), k), Get(g, k), cutoff)
  {
    var stored, ready, h := Get(l.windows, k), Get(Ready(l, c), k), Get(g, k);
    if c.Hit? {
      SweepKeeps(l, g, t, k, c.sweepAt);
      SuffixChain(ready, stored, h, c.sweepAt - l.maxWindow as real);
      forall cutoff | LostOnly(stored, h, cutoff) && c.sweepAt - l.maxWindow as real <= cutoff
        ensures LostOnly(ready, h, cutoff)
      {
        SuffixChain(ready, stored, h, cutoff);
      }
    }
  }

  lemma AscendingSnoc(h: seq<real>, t: real, now: real)
    requires AscendingTo(h, t) && t <= now
    ensures AscendingTo(h, now) && AscendingTo(h + [now], now)
  {
  }

  lemma SuffixSnoc(dq: seq<real>, h: seq<real>, x: real, cutoff: real)
    requires IsSuffix(dq, h)
    ensures IsSuffix(dq + [x], h + [x])
    ensures LostOnly(dq, h, cutoff) ==> LostOnly(dq + [x], h + [x], cutoff)
  {
    assert (h + [x])[|h| - |dq|..] == h[|h| - |dq|..] + [x];
  }

  /** The key that was called: its deque stays a suffix of the admitted hits, and loses only what left its window. */
  lemma CalledKey(l: Limiter, g: Ledger, c: Call, window: int, t: real)
    requires Sound(l, g, t) && Timely([c], t)
    ensures var (l', a) := Step(l, c, window); var g' := Recorded(g, c, a); var cutoff := c.now - window as real;
            && IsSuffix(Get(l'.windows, c.key), Get(g', c.key))
            && (LostOnly(Get(Ready(l, c), c.key), Get(g, c.key), cutoff) ==>
                  LostOnly(Get(l'.windows, c.key), Get(g', c.key), cutoff)
                  && a == Verdict(Get(g, c.key), c.limit, window, c.now))
  {
    hide Step, Pruned, RetryAfter, Ready, IsSuffix, LostOnly;
    StepEffect(l, c, window);
    ReadySuffix(l, g, c, t, c.key);
    var ready, h, cutoff := Get(Ready(l, c), c.key), Get(g, c.key), c.now - window as real;
    PrunedSuffix(ready, cutoff);
    SuffixChain(Pruned(ready, cutoff), ready, h, cutoff);
    SuffixSnoc(Pruned(ready, cutoff), h, c.now, cutoff);
    if LostOnly(ready, h, cutoff) { RecentOfDeque(ready, h, cutoff); }
  }

  /** Whatever windows are used on a key, its deque is a suffix of the admitted hits, sorted and never empty. */
  lemma StepKeepsSound(l: Limiter, g: Ledger, c: Call, window: int, t: real)
    requires Sound(l, g, t) && Timely([c], t)
    ensures var (l', a) := Step(l, c, window); Sound(l', Recorded(g, c, a), c.now)
  {
    hide Step, Ready, IsSuffix, LostOnly, AscendingTo, RetryAfter, Pruned;
    var (l', a) := Step(l, c, window);
    var g' := Recorded(g, c, a);
    StepEffect(l, c, window);
    CalledKey(l, g, c, window, t);
    forall k ensures IsSuffix(Get(l'.windows, k), Get(g', k)) && AscendingTo(Get(g', k), c.now) {
      ReadySuffix(l, g, c, t, k);
      AscendingSnoc(Get(g, k), t, c.now);
    }
  }

  lemma LostOnlyLater(dq: seq<real>, h: seq<real>, c: real, d: real)
    requires LostOnly(dq, h, c) && c <= d
    ensures LostOnly(dq, h, d)
  {
  }

  /** Over any calls, each with a window of its own: the limiter and the ledger of what it admitted. */
  function Played(l: Limiter, g: Ledger, calls: seq<Call>, windows: seq<int>): (Limiter, Ledger)
    requires |windows| == |calls|
    decreases |calls|
  {
    if calls == [] then (l, g) else
    var (l', a) := Step(l, calls[0], windows[0]);
    Played(l', Recorded(g, calls[0], a), calls[1..], windows[1..])
  }

  /** However windows are mixed, every stored deque is a non-empty sorted suffix of its key's admitted hits. */
  lemma {:induction false} DequesAreSuffixes(l: Limiter, g: Ledger, calls: seq<Call>, windows: seq<int>, t: real)
    requires |windows| == |calls| && Sound(l, g, t) && Timely(calls, t)
    ensures var (l', g') := Played(l, g, calls, windows);
            Sound(l', g', if calls == [] then t else calls[|calls| - 1].now)
    decreases |calls|
  {
    hide Step, Sound, Recorded;
    if calls != [] {
      TimelyTail(calls, t);
      StepKeepsSound(l, g, calls[0], windows[0], t);
      var (l', a) := Step(l, calls[0], windows[0]);
      DequesAreSuffixes(l', Recorded(g, calls[0], a), calls[1..], windows[1..], calls[0].now);
    }
  }

  lemma ReadyKeepsWindow(l: Limiter, g: Ledger, w: string -> int, c: Call, t: real, k: string)
    requires Faithful(l, g, w, t) && Timely([c], t) && w(k) <= l.maxWindow
    ensures LostOnly(Get(Ready(l, c), k), Get(g, k), c.now - w(k) as real)
  {
    hide Ready, IsSuffix, LostOnly, AscendingTo;
    ReadySuffix(l, g, c, t, k);
    LostOnlyLater(Get(l.windows, k), Get(g, k), t - w(k) as real, c.now - w(k) as real);
  }

  /** With one window per key, no longer than the sweep's, the answer is the ledger's answer. */
  lemma StepIsFaithful(l: Limiter, g: Ledger, w: string -> int, c: Call, t: real)
    requires Faithful(l, g, w, t) && Timely([c], t) && forall k :: w(k) <= l.maxWindow
    ensures var (l', a) := Step(l, c, w(c.key));
            && a == Verdict(Get(g, c.key), c.limit, w(c.key), c.now)
            && Faithful(l', LedgerAfter(g, c, w(c.key)), w, c.now) && l'.maxWindow == l.maxWindow
  {
    hide Step, Ready, IsSuffix, LostOnly, AscendingTo, Verdict, RetryAfter, Pruned;
    var (l', a) := Step(l, c, w(c.key));
    StepEffect(l, c, w(c.key));
    StepKeepsSound(l, g, c, w(c.key), t);
    ReadyKeepsWindow(l, g, w, c, t, c.key);
    CalledKey(l, g, c, w(c.key), t);
    var g' := LedgerAfter(g, c, w(c.key));
    assert g' == Recorded(g, c, a);
    hide Sound;
    forall k ensures LostOnly(Get(l'.windows, k), Get(g', k), c.now - w(k) as real) {
      if k != c.key {
        ReadyKeepsWindow(l, g, w, c, t, k);
        assert Get(l'.windows, k) == Get(Ready(l, c), k) && Get(g', k) == Get(g, k);
      }
    }
  }

  // ----- whole call sequences

  lemma TimelyTail(calls: seq<Call>, t: real)
    requires Timely(calls, t) && calls != []
    ensures Timely([calls[0]], t) && Timely(calls[1..], calls[0].now)
  {
    assert [calls[0]][1..] == [];
  }

  lemma {:induction false} TimelyLimits(calls: seq<Call>, t: real)
    requires Timely(calls, t)
    ensures forall k :: 0 <= k < |calls| ==> calls[k].limit >= 1
    decreases |calls|
  {
    if calls != [] { TimelyLimits(calls[1..], calls[0].now); }
  }

  /**
    Refinement: over any sequence of hits and checks, on any keys, with any
    positive limits, pruning and sweeping cannot be observed.
   */
  lemma {:induction false} LimiterRefinesLedger(l: Limiter, g: Ledger, w: string -> int, calls: seq<Call>, t: real)
    requires Faithful(l, g, w, t) && Timely(calls, t) && forall k :: w(k) <= l.maxWindow
    ensures (forall k :: 0 <= k < |calls| ==> calls[k].limit >= 1)
            && Answers(l, w, calls) == LedgerAnswers(g, w, calls)
    decreases |calls|
  {
    hide Step, Verdict, Faithful, LedgerAfter;
    TimelyLimits(calls, t);
    if calls != [] {
      var c := calls[0];
      TimelyTail(calls, t);
      StepIsFaithful(l, g, w, c, t);
      LimiterRefinesLedger(Step(l, c, w(c.key)).0, LedgerAfter(g, c, w(c.key)), w, calls[1..], c.now);
    }
  }

  lemma FreshLimiterIsFaithful(maxWindow: int, w: string -> int, now: real)
    ensures Faithful(Limiter(map[], maxWindow, 0), map[], w, now)
  {
  }

  /** A hit raises exactly when the limit is not positive and nothing is live; it then leaves an empty deque behind. */
  lemma HitRaisesExactly(l: Limiter, key: string, limit: int, window: int, sweepAt: real, now: real)
    requires CanSweep(l.windows)
    ensures var (l', a) := HitResult(l, key, limit, window, sweepAt, now);
            var dq := Pruned(Get(Ready(l, Hit(key, limit, sweepAt, now)), key), now - window as real);
            && (a == IndexError <==> limit <= 0 && dq == [])
            && (a == IndexError <==> !CanSweep(l'.windows))
  {
    var l' := HitResult(l, key, limit, window, sweepAt, now).0;
    assert l'.windows[key] == [] || l'.windows[key] != [];
  }

  // ----- how many hits fit in a window

  function LedgerRun(g: Ledger, w: string -> int, calls: seq<Call>): Ledger
    requires forall k :: 0 <= k < |calls| ==> calls[k].limit >= 1
    decreases |calls|
  {
    if calls == [] then g else LedgerRun(LedgerAfter(g, calls[0], w(calls[0].key)), w, calls[1..])
  }

  function LastTime(calls: seq<Call>, t: real): real { if calls == [] then t else calls[|calls| - 1].now }

  /** Any `limit + 1` consecutive admitted hits span at least a window. */
  predicate SpreadOut(h: seq<real>, limit: nat, window: int)
  {
    forall k :: limit <= k < |h| ==> h[k - limit] + window as real <= h[k]
  }

  lemma RecentAtLeast(h: seq<real>, cutoff: real, i: nat)
    requires Ascending(h) && i < |h| && h[i] > cutoff
    ensures |Recent(h, cutoff)| >= |h| - i
  {
    assert h == h[..i] + h[i..];
    RecentConcat(h[..i], h[i..], cutoff);
    RecentAll(h[i..], cutoff);
  }

  lemma AdmittedKeepsSpread(h: seq<real>, limit: int, window: int, now: real)
    requires limit >= 1 && AscendingTo(h, now) && SpreadOut(h, limit, window)
    requires Verdict(h, limit, window, now) == Retry(0)
    ensures SpreadOut(h + [now], limit, window)
  {
    if |h| >= limit && h[|h| - limit] > now - window as real {
      RecentAtLeast(h, now - window as real, |h| - limit);
    }
  }

  lemma {:induction false} LedgerStaysSpread(g: Ledger, w: string -> int, calls: seq<Call>, t: real, until: real,
                                             key: string, limit: int)
    requires Timely(calls, t) && t <= until && forall k :: 0 <= k < |calls| ==> calls[k].now <= until
    requires limit >= 1 && AscendingTo(Get(g, key), t) && SpreadOut(Get(g, key), limit, w(key))
    requires forall k :: 0 <= k < |calls| && calls[k].key == key ==> calls[k].limit == limit
    ensures (forall k :: 0 <= k < |calls| ==> calls[k].limit >= 1)
            && SpreadOut(Get(LedgerRun(g, w, calls), key), limit, w(key))
            && AscendingTo(Get(LedgerRun(g, w, calls), key), until)
    decreases |calls|
  {
    hide Verdict, SpreadOut, RetryAfter;
    TimelyLimits(calls, t);
    if calls != [] {
      var c := calls[0];
      var g' := LedgerAfter(g, c, w(c.key));
      AscendingSnoc(Get(g, key), t, c.now);
      if g' != g && c.key == key { AdmittedKeepsSpread(Get(g, key), limit, w(key), c.now); }
      LedgerStaysSpread(g', w, calls[1..], c.now, until, key, limit);
    }
  }

  function Span(m: nat, n: nat): (s: set<int>)
    ensures |s| == n && forall i :: i in s <==> m <= i < m + n
  {
    if n == 0 then {} else Span(m, n - 1) + {m + n - 1}
  }

  lemma SubsetSmaller(a: set<int>, b: set<int>)
    requires a <= b
    ensures |a| <= |b|
  {
    assert b == a + (b - a);
  }

  /** The least member of a set of indices, or `n` when there is none. */
  lemma FirstIn(s: set<int>, n: nat) returns (m: nat)
    ensures m <= n && (m < n ==> m in s) && forall i :: 0 <= i < m ==> i !in s
  {
    m := 0;
    while m < n && m !in s
      invariant m <= n && forall i :: 0 <= i < m ==> i !in s
    {
      m := m + 1;
    }
  }

  /** Which admitted hits fall in `[from, from + window)`, and in `(from, from + window]`. */
  ghost function HitsFrom(h: seq<real>, from: real, window: int): set<int>
  {
    set i | 0 <= i < |h| && from <= h[i] < from + window as real
  }

  ghost function HitsAfter(h: seq<real>, from: real, window: int): set<int>
  {
    set i | 0 <= i < |h| && from < h[i] <= from + window as real
  }

  lemma SpreadPairs(h: seq<real>, limit: nat, window: int)
    requires Ascending(h) && SpreadOut(h, limit, window)
    ensures forall i, j :: 0 <= i && i + limit <= j < |h| ==> h[i] + window as real <= h[j]
  {
    forall i, j | 0 <= i && i + limit <= j < |h| ensures h[i] + window as real <= h[j] {
      assert h[i + limit - limit] + window as real <= h[i + limit];
      assert h[i + limit] <= h[j];
    }
  }

  lemma IndexSetSmall(h: seq<real>, limit: int, window: int, s: set<int>)
    requires limit >= 1 && Ascending(h) && SpreadOut(h, limit, window)
    requires forall i :: i in s ==> 0 <= i < |h|
    requires forall i, j :: i in s && j in s ==> h[j] < h[i] + window as real
    ensures |s| <= limit
  {
    var m := FirstIn(s, |h|);
    SpreadPairs(h, limit, window);
    SubsetSmaller(s, Span(m, limit));
  }

  lemma IntervalHoldsAtMostLimit(h: seq<real>, limit: int, window: int, from: real)
    requires limit >= 1 && Ascending(h) && SpreadOut(h, limit, window)
    ensures |HitsFrom(h, from, window)| <= limit
    ensures |HitsAfter(h, from, window)| <= limit
  {
    IndexSetSmall(h, limit, window, HitsFrom(h, from, window));
    IndexSetSmall(h, limit, window, HitsAfter(h, from, window));
  }

  /** `past` followed by the times of the key's hits that were answered with 0. */
  function AdmittedTimes(past: seq<real>, calls: seq<Call>, answers: seq<Answer>, key: string): seq<real>
    requires |answers| == |calls|
    decreases |calls|
  {
    if calls == [] then past else
    var admitted := calls[0].Hit? && calls[0].key == key && answers[0] == Retry(0);
    AdmittedTimes(if admitted then past + [calls[0].now] else past, calls[1..], answers[1..], key)
  }

  lemma LedgerCollectsOne(g: Ledger, c: Call, window: int, key: string)
    requires c.limit >= 1
    ensures var admitted := c.Hit? && c.key == key && Verdict(Get(g, c.key), c.limit, window, c.now) == Retry(0);
            Get(LedgerAfter(g, c, window), key) == (if admitted then Get(g, key) + [c.now] else Get(g, key))
  {
  }

  lemma LedgerUnfold(g: Ledger, w: string -> int, calls: seq<Call>)
    requires calls != [] && forall k :: 0 <= k < |calls| ==> calls[k].limit >= 1
    ensures var c := calls[0]; var g' := LedgerAfter(g, c, w(c.key));
            && LedgerRun(g, w, calls) == LedgerRun(g', w, calls[1..])
            && LedgerAnswers(g, w, calls)[0] == Verdict(Get(g, c.key), c.limit, w(c.key), c.now)
            && LedgerAnswers(g, w, calls)[1..] == LedgerAnswers(g', w, calls[1..])
  {
    hide Verdict, LedgerAfter, Get;
  }

  lemma {:induction false} LedgerCollects(g: Ledger, w: string -> int, calls: seq<Call>, key: string)
    requires forall k :: 0 <= k < |calls| ==> calls[k].limit >= 1
    ensures Get(LedgerRun(g, w, calls), key) == AdmittedTimes(Get(g, key), calls, LedgerAnswers(g, w, calls), key)
    decreases |calls|
  {
    if calls != [] {
      LedgerUnfold(g, w, calls);
      LedgerCollectsOne(g, calls[0], w(calls[0].key), key);
      hide Verdict, Get, LedgerAfter, LedgerRun, LedgerAnswers;
      LedgerCollects(LedgerAfter(g, calls[0], w(calls[0].key)), w, calls[1..], key);
    }
  }

  lemma LedgerIsSpread(w: string -> int, calls: seq<Call>, t: real, key: string, limit: int)
    requires Timely(calls, t) && limit >= 1
    requires forall k :: 0 <= k < |calls| && calls[k].key == key ==> calls[k].limit == limit
    ensures (forall k :: 0 <= k < |calls| ==> calls[k].limit >= 1)
            && var h := Get(LedgerRun(map[], w, calls), key); Ascending(h) && SpreadOut(h, limit, w(key))
  {
    assert SpreadOut(Get(map[], key), limit, w(key));
    hide Timely, SpreadOut, LedgerRun, Get;
    if calls != [] { TimelyPrefix(calls, t, |calls| - 1); }
    LedgerStaysSpread(map[], w, calls, t, LastTime(calls, t), key, limit);
  }

  /** The hits a fresh limiter admits for a key are those the ledger admits: sorted, and spread out. */
  lemma AdmittedAreSpread(maxWindow: int, w: string -> int, calls: seq<Call>, t: real, key: string, limit: int)
    requires Timely(calls, t) && limit >= 1 && forall k :: w(k) <= maxWindow
    requires forall k :: 0 <= k < |calls| && calls[k].key == key ==> calls[k].limit == limit
    ensures var h := AdmittedTimes([], calls, Answers(Limiter(map[], maxWindow, 0), w, calls), key);
            Ascending(h) && SpreadOut(h, limit, w(key))
  {
    assert Get(map[], key) == [];
    hide *;
    LedgerIsSpread(w, calls, t, key, limit);
    LedgerCollects(map[], w, calls, key);
    FreshLimiterIsFaithful(maxWindow, w, t);
    LimiterRefinesLedger(Limiter(map[], maxWindow, 0), map[], w, calls, t);
  }

  /** In every run of a fresh limiter, no interval of window length holds more than `limit` of a key's admitted hits. */
  lemma NeverOverLimit(maxWindow: int, w: string -> int, calls: seq<Call>, t: real, key: string, limit: int, from: real)
    requires Timely(calls, t) && limit >= 1 && forall k :: w(k) <= maxWindow
    requires forall k :: 0 <= k < |calls| && calls[k].key == key ==> calls[k].limit == limit
    ensures var h := AdmittedTimes([], calls, Answers(Limiter(map[], maxWindow, 0), w, calls), key);
            |HitsFrom(h, from, w(key))| <= limit && |HitsAfter(h, from, w(key))| <= limit
  {
    hide *;
    AdmittedAreSpread(maxWindow, w, calls, t, key, limit);
    IntervalHoldsAtMostLimit(AdmittedTimes([], calls, Answers(Limiter(map[], maxWindow, 0), w, calls), key),
                             limit, w(key), from);
  }

  // ----- the retry hint

  lemma {:induction false} RecentNotLonger(h: seq<real>, cutoff: real)
    ensures |Recent(h, cutoff)| <= |h|
  {
    if h != [] { RecentNotLonger(h[1..], cutoff); }
  }

  /** The live hits are the tail of a sorted ledger. */
  lemma RecentIsTail(h: seq<real>, cutoff: real)
    requires Ascending(h)
    ensures |Recent(h, cutoff)| <= |h| && Recent(h, cutoff) == h[|h| - |Recent(h, cutoff)|..]
  {
    PrunedIsRecent(h, cutoff);
    PrunedSuffix(h, cutoff);
  }

  lemma RecentAtMost(h: seq<real>, cutoff: real, i: nat)
    requires Ascending(h) && i < |h| && h[i] <= cutoff
    ensures |Recent(h, cutoff)| <= |h| - 1 - i
  {
    assert h == h[..i + 1] + h[i + 1..];
    RecentConcat(h[..i + 1], h[i + 1..], cutoff);
    RecentNone(h[..i + 1], cutoff);
    RecentNotLonger(h[i + 1..], cutoff);
  }

  lemma LiveAtMostLimit(h: seq<real>, limit: int, window: int, now: real)
    requires limit >= 1 && AscendingTo(h, now) && SpreadOut(h, limit, window)
    ensures |Recent(h, now - window as real)| <= limit
  {
    hide Recent;
    RecentNotLonger(h, now - window as real);
    if |h| > limit {
      SpreadPairs(h, limit, window);
      assert h[|h| - 1 - limit] + window as real <= h[|h| - 1];
      RecentAtMost(h, now - window as real, |h| - 1 - limit);
    }
  }

  lemma HintOnLedger(h: seq<real>, limit: int, window: int, now: real)
    requires limit >= 1 && AscendingTo(h, now) && SpreadOut(h, limit, window)
    requires Verdict(h, limit, window, now) != Retry(0)
    ensures 1 <= Verdict(h, limit, window, now).seconds <= window + 1
    ensures forall later :: later >= now + Verdict(h, limit, window, now).seconds as real
                            ==> Verdict(h, limit, window, later) == Retry(0)
  {
    hide Recent;
    var live := Recent(h, now - window as real);
    LiveAtMostLimit(h, limit, window, now);
    RecentIsTail(h, now - window as real);
    var i := |h| - |live|;
    assert live[0] == h[i] && live[0] in live;
    RecentMembers(h, now - window as real);
    assert h[i] + window as real - now <= window as real;
    forall later | later >= now + Verdict(h, limit, window, now).seconds as real
      ensures Verdict(h, limit, window, later) == Retry(0)
    {
      RecentAtMost(h, later - window as real, i);
    }
  }

  lemma {:induction false} TimelyPrefix(calls: seq<Call>, t: real, i: nat)
    requires Timely(calls, t) && i < |calls|
    ensures Timely(calls[..i], t) && t <= calls[i].now
    ensures forall k :: 0 <= k < i ==> calls[k].now <= calls[i].now
    decreases |calls|
  {
    if i > 0 {
      TimelyPrefix(calls[1..], calls[0].now, i - 1);
      assert calls[..i][1..] == calls[1..][..i - 1];
      assert forall k :: 1 <= k < i ==> calls[k] == calls[1..][k - 1];
    }
  }

  /** The ledger as call `i` finds it decides the answer to call `i` and the ledger call `i + 1` finds. */
  lemma {:induction false} LedgerAt(g: Ledger, w: string -> int, calls: seq<Call>, i: nat)
    requires i < |calls| && forall k :: 0 <= k < |calls| ==> calls[k].limit >= 1
    ensures var c, found := calls[i], LedgerRun(g, w, calls[..i]);
            && LedgerAnswers(g, w, calls)[i] == Verdict(Get(found, c.key), c.limit, w(c.key), c.now)
            && LedgerRun(g, w, calls[..i + 1]) == LedgerAfter(found, c, w(c.key))
    decreases |calls|
  {
    hide Verdict, LedgerAfter;
    if i == 0 {
      assert calls[..1][1..] == [];
    } else {
      LedgerAt(LedgerAfter(g, calls[0], w(calls[0].key)), w, calls[1..], i - 1);
      assert calls[..i][1..] == calls[1..][..i - 1] && calls[..i + 1][1..] == calls[1..][..i];
    }
  }

  lemma {:induction false} NothingAdmitted(g: Ledger, w: string -> int, calls: seq<Call>, key: string, i: nat, j: nat)
    requires i <= j < |calls| && forall k :: 0 <= k < |calls| ==> calls[k].limit >= 1
    requires forall k :: i <= k < j && calls[k].Hit? && calls[k].key == key
                         ==> LedgerAnswers(g, w, calls)[k] != Retry(0)
    ensures Get(LedgerRun(g, w, calls[..j]), key) == Get(LedgerRun(g, w, calls[..i]), key)
    decreases j
  {
    hide Verdict, LedgerRun, LedgerAnswers;
    if i < j {
      NothingAdmitted(g, w, calls, key, i, j - 1);
      LedgerAt(g, w, calls, j - 1);
    }
  }

  /** What call `i` on a key finds: a ledger that is sorted, past and spread out. */
  lemma FoundLedger(maxWindow: int, w: string -> int, calls: seq<Call>, t: real, key: string, limit: int, i: nat)
    requires Timely(calls, t) && limit >= 1 && i < |calls| && calls[i].key == key && forall k :: w(k) <= maxWindow
    requires forall k :: 0 <= k < |calls| && calls[k].key == key ==> calls[k].limit == limit
    ensures forall k :: 0 <= k < |calls| ==> calls[k].limit >= 1
    ensures var h := Get(LedgerRun(map[], w, calls[..i]), key);
            && AscendingTo(h, calls[i].now) && SpreadOut(h, limit, w(key))
            && Answers(Limiter(map[], maxWindow, 0), w, calls) == LedgerAnswers(map[], w, calls)
            && LedgerAnswers(map[], w, calls)[i] == Verdict(h, limit, w(key), calls[i].now)
  {
    assert SpreadOut(Get(map[], key), limit, w(key));
    hide Timely, Faithful, SpreadOut, Answers, LedgerAnswers, LedgerRun, Verdict;
    TimelyLimits(calls, t);
    TimelyPrefix(calls, t, i);
    LedgerStaysSpread(map[], w, calls[..i], t, calls[i].now, key, limit);
    FreshLimiterIsFaithful(maxWindow, w, t);
    LimiterRefinesLedger(Limiter(map[], maxWindow, 0), map[], w, calls, t);
    LedgerAt(map[], w, calls, i);
  }

  /**
    In every run of a fresh limiter: a refused call on a key is told between
    1 second and the window plus 1, and if no hit on that key is admitted
    meanwhile, a hit that waits so long is admitted.
   */
  lemma RetryHintWorks(maxWindow: int, w: string -> int, calls: seq<Call>, t: real, key: string, limit: int, i: nat)
    requires Timely(calls, t) && limit >= 1 && i < |calls| && calls[i].key == key && forall k :: w(k) <= maxWindow
    requires forall k :: 0 <= k < |calls| && calls[k].key == key ==> calls[k].limit == limit
    requires Answers(Limiter(map[], maxWindow, 0), w, calls)[i] != Retry(0)
    ensures var a := Answers(Limiter(map[], maxWindow, 0), w, calls);
            && a[i].Retry? && 1 <= a[i].seconds <= w(key) + 1
            && forall j :: i < j < |calls| && calls[j].Hit? && calls[j].key == key
                           && calls[j].now >= calls[i].now + a[i].seconds as real
                           && (forall k :: i < k < j && calls[k].Hit? && calls[k].key == key ==> a[k] != Retry(0))
                           ==> a[j] == Retry(0)
  {
    hide Timely, SpreadOut, AscendingTo, Answers, LedgerAnswers, LedgerRun;
    var a := Answers(Limiter(map[], maxWindow, 0), w, calls);
    FoundLedger(maxWindow, w, calls, t, key, limit, i);
    var h := Get(LedgerRun(map[], w, calls[..i]), key);
    HintOnLedger(h, limit, w(key), calls[i].now);
    hide Verdict;
    forall j | i < j < |calls| && calls[j].Hit? && calls[j].key == key
               && calls[j].now >= calls[i].now + a[i].seconds as real
               && (forall k :: i < k < j && calls[k].Hit? && calls[k].key == key ==> a[k] != Retry(0))
      ensures a[j] == Retry(0)
    {
      FoundLedger(maxWindow, w, calls, t, key, limit, j);
      NothingAdmitted(map[], w, calls, key, i, j);
    }
  }

  // ----- when a call is let through

  /** In a sorted ledger the live hits are the last ones. */
  lemma LiveAreLast(h: seq<real>, cutoff: real, i: nat)
    requires Ascending(h) && i < |h|
    ensures h[i] > cutoff <==> |h| - |Recent(h, cutoff)| <= i
  {
    hide Recent;
    if h[i] > cutoff { RecentAtLeast(h, cutoff, i); } else { RecentAtMost(h, cutoff, i); }
  }

  /** Counting live hits is counting the admitted hits after the cutoff. */
  lemma RecentCounts(h: seq<real>, window: int, now: real)
    requires AscendingTo(h, now)
    ensures |HitsAfter(h, now - window as real, window)| == |Recent(h, now - window as real)|
  {
    hide Recent;
    var cutoff := now - window as real;
    var n := |Recent(h, cutoff)|;
    RecentNotLonger(h, cutoff);
    forall i | 0 <= i < |h| ensures h[i] > cutoff <==> |h| - n <= i { LiveAreLast(h, cutoff, i); }
    assert HitsAfter(h, cutoff, window) == Span(|h| - n, n);
  }

  /**
    In every run of a fresh limiter, call `i` is let through exactly when
    fewer than `limit` hits admitted for its key before it lie within the
    window that ends now.
   */
  lemma LetThroughExactly(maxWindow: int, w: string -> int, calls: seq<Call>, t: real, key: string, limit: int, i: nat)
    requires Timely(calls, t) && limit >= 1 && i < |calls| && calls[i].key == key && forall k :: w(k) <= maxWindow
    requires forall k :: 0 <= k < |calls| && calls[k].key == key ==> calls[k].limit == limit
    ensures var l := Limiter(map[], maxWindow, 0);
            var h := AdmittedTimes([], calls[..i], Answers(l, w, calls[..i]), key);
            Answers(l, w, calls)[i] == Retry(0) <==>
            |HitsAfter(h, calls[i].now - w(key) as real, w(key))| < limit
  {
    hide *;
    var l := Limiter(map[], maxWindow, 0);
    FoundLedger(maxWindow, w, calls, t, key, limit, i);
    var h := Get(LedgerRun(map[], w, calls[..i]), key);
    FoundIsAdmitted(maxWindow, w, calls, t, key, i);
    RecentCounts(h, w(key), calls[i].now);
    VerdictCounts(h, limit, w(key), calls[i].now);
  }

  lemma VerdictCounts(h: seq<real>, limit: int, window: int, now: real)
    requires limit >= 1
    ensures Verdict(h, limit, window, now) == Retry(0) <==> |Recent(h, now - window as real)| < limit
  {
  }

  /** The ledger that call `i` finds is what the limiter has admitted by then. */
  lemma FoundIsAdmitted(maxWindow: int, w: string -> int, calls: seq<Call>, t: real, key: string, i: nat)
    requires Timely(calls, t) && i < |calls| && forall k :: w(k) <= maxWindow
    ensures (forall k :: 0 <= k < i ==> calls[..i][k].limit >= 1)
            && Get(LedgerRun(map[], w, calls[..i]), key)
               == AdmittedTimes([], calls[..i], Answers(Limiter(map[], maxWindow, 0), w, calls[..i]), key)
  {
    assert Get(map[], key) == [];
    hide *;
    TimelyPrefix(calls, t, i);
    TimelyLimits(calls[..i], t);
    FreshLimiterIsFaithful(maxWindow, w, t);
    LimiterRefinesLedger(Limiter(map[], maxWindow, 0), map[], w, calls[..i], t);
    LedgerCollects(map[], w, calls[..i], key);
  }

  // ----- and the hint is no longer than it must be

  lemma HintIsTight(h: seq<real>, limit: int, window: int, now: real, later: real)
    requires limit >= 1 && AscendingTo(h, now) && Verdict(h, limit, window, now) != Retry(0)
    requires now <= later < now + (Verdict(h, limit, window, now).seconds - 1) as real
    ensures Verdict(h, limit, window, later) != Retry(0)
  {
    hide Recent;
    var live := Recent(h, now - window as real);
    RecentIsTail(h, now - window as real);
    var i := |h| - |live|;
    assert live[0] == h[i] && live[0] in live;
    RecentMembers(h, now - window as real);
    RecentAtLeast(h, later - window as real, i);
  }

  lemma {:induction false} TimelyOrder(calls: seq<Call>, t: real, i: nat, j: nat)
    requires Timely(calls, t) && i <= j < |calls|
    ensures calls[i].now <= calls[j].now
  {
    TimelyPrefix(calls, t, j);
  }

  /** Any hit on the key more than a second before the time the hint names is still refused. */
  lemma {:induction false} StillRefused(maxWindow: int, w: string -> int, calls: seq<Call>, t: real, key: string,
                                        limit: int, i: nat, j: nat)
    requires Timely(calls, t) && limit >= 1 && i < j < |calls| && calls[i].key == key && forall k :: w(k) <= maxWindow
    requires forall k :: 0 <= k < |calls| && calls[k].key == key ==> calls[k].limit == limit
    requires Answers(Limiter(map[], maxWindow, 0), w, calls)[i] != Retry(0)
    requires calls[j].Hit? && calls[j].key == key
    requires var a := Answers(Limiter(map[], maxWindow, 0), w, calls);
             a[i].Retry? && calls[j].now < calls[i].now + (a[i].seconds - 1) as real
    ensures Answers(Limiter(map[], maxWindow, 0), w, calls)[j] != Retry(0)
    decreases j
  {
    hide Timely, SpreadOut, AscendingTo, Answers, LedgerAnswers, LedgerRun, Verdict;
    var a := Answers(Limiter(map[], maxWindow, 0), w, calls);
    forall k | i < k < j && calls[k].Hit? && calls[k].key == key ensures a[k] != Retry(0) {
      TimelyOrder(calls, t, k, j);
      StillRefused(maxWindow, w, calls, t, key, limit, i, k);
    }
    FoundLedger(maxWindow, w, calls, t, key, limit, i);
    FoundLedger(maxWindow, w, calls, t, key, limit, j);
    NothingAdmitted(map[], w, calls, key, i, j);
    TimelyOrder(calls, t, i, j);
    HintIsTight(Get(LedgerRun(map[], w, calls[..i]), key), limit, w(key), calls[i].now, calls[j].now);
  }

  // ----- what the sweep is for

  function Hits(calls: seq<Call>): nat
  {
    if calls == [] then 0 else (if calls[0].Hit? then 1 else 0) + Hits(calls[1..])
  }

  /** The key is not stored, or its newest hit is older than the longest window at every sweep of these calls. */
  predicate Stale(l: Limiter, key: string, calls: seq<Call>)
  {
    key in l.windows ==>
      && l.windows[key] != []
      && forall k :: 0 <= k < |calls| && calls[k].Hit? ==>
           l.windows[key][|l.windows[key]| - 1] <= calls[k].sweepAt - l.maxWindow as real
  }

  lemma StepCounts(l: Limiter, c: Call, window: int, key: string)
    requires CanSweep(l.windows) && c.limit >= 1 && key != c.key
    ensures var l' := Step(l, c, window).0;
            && l'.hitCount == l.hitCount + (if c.Hit? then 1 else 0) && l'.maxWindow == l.maxWindow
            && CanSweep(l'.windows)
            && (key in l'.windows ==> key in l.windows && l'.windows[key] == l.windows[key])
            && (c.Hit? && l'.hitCount % SWEEP_EVERY == 0 && key in l'.windows ==>
                  l'.windows[key][|l'.windows[key]| - 1] > c.sweepAt - l.maxWindow as real)
  {
  }

  /** No entry outlives its use: after 500 further hits, on whatever other keys, a stale key is no longer stored. */
  lemma {:induction false} StaleKeysAreEvicted(l: Limiter, g: Ledger, calls: seq<Call>, windows: seq<int>, key: string)
    requires CanSweep(l.windows) && |windows| == |calls| && Stale(l, key, calls)
    requires forall k :: 0 <= k < |calls| ==> calls[k].limit >= 1 && calls[k].key != key
    requires key !in l.windows || Hits(calls) >= SWEEP_EVERY - l.hitCount % SWEEP_EVERY
    ensures key !in Played(l, g, calls, windows).0.windows
    decreases |calls|
  {
    hide Step;
    if calls != [] {
      var c := calls[0];
      StepCounts(l, c, windows[0], key);
      var (l', a) := Step(l, c, windows[0]);
      StaleKeysAreEvicted(l', Recorded(g, c, a), calls[1..], windows[1..], key);
    }
  }
}
