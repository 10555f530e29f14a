/**
  Two call sites of one limiter that use the same key with different windows,
  as registration (short) and websocket authentication (long) do with the
  caller's address. Each site always passes its own limit and its own window.
 */
module SharedWindows {
  import opened RateLimit
  import opened Limits

  datatype Site = Short | Long

  datatype Sites = Sites(shortLimit: int, shortWindow: int, longLimit: int, longWindow: int)
  {
    predicate Valid(maxWindow: int)
    {
      shortLimit >= 1 && longLimit >= 1 && 0 < shortWindow <= longWindow <= maxWindow
    }

    function Limit(s: Site): int { if s.Short? then shortLimit else longLimit }
    function Window(s: Site): int { if s.Short? then shortWindow else longWindow }
  }

  datatype SiteCall =
    | SiteHit(site: Site, key: string, sweepAt: real, now: real)
    | SiteCheck(site: Site, key: string, now: real)

  function AsCall(cfg: Sites, c: SiteCall): Call
  {
    match c
    case SiteHit(site, key, sweepAt, now) => Hit(key, cfg.Limit(site), sweepAt, now)
    case SiteCheck(site, key, now) => Blocked(key, cfg.Limit(site), now)
  }

  function AsCalls(cfg: Sites, calls: seq<SiteCall>): seq<Call>
  {
    if calls == [] then [] else [AsCall(cfg, calls[0])] + AsCalls(cfg, calls[1..])
  }

  function SharedAnswers(l: Limiter, cfg: Sites, calls: seq<SiteCall>): seq<Answer>
    decreases |calls|
  {
    if calls == [] then [] else
    var (l', a) := Step(l, AsCall(cfg, calls[0]), cfg.Window(calls[0].site));
    [a] + SharedAnswers(l', cfg, calls[1..])
  }

  function SharedLedgerAnswers(g: Ledger, cfg: Sites, calls: seq<SiteCall>): seq<Answer>
    requires cfg.shortLimit >= 1 && cfg.longLimit >= 1
    decreases |calls|
  {
    if calls == [] then [] else
    var c, window := AsCall(cfg, calls[0]), cfg.Window(calls[0].site);
    [Verdict(Get(g, c.key), c.limit, window, c.now)] + SharedLedgerAnswers(LedgerAfter(g, c, window), cfg, calls[1..])
  }

  // ----- equal windows

  lemma {:induction false} EqualWindowsAgree(l: Limiter, g: Ledger, cfg: Sites, calls: seq<SiteCall>, t: real)
    requires cfg.Valid(l.maxWindow) && cfg.shortWindow == cfg.longWindow
    requires Faithful(l, g, _ => cfg.longWindow, t) && Timely(AsCalls(cfg, calls), t)
    ensures SharedAnswers(l, cfg, calls) == SharedLedgerAnswers(g, cfg, calls)
    decreases |calls|
  {
    hide Step, Verdict, Faithful, LedgerAfter;
    if calls != [] {
      var c, w := AsCall(cfg, calls[0]), (_: string) => cfg.longWindow;
      assert w == (_ => cfg.longWindow);
      TimelyTail(AsCalls(cfg, calls), t);
      assert AsCalls(cfg, calls)[1..] == AsCalls(cfg, calls[1..]);
      StepIsFaithful(l, g, w, c, t);
      EqualWindowsAgree(Step(l, c, cfg.longWindow).0, LedgerAfter(g, c, cfg.longWindow), cfg, calls[1..], c.now);
    }
  }

  // ----- different windows

  /** Long-window hits at time 0, one short-window hit a short window later, then a long-window check. */
  function Crowd(n: nat): seq<SiteCall> { seq(n, _ => SiteHit(Long, "ip", 0.0, 0.0)) }

  function Tail(cfg: Sites): seq<SiteCall>
  {
    var s := cfg.shortWindow as real;
    [SiteHit(Short, "ip", s, s), SiteCheck(Long, "ip", s)]
  }

  function Zeros(n: nat): seq<real> { seq(n, _ => 0.0) }

  function Admitted(n: nat): seq<Answer> { seq(n, _ => Retry(0)) }

  /** What the limiter answers at the end, and what the ledger answers. */
  function Forgetful(cfg: Sites): Answer { Retry(if cfg.longLimit == 1 then cfg.longWindow + 1 else 0) }
  function Remembering(cfg: Sites): Answer { Retry(cfg.longWindow - cfg.shortWindow + 1) }

  /** Both sides have recorded `n` hits of the address at time 0. */
  predicate Recorded0(l: Limiter, g: Ledger, n: nat)
  {
    CanSweep(l.windows) && Get(l.windows, "ip") == Zeros(n) && Get(g, "ip") == Zeros(n)
  }

  lemma NothingSwept(l: Limiter, n: nat, c: Call)
    requires CanSweep(l.windows) && Get(l.windows, "ip") == Zeros(n)
    requires c.Hit? ==> c.sweepAt < l.maxWindow as real
    ensures Get(Ready(l, c), "ip") == Zeros(n)
  {
    if n > 0 { assert l.windows["ip"][n - 1] == 0.0; }
  }

  lemma LongHit(l: Limiter, g: Ledger, cfg: Sites, n: nat)
    requires cfg.Valid(l.maxWindow) && Recorded0(l, g, n) && n < cfg.longLimit
    ensures var c := AsCall(cfg, SiteHit(Long, "ip", 0.0, 0.0)); var (l', a) := Step(l, c, cfg.longWindow);
            && a == Retry(0) && Verdict(Get(g, "ip"), cfg.longLimit, cfg.longWindow, 0.0) == Retry(0)
            && Recorded0(l', LedgerAfter(g, c, cfg.longWindow), n + 1) && l'.maxWindow == l.maxWindow
  {
    hide Step, Recent;
    var c := AsCall(cfg, SiteHit(Long, "ip", 0.0, 0.0));
    NothingSwept(l, n, c);
    StepEffect(l, c, cfg.longWindow);
    RecentAll(Zeros(n), 0.0 - cfg.longWindow as real);
    assert Zeros(n) + [0.0] == Zeros(n + 1);
  }

  lemma ShortHit(l: Limiter, g: Ledger, cfg: Sites)
    requires cfg.Valid(l.maxWindow) && cfg.shortWindow < cfg.longWindow && Recorded0(l, g, cfg.longLimit)
    ensures var c := AsCall(cfg, Tail(cfg)[0]); var (l', a) := Step(l, c, cfg.shortWindow);
            && a == Retry(0) && Verdict(Get(g, "ip"), cfg.shortLimit, cfg.shortWindow, c.now) == Retry(0)
            && CanSweep(l'.windows) && Get(l'.windows, "ip") == [c.now]
            && Get(LedgerAfter(g, c, cfg.shortWindow), "ip") == Zeros(cfg.longLimit) + [c.now]
  {
    hide Step, Recent;
    var c := AsCall(cfg, Tail(cfg)[0]);
    NothingSwept(l, cfg.longLimit, c);
    StepEffect(l, c, cfg.shortWindow);
    RecentNone(Zeros(cfg.longLimit), 0.0);
    PrunedIsRecent(Zeros(cfg.longLimit), 0.0);
  }

  lemma LongCheck(l: Limiter, g: Ledger, cfg: Sites)
    requires cfg.Valid(cfg.longWindow) && cfg.shortWindow < cfg.longWindow && CanSweep(l.windows)
    requires var s := cfg.shortWindow as real;
             Get(l.windows, "ip") == [s] && Get(g, "ip") == Zeros(cfg.longLimit) + [s]
    ensures var c := AsCall(cfg, Tail(cfg)[1]);
            && Step(l, c, cfg.longWindow).1 == Forgetful(cfg)
            && Verdict(Get(g, "ip"), cfg.longLimit, cfg.longWindow, c.now) == Remembering(cfg)
  {
    hide Step, Recent;
    var c := AsCall(cfg, Tail(cfg)[1]);
    StepEffect(l, c, cfg.longWindow);
    RecentAll(Get(g, "ip"), c.now - cfg.longWindow as real);
  }

  lemma TailAnswers(l: Limiter, g: Ledger, cfg: Sites)
    requires cfg.Valid(l.maxWindow) && cfg.shortWindow < cfg.longWindow && Recorded0(l, g, cfg.longLimit)
    ensures SharedAnswers(l, cfg, Tail(cfg)) == Admitted(1) + [Forgetful(cfg)]
    ensures SharedLedgerAnswers(g, cfg, Tail(cfg)) == Admitted(1) + [Remembering(cfg)]
  {
    hide Step, Verdict, LedgerAfter, Recorded0;
    var c := AsCall(cfg, Tail(cfg)[0]);
    ShortHit(l, g, cfg);
    var l', g' := Step(l, c, cfg.shortWindow).0, LedgerAfter(g, c, cfg.shortWindow);
    LongCheck(l', g', cfg);
    var rest := Tail(cfg)[1..];
    assert rest == [Tail(cfg)[1]] && rest[1..] == [];
    assert SharedAnswers(l', cfg, rest) == [Forgetful(cfg)];
    assert SharedLedgerAnswers(g', cfg, rest) == [Remembering(cfg)];
  }

  lemma {:induction false} CrowdAnswers(l: Limiter, g: Ledger, cfg: Sites, n: nat)
    requires cfg.Valid(l.maxWindow) && cfg.shortWindow < cfg.longWindow && n <= cfg.longLimit
    requires Recorded0(l, g, cfg.longLimit - n)
    ensures SharedAnswers(l, cfg, Crowd(n) + Tail(cfg)) == Admitted(n + 1) + [Forgetful(cfg)]
    ensures SharedLedgerAnswers(g, cfg, Crowd(n) + Tail(cfg)) == Admitted(n + 1) + [Remembering(cfg)]
    decreases n
  {
    hide Step, Verdict, LedgerAfter, Recorded0, Forgetful, Remembering;
    var calls := Crowd(n) + Tail(cfg);
    if n == 0 {
      assert calls == Tail(cfg);
      TailAnswers(l, g, cfg);
    } else {
      var c := AsCall(cfg, calls[0]);
      LongHit(l, g, cfg, cfg.longLimit - n);
      CrowdAnswers(Step(l, c, cfg.longWindow).0, LedgerAfter(g, c, cfg.longWindow), cfg, n - 1);
      assert calls[1..] == Crowd(n - 1) + Tail(cfg);
      assert forall x :: [Retry(0)] + (Admitted(n) + [x]) == Admitted(n + 1) + [x];
    }
  }

  lemma {:induction false} CrowdIsTimely(cfg: Sites, n: nat)
    requires cfg.Valid(cfg.longWindow)
    ensures Timely(AsCalls(cfg, Crowd(n) + Tail(cfg)), 0.0)
    decreases n
  {
    var calls := Crowd(n) + Tail(cfg);
    if n == 0 {
      assert calls[1..] == [Tail(cfg)[1]] && calls[1..][1..] == [];
      assert AsCalls(cfg, calls[1..]) == [AsCall(cfg, calls[1])];
      assert AsCalls(cfg, calls) == [AsCall(cfg, calls[0]), AsCall(cfg, calls[1])];
      assert AsCalls(cfg, calls)[1..][1..] == [];
    } else {
      CrowdIsTimely(cfg, n - 1);
      assert calls[1..] == Crowd(n - 1) + Tail(cfg);
      assert AsCalls(cfg, calls)[1..] == AsCalls(cfg, calls[1..]);
    }
  }

  /**
    A limit's worth of long-window hits is forgotten when one short-window
    hit prunes the shared deque, so the next long-window check differs: with
    a limit above one it lets through what the ledger refuses.
   */
  lemma TwoWindowsForget(cfg: Sites, maxWindow: int)
    requires cfg.Valid(maxWindow) && cfg.shortWindow < cfg.longWindow
    ensures var calls, n := Crowd(cfg.longLimit) + Tail(cfg), cfg.longLimit + 1;
            && Timely(AsCalls(cfg, calls), 0.0)
            && SharedAnswers(Limiter(map[], maxWindow, 0), cfg, calls) == Admitted(n) + [Forgetful(cfg)]
            && SharedLedgerAnswers(map[], cfg, calls) == Admitted(n) + [Remembering(cfg)]
            && Forgetful(cfg) != Remembering(cfg) && Remembering(cfg).seconds > 0
            && (cfg.longLimit > 1 ==> Forgetful(cfg) == Retry(0))
  {
    CrowdAnswers(Limiter(map[], maxWindow, 0), map[], cfg, cfg.longLimit);
    CrowdIsTimely(cfg, cfg.longLimit);
  }

  /** No run of the two sites can be told from the ledger. */
  ghost predicate Safe(cfg: Sites, maxWindow: int)
    requires cfg.Valid(maxWindow)
  {
    forall calls, t :: Timely(AsCalls(cfg, calls), t) ==>
      SharedAnswers(Limiter(map[], maxWindow, 0), cfg, calls) == SharedLedgerAnswers(map[], cfg, calls)
  }

  lemma SafeRun(cfg: Sites, maxWindow: int, calls: seq<SiteCall>, t: real)
    requires cfg.Valid(maxWindow) && Safe(cfg, maxWindow) && Timely(AsCalls(cfg, calls), t)
    ensures SharedAnswers(Limiter(map[], maxWindow, 0), cfg, calls) == SharedLedgerAnswers(map[], cfg, calls)
  {
  }

  /** Sharing a key between two sites is unobservable exactly when their windows are equal. */
  lemma SharingIsSafeExactly(cfg: Sites, maxWindow: int)
    requires cfg.Valid(maxWindow)
    ensures Safe(cfg, maxWindow) <==> cfg.shortWindow == cfg.longWindow
  {
    hide Timely, SharedAnswers, SharedLedgerAnswers, Faithful;
    var l := Limiter(map[], maxWindow, 0);
    if cfg.shortWindow == cfg.longWindow {
      forall calls, t | Timely(AsCalls(cfg, calls), t)
        ensures SharedAnswers(l, cfg, calls) == SharedLedgerAnswers(map[], cfg, calls)
      {
        FreshLimiterIsFaithful(maxWindow, _ => cfg.longWindow, t);
        EqualWindowsAgree(l, map[], cfg, calls, t);
      }
    } else {
      hide Safe;
      TwoWindowsForget(cfg, maxWindow);
      var calls := Crowd(cfg.longLimit) + Tail(cfg);
      var a, b := SharedAnswers(l, cfg, calls), SharedLedgerAnswers(map[], cfg, calls);
      assert a[cfg.longLimit + 1] != b[cfg.longLimit + 1];
      if Safe(cfg, maxWindow) {
        SafeRun(cfg, maxWindow, calls, 0.0);
        assert false;
      }
    }
  }
}
