/**
  Key bundles and the pool of one-time pre-keys. Publishing adds rows, a
  request that passes the limiter pops one, and nothing else touches them.
 */
module PreKeys {
  import opened Words
  import opened RateLimit
  import opened Limits
  import Mids

  datatype Bundle = Bundle(identityKey: string, signedPreKey: string, signature: string, publishedAt: int)

  /** A row of the pool. */
  datatype PreKey = PreKey(owner: string, key: string)

  datatype Reply =
    | RateLimited(retryAfter: int)
    | LimiterError
    | NoKeyBundle
    | Served(bundle: Bundle, oneTimeKey: Option<string>)

  datatype Config = Config(limit: int, window: int)

  /** The limiter's key for one requester and one target. */
  function RequestKey(requester: string, target: string): string { requester + ":" + target }

  /** Usernames hold no colon, so no two pairs share a limiter entry. */
  lemma RequestKeysDiffer(r: string, t: string, r': string, t': string)
    requires Mids.IsUsername(r) && Mids.IsUsername(t) && Mids.IsUsername(r') && Mids.IsUsername(t')
    requires RequestKey(r, t) == RequestKey(r', t')
    ensures r == r' && t == t'
  {
    assert RequestKey(r, t) == r + ":" + t && RequestKey(r', t') == r' + ":" + t';
    Mids.SplitAtColon(r, t);
    Mids.SplitAtColon(r', t');
    Mids.SplitNoColon(t);
    Mids.SplitNoColon(t');
    var x, y := [r] + [t], [r'] + [t'];
    assert x == y && x[0] == r && y[0] == r' && x[1] == t && y[1] == t';
  }

  function Rows(owner: string, keys: seq<string>): (r: seq<PreKey>)
    ensures |r| == |keys|
  {
    seq(|keys|, i requires 0 <= i < |keys| => PreKey(owner, keys[i]))
  }

  /** Which row a `LIMIT 1` query may return: any row of the owner, none only when there is none. */
  predicate IsPick(pool: seq<PreKey>, owner: string, pick: Option<nat>)
  {
    match pick
    case Some(i) => i < |pool| && pool[i].owner == owner
    case None => forall i :: 0 <= i < |pool| ==> pool[i].owner != owner
  }

  function Without(pool: seq<PreKey>, i: nat): seq<PreKey>
    requires i < |pool|
  {
    pool[..i] + pool[i + 1..]
  }

  class KeyDirectory {
    var bundles: map<string, Bundle>
    var pool: seq<PreKey>

    constructor ()
      ensures bundles == map[] && pool == []
    {
      bundles, pool := map[], [];
    }

    method HandlePublish(user: string, bundle: Bundle, keys: seq<string>)
      modifies this
      ensures bundles == old(bundles)[user := bundle]
      ensures pool == old(pool) + Rows(user, keys)
    {
      if user in bundles {
        var stored := bundles[user].(identityKey := bundle.identityKey, signedPreKey := bundle.signedPreKey,
                                     signature := bundle.signature, publishedAt := bundle.publishedAt);
        bundles := bundles[user := stored];
      } else {
        bundles := bundles[user := bundle];
      }
      for i := 0 to |keys|
        invariant bundles == old(bundles)[user := bundle]
        invariant pool == old(pool) + Rows(user, keys)[..i]
      {
        pool := pool + [PreKey(user, keys[i])];
        assert Rows(user, keys)[..i + 1] == Rows(user, keys)[..i] + [PreKey(user, keys[i])];
      }
      assert Rows(user, keys)[..|keys|] == Rows(user, keys);
    }

    /** The limiter is asked first; `pick` is the database's choice of row. */
    method HandleRequest(cfg: Config, limiter: RateLimiter, requester: string, target: string,
                         pick: Option<nat>, sweepAt: real, now: real) returns (reply: Reply)
      requires IsPick(pool, target, pick) && limiter as object != this
      modifies this, limiter
      ensures bundles == old(bundles)
      ensures var (l, a) := HitResult(old(limiter.State()), RequestKey(requester, target), cfg.limit, cfg.window,
                                      sweepAt, now);
              limiter.State() == l && (pool, reply) == Answered(old(bundles), old(pool), target, pick, a)
    {
      var a := limiter.Hit(RequestKey(requester, target), cfg.limit, cfg.window, sweepAt, now);
      if a == IndexError { return LimiterError; }
      if a.seconds != 0 { return RateLimited(a.seconds); }
      if target !in bundles { return NoKeyBundle; }
      var oneTimeKey := None;
      if pick.Some? {
        oneTimeKey := Some(pool[pick.value].key);
        pool := Without(pool, pick.value);
      }
      return Served(bundles[target], oneTimeKey);
    }
  }

  /** The pool and the reply, given the limiter's answer. */
  function Answered(bundles: map<string, Bundle>, pool: seq<PreKey>, target: string, pick: Option<nat>, a: Answer)
    : (seq<PreKey>, Reply)
    requires IsPick(pool, target, pick)
  {
    if a == IndexError then (pool, LimiterError)
    else if a.seconds != 0 then (pool, RateLimited(a.seconds))
    else if target !in bundles then (pool, NoKeyBundle)
    else if pick.None? then (pool, Served(bundles[target], None))
    else (Without(pool, pick.value), Served(bundles[target], Some(pool[pick.value].key)))
  }

  // ----- runs

  /** `published`, `served`, `ledger` and `grants` (times a pre-key was handed out) are history. */
  datatype State = State(bundles: map<string, Bundle>, pool: seq<PreKey>, limiter: Limiter, clock: real,
                         published: seq<PreKey>, served: seq<PreKey>, ledger: Ledger,
                         grants: map<(string, string), seq<real>>)

  datatype Step =
    | Publish(user: string, bundle: Bundle, keys: seq<string>)
    | Request(requester: string, target: string, pick: Option<nat>, sweepAt: real, now: real)

  function Init(cfg: Config, clock: real): State
  {
    State(map[], [], Limiter(map[], cfg.window, 0), clock, [], [], map[], map[])
  }

  predicate Enabled(s: State, step: Step)
  {
    step.Request? ==> s.clock <= step.sweepAt <= step.now && IsPick(s.pool, step.target, step.pick)
  }

  function Granted(s: State, r: string, t: string): seq<real>
  {
    if (r, t) in s.grants then s.grants[(r, t)] else []
  }

  function AsCall(cfg: Config, step: Step): Call
    requires step.Request?
  {
    Hit(RequestKey(step.requester, step.target), cfg.limit, step.sweepAt, step.now)
  }

  function Next(cfg: Config, s: State, step: Step): State
    requires Enabled(s, step)
  {
    match step
    case Publish(user, bundle, keys) =>
      s.(bundles := s.bundles[user := bundle], pool := s.pool + Rows(user, keys),
         published := s.published + Rows(user, keys))
    case Request(r, t, pick, _, now) =>
      var c := AsCall(cfg, step);
      var (l, a) := RateLimit.Step(s.limiter, c, cfg.window);
      var (pool, reply) := Answered(s.bundles, s.pool, t, pick, a);
      var s' := s.(limiter := l, pool := pool, clock := now, ledger := Recorded(s.ledger, c, a));
      if reply.Served? && reply.oneTimeKey.Some?
      then s'.(served := s.served + [PreKey(t, reply.oneTimeKey.value)],
               grants := s.grants[(r, t) := Granted(s, r, t) + [now]])
      else s'
  }

  predicate ValidRun(cfg: Config, s: State, steps: seq<Step>)
    decreases |steps|
  {
    steps == [] || (Enabled(s, steps[0]) && ValidRun(cfg, Next(cfg, s, steps[0]), steps[1..]))
  }

  function Run(cfg: Config, s: State, steps: seq<Step>): State
    requires ValidRun(cfg, s, steps)
    decreases |steps|
  {
    if steps == [] then s else Run(cfg, Next(cfg, s, steps[0]), steps[1..])
  }

  /** No key appears, vanishes or is handed out twice; and a pool row always has a bundle to go with it. */
  ghost predicate Conserved(s: State)
  {
    && multiset(s.published) == multiset(s.pool) + multiset(s.served)
    && forall x :: x in s.pool ==> x.owner in s.bundles
  }

  lemma PopConserves(pool: seq<PreKey>, i: nat)
    requires i < |pool|
    ensures multiset(pool) == multiset(Without(pool, i)) + multiset{pool[i]}
  {
    assert pool == pool[..i] + [pool[i]] + pool[i + 1..];
  }

  lemma AnswerConserves(bundles: map<string, Bundle>, pool: seq<PreKey>, target: string, pick: Option<nat>, a: Answer)
    requires IsPick(pool, target, pick)
    ensures var (pool', reply) := Answered(bundles, pool, target, pick, a);
            && multiset(pool) == multiset(pool')
                                 + (if reply.Served? && reply.oneTimeKey.Some?
                                    then multiset{PreKey(target, reply.oneTimeKey.value)} else multiset{})
            && forall x :: x in pool' ==> x in pool
  {
    if pick.Some? { PopConserves(pool, pick.value); }
  }

  lemma NextConserves(cfg: Config, s: State, step: Step)
    requires Conserved(s) && Enabled(s, step)
    ensures Conserved(Next(cfg, s, step))
  {
    hide RateLimit.Step, Answered, IsPick;
    if step.Request? {
      var a := RateLimit.Step(s.limiter, AsCall(cfg, step), cfg.window).1;
      AnswerConserves(s.bundles, s.pool, step.target, step.pick, a);
    }
  }

  // ----- how fast one requester can drain one target

  /** At every cutoff, no more grants than admitted hits. */
  ghost predicate Dominated(gs: seq<real>, h: seq<real>)
  {
    forall c :: |Recent(gs, c)| <= |Recent(h, c)|
  }

  ghost predicate PairInv(cfg: Config, s: State, r: string, t: string)
    requires cfg.limit >= 1
  {
    var gs := Granted(s, r, t);
    && Dominated(gs, Get(s.ledger, RequestKey(r, t)))
    && AscendingTo(gs, s.clock) && SpreadOut(gs, cfg.limit, cfg.window)
  }

  ghost predicate RateInv(cfg: Config, s: State)
    requires cfg.limit >= 1
  {
    && Faithful(s.limiter, s.ledger, _ => cfg.window, s.clock) && s.limiter.maxWindow == cfg.window
    && forall r, t :: PairInv(cfg, s, r, t)
  }

  lemma {:induction false} RecentSnoc(h: seq<real>, x: real, cutoff: real)
    ensures Recent(h + [x], cutoff) == Recent(h, cutoff) + (if x > cutoff then [x] else [])
  {
    RecentConcat(h, [x], cutoff);
    assert Recent([x], cutoff) == if x > cutoff then [x] else [];
  }

  lemma DominatedStep(gs: seq<real>, h: seq<real>, now: real)
    requires Dominated(gs, h)
    ensures Dominated(gs, h + [now]) && Dominated(gs + [now], h + [now])
  {
    forall c ensures |Recent(gs, c)| <= |Recent(h + [now], c)| && |Recent(gs + [now], c)| <= |Recent(h + [now], c)| {
      RecentSnoc(gs, now, c);
      RecentSnoc(h, now, c);
    }
  }

  lemma GrantKeepsSpread(cfg: Config, gs: seq<real>, h: seq<real>, now: real)
    requires cfg.limit >= 1 && Dominated(gs, h) && AscendingTo(gs, now) && SpreadOut(gs, cfg.limit, cfg.window)
    requires Verdict(h, cfg.limit, cfg.window, now) == Retry(0)
    ensures SpreadOut(gs + [now], cfg.limit, cfg.window)
  {
    assert |Recent(gs, now - cfg.window as real)| <= |Recent(h, now - cfg.window as real)|;
    VerdictCounts(h, cfg.limit, cfg.window, now);
    AdmittedKeepsSpread(gs, cfg.limit, cfg.window, now);
  }

  lemma RequestKeepsPair(cfg: Config, s: State, step: Step, r: string, t: string)
    requires cfg.limit >= 1 && RateInv(cfg, s) && Enabled(s, step) && step.Request?
    ensures PairInv(cfg, Next(cfg, s, step), r, t)
  {
    hide RateLimit.Step, Verdict, Dominated, SpreadOut, Faithful, RetryAfter, IsPick;
    var c := AsCall(cfg, step);
    var w: string -> int := _ => cfg.window;
    assert PairInv(cfg, s, r, t);
    assert Timely([c], s.clock) by { assert [c][1..] == []; }
    StepIsFaithful(s.limiter, s.ledger, w, c, s.clock);
    var gs, h := Granted(s, r, t), Get(s.ledger, RequestKey(r, t));
    AscendingSnoc(gs, s.clock, step.now);
    DominatedStep(gs, h, step.now);
    if Verdict(h, cfg.limit, cfg.window, step.now) == Retry(0) { GrantKeepsSpread(cfg, gs, h, step.now); }
  }

  lemma NextKeepsRate(cfg: Config, s: State, step: Step)
    requires cfg.limit >= 1 && RateInv(cfg, s) && Enabled(s, step)
    ensures RateInv(cfg, Next(cfg, s, step))
  {
    hide RateLimit.Step, Verdict, PairInv, Faithful, RetryAfter, IsPick;
    var s' := Next(cfg, s, step);
    var w: string -> int := _ => cfg.window;
    match step
    case Publish(_, _, _) =>
      forall r, t ensures PairInv(cfg, s', r, t) {
        assert PairInv(cfg, s, r, t);
        PublishKeepsPair(cfg, s, step, r, t);
      }
    case Request(_, _, _, _, _) =>
      var c := AsCall(cfg, step);
      assert Timely([c], s.clock) by { assert [c][1..] == []; }
      StepIsFaithful(s.limiter, s.ledger, w, c, s.clock);
      forall r, t ensures PairInv(cfg, s', r, t) {
        RequestKeepsPair(cfg, s, step, r, t);
      }
  }

  lemma PublishKeepsPair(cfg: Config, s: State, step: Step, r: string, t: string)
    requires cfg.limit >= 1 && step.Publish? && PairInv(cfg, s, r, t)
    ensures PairInv(cfg, Next(cfg, s, step), r, t)
  {
  }

  lemma {:induction false} RunKeepsBoth(cfg: Config, s: State, steps: seq<Step>)
    requires cfg.limit >= 1 && RateInv(cfg, s) && Conserved(s) && ValidRun(cfg, s, steps)
    ensures RateInv(cfg, Run(cfg, s, steps)) && Conserved(Run(cfg, s, steps))
    decreases |steps|
  {
    hide Next, Enabled, RateInv, Conserved;
    if steps != [] {
      NextKeepsRate(cfg, s, steps[0]);
      NextConserves(cfg, s, steps[0]);
      RunKeepsBoth(cfg, Next(cfg, s, steps[0]), steps[1..]);
    }
  }

  /**
    In every run: keys published are exactly keys pooled plus keys served, a
    pooled key implies a bundle, and one requester never obtains more than
    `limit` pre-keys of one target within a window.
   */
  lemma PreKeysConservedAndRationed(cfg: Config, clock: real, steps: seq<Step>, r: string, t: string, from: real)
    requires cfg.limit >= 1 && ValidRun(cfg, Init(cfg, clock), steps)
    ensures var s := Run(cfg, Init(cfg, clock), steps);
            && Conserved(s)
            && |HitsFrom(Granted(s, r, t), from, cfg.window)| <= cfg.limit
            && |HitsAfter(Granted(s, r, t), from, cfg.window)| <= cfg.limit
  {
    var s0 := Init(cfg, clock);
    FreshLimiterIsFaithful(cfg.window, _ => cfg.window, clock);
    assert forall r, t :: PairInv(cfg, s0, r, t);
    RunKeepsBoth(cfg, s0, steps);
    var s := Run(cfg, s0, steps);
    assert PairInv(cfg, s, r, t);
    IntervalHoldsAtMostLimit(Granted(s, r, t), cfg.limit, cfg.window, from);
  }

  // ----- what a requester is told and given

  predicate HasRow(pool: seq<PreKey>, owner: string) { exists i :: 0 <= i < |pool| && pool[i].owner == owner }

  /** `pool'` is `pool` without one row that holds this key of this owner. */
  predicate Popped(pool: seq<PreKey>, pool': seq<PreKey>, x: PreKey)
  {
    exists i :: 0 <= i < |pool| && pool[i] == x && pool' == pool[..i] + pool[i + 1..]
  }

  /** Every reply and its reason; a key is handed out exactly when the target has one left, and leaves the pool. */
  lemma AnsweredExactly(bundles: map<string, Bundle>, pool: seq<PreKey>, target: string, pick: Option<nat>, a: Answer)
    requires IsPick(pool, target, pick)
    ensures var (pool', reply) := Answered(bundles, pool, target, pick, a);
            && (reply == LimiterError <==> a == IndexError)
            && (forall n :: reply == RateLimited(n) <==> a == Retry(n) && n != 0)
            && (reply == NoKeyBundle <==> a == Retry(0) && target !in bundles)
            && (reply.Served? <==> a == Retry(0) && target in bundles)
            && (reply.Served? ==>
                  reply.bundle == bundles[target] && (reply.oneTimeKey.Some? <==> HasRow(pool, target)))
            && (if reply.Served? && reply.oneTimeKey.Some?
                then Popped(pool, pool', PreKey(target, reply.oneTimeKey.value)) else pool' == pool)
  {
    if pick.Some? { assert HasRow(pool, target) && pool[pick.value] == PreKey(target, pool[pick.value].key); }
  }

  /** Publishing adds each given key to the publisher's rows as often as it is given, and nothing to anyone else's. */
  lemma {:induction false} PublishAddsKeys(user: string, keys: seq<string>, x: PreKey)
    ensures multiset(Rows(user, keys))[x] == if x.owner == user then multiset(keys)[x.key] else 0
    decreases |keys|
  {
    var rows := Rows(user, keys);
    if keys != [] {
      PublishAddsKeys(user, keys[1..], x);
      assert rows[1..] == Rows(user, keys[1..]);
      assert rows == [rows[0]] + rows[1..] && keys == [keys[0]] + keys[1..];
    }
  }

  /** The last bundle this user published in the run, if any. */
  function LastPublished(steps: seq<Step>, user: string): Option<Bundle>
  {
    if steps == [] then None
    else
      var last := steps[|steps| - 1];
      if last.Publish? && last.user == user then Some(last.bundle) else LastPublished(steps[..|steps| - 1], user)
  }

  lemma {:induction false} RunSnoc(cfg: Config, s: State, steps: seq<Step>, step: Step)
    requires ValidRun(cfg, s, steps) && Enabled(Run(cfg, s, steps), step)
    ensures ValidRun(cfg, s, steps + [step])
    ensures Run(cfg, s, steps + [step]) == Next(cfg, Run(cfg, s, steps), step)
    decreases |steps|
  {
    hide Enabled, Next;
    var all := steps + [step];
    if steps == [] {
      assert all == [step] && all[1..] == [];
    } else {
      RunSnoc(cfg, Next(cfg, s, steps[0]), steps[1..], step);
      assert all[1..] == steps[1..] + [step];
    }
  }

  lemma {:induction false} RunPrefix(cfg: Config, s: State, steps: seq<Step>)
    requires ValidRun(cfg, s, steps) && steps != []
    ensures var front := steps[..|steps| - 1];
            ValidRun(cfg, s, front) && Enabled(Run(cfg, s, front), steps[|steps| - 1])
    decreases |steps|
  {
    hide Enabled, Next;
    var front := steps[..|steps| - 1];
    if |steps| > 1 {
      RunPrefix(cfg, Next(cfg, s, steps[0]), steps[1..]);
      assert front[1..] == steps[1..][..|steps| - 2];
    }
  }

  /** After any run the directory holds, for each user, the last bundle that user published. */
  lemma {:induction false} BundlesAreLastPublished(cfg: Config, clock: real, steps: seq<Step>, user: string)
    requires ValidRun(cfg, Init(cfg, clock), steps)
    ensures var bundles := Run(cfg, Init(cfg, clock), steps).bundles;
            LastPublished(steps, user) == if user in bundles then Some(bundles[user]) else None
    decreases |steps|
  {
    hide RateLimit.Step, Answered, IsPick;
    if steps != [] {
      var front, last := steps[..|steps| - 1], steps[|steps| - 1];
      RunPrefix(cfg, Init(cfg, clock), steps);
      RunSnoc(cfg, Init(cfg, clock), front, last);
      assert front + [last] == steps;
      BundlesAreLastPublished(cfg, clock, front, user);
    }
  }

  /** More keys of this owner were published than served. */
  ghost predicate KeysLeft(s: State, owner: string)
  {
    exists k :: multiset(s.published)[PreKey(owner, k)] > multiset(s.served)[PreKey(owner, k)]
  }

  lemma LeftIsPooled(s: State, owner: string)
    requires Conserved(s)
    ensures KeysLeft(s, owner) <==> HasRow(s.pool, owner)
  {
    if k :| multiset(s.published)[PreKey(owner, k)] > multiset(s.served)[PreKey(owner, k)] {
      assert PreKey(owner, k) in multiset(s.pool);
    }
    if i :| 0 <= i < |s.pool| && s.pool[i].owner == owner {
      assert s.pool[i] in multiset(s.pool);
      assert multiset(s.published)[PreKey(owner, s.pool[i].key)] > multiset(s.served)[PreKey(owner, s.pool[i].key)];
    }
  }

  /** The reply to a request in this state, and the pool it leaves. */
  function ReplyTo(cfg: Config, s: State, step: Step): (seq<PreKey>, Reply)
    requires Enabled(s, step) && step.Request?
  {
    Answered(s.bundles, s.pool, step.target, step.pick, RateLimit.Step(s.limiter, AsCall(cfg, step), cfg.window).1)
  }

  /**
    After any run, an admitted request is answered from what the target itself
    published: nothing if it never published, else its last bundle, with a
    pre-key exactly when one of its keys has been published more often than served.
   */
  lemma RequestsGetWhatWasPublished(cfg: Config, clock: real, steps: seq<Step>, step: Step)
    requires cfg.limit >= 1 && ValidRun(cfg, Init(cfg, clock), steps)
    requires step.Request? && Enabled(Run(cfg, Init(cfg, clock), steps), step)
    requires RateLimit.Step(Run(cfg, Init(cfg, clock), steps).limiter, AsCall(cfg, step), cfg.window).1 == Retry(0)
    ensures var s, published := Run(cfg, Init(cfg, clock), steps), LastPublished(steps, step.target);
            var (pool', reply) := ReplyTo(cfg, s, step);
            && (published.None? <==> reply == NoKeyBundle)
            && (published.Some? ==>
                  && reply.Served? && reply.bundle == published.value
                  && (reply.oneTimeKey.Some? <==> KeysLeft(s, step.target))
                  && (reply.oneTimeKey.Some? ==> Popped(s.pool, pool', PreKey(step.target, reply.oneTimeKey.value))))
  {
    hide RateLimit.Step, Answered, IsPick, KeysLeft, Popped, ValidRun, Run;
    var s := Run(cfg, Init(cfg, clock), steps);
    BundlesAreLastPublished(cfg, clock, steps, step.target);
    PreKeysConservedAndRationed(cfg, clock, steps, step.requester, step.target, 0.0);
    LeftIsPooled(s, step.target);
    AnsweredExactly(s.bundles, s.pool, step.target, step.pick, Retry(0));
  }
}
