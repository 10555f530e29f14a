/**
  How often one mid can be staged. A mid leaves staging only after its edit
  window and grace, and re-enters only while its own timestamp is still
  acceptable, so only a timestamp ahead of the server's clock, or a handler
  that commits with an old clock reading, leaves room.
 */
module Reuse {
  import opened Words
  import opened Mids
  import opened Contract
  import opened Anchoring
  import opened Staging
  import Server = ServerTree

  function Times(inserts: seq<Insert>, mid: string): seq<int>
  {
    if inserts == [] then []
    else (if inserts[0].mid == mid then [inserts[0].now] else []) + Times(inserts[1..], mid)
  }

  lemma {:induction false} TimesSnoc(inserts: seq<Insert>, e: Insert, mid: string)
    ensures Times(inserts + [e], mid) == Times(inserts, mid) + (if e.mid == mid then [e.now] else [])
  {
    if inserts == [] {
      assert inserts + [e] == [e];
    } else {
      var all := inserts + [e];
      assert all[0] == inserts[0] && all[1..] == inserts[1..] + [e];
      TimesSnoc(inserts[1..], e, mid);
      var head := if inserts[0].mid == mid then [inserts[0].now] else [];
      assert Times(all, mid) == head + Times(all[1..], mid);
    }
  }

  /** The least time between two insertions of one mid. */
  function Gap(cfg: Config): int { cfg.Open() + 1 - cfg.lag }

  predicate Spaced(t: seq<int>, gap: int)
  {
    forall k :: 0 <= k < |t| - 1 ==> t[k] + gap <= t[k + 1]
  }

  predicate InWindow(cfg: Config, mid: string, now: int)
  {
    ParseMid(mid).Some?
    && ParseMid(mid).value.timestamp - cfg.clockSkew <= now <= ParseMid(mid).value.timestamp + cfg.Open()
  }

  ghost predicate MidInv(cfg: Config, s: State, mid: string)
  {
    var t := Times(s.log.inserts, mid);
    && Spaced(t, Gap(cfg))
    && (forall k :: 0 <= k < |t| ==> InWindow(cfg, mid, t[k]))
    && (mid in s.rows ==> t != [] && s.rows[mid].createdAt == t[|t| - 1])
    && (mid !in s.rows && t != [] ==> t[|t| - 1] + cfg.Open() < s.clock)
  }

  ghost predicate ReuseInv(cfg: Config, s: State) { forall mid :: MidInv(cfg, s, mid) }

  lemma SendKeepsMid(cfg: Config, s: State, user: string, f: Frame, now: int, mid: string)
    requires TableInv(cfg, s) && MidInv(cfg, s, mid) && Enabled(cfg, s, Send(user, f, now))
    ensures MidInv(cfg, AfterSend(cfg, s, user, f, now), mid)
  {
    hide ParseMid, Times, Names;
    TimesSnoc(s.log.inserts, Insert(f.mid, now), mid);
  }

  lemma DeleteKeepsMid(cfg: Config, s: State, mid: string)
    requires TableInv(cfg, s) && LatestInv(s) && SnapInv(cfg, s) && MidInv(cfg, s, mid) && s.batcher.Submitted?
    ensures MidInv(cfg, s.(rows := DeleteRows(s.rows, s.batcher.snap), batcher := Idle), mid)
  {
    hide ParseMid, InWindow;
    var rows := DeleteRows(s.rows, s.batcher.snap);
    if mid in s.rows && mid !in rows {
      var r :| r in s.batcher.snap && r.id == s.rows[mid].id;
      assert s.log.latest[s.rows[r.mid].id] == s.rows[r.mid];
      assert s.log.latest[s.rows[mid].id] == s.rows[mid];
    }
  }

  lemma NextKeepsReuse(cfg: Config, H: Keccak, s: State, step: Step)
    requires Inv(cfg, H, s) && ReuseInv(cfg, s) && Enabled(cfg, s, step)
    ensures ReuseInv(cfg, Next(cfg, H, s, step))
  {
    hide ParseMid, AfterSend, HandleSend, Times;
    var s' := Next(cfg, H, s, step);
    forall mid ensures MidInv(cfg, s', mid) {
      assert MidInv(cfg, s, mid);
      match step
      case Send(user, f, now) => SendKeepsMid(cfg, s, user, f, now, mid);
      case BatchDelete => DeleteKeepsMid(cfg, s, mid);
      case Tick(_) =>
      case AddUser(_) =>
      case BatchRead(_, _) =>
      case BatchSubmit(_, _, _) =>
      case BatchAbort =>
      case StrangerCall(_) =>
    }
  }

  lemma {:induction false} RunKeepsReuse(cfg: Config, H: Keccak, s: State, steps: seq<Step>)
    requires Inv(cfg, H, s) && ReuseInv(cfg, s) && ValidRun(cfg, H, s, steps)
    ensures ReuseInv(cfg, Run(cfg, H, s, steps))
    decreases |steps|
  {
    hide Inv, Next, Enabled, ReuseInv;
    if steps != [] {
      NextKeepsInv(cfg, H, s, steps[0]);
      NextKeepsReuse(cfg, H, s, steps[0]);
      RunKeepsReuse(cfg, H, Next(cfg, H, s, steps[0]), steps[1..]);
    }
  }

  lemma {:induction false} SpacedSpan(t: seq<int>, gap: int)
    requires t != [] && Spaced(t, gap)
    ensures (|t| - 1) * gap <= t[|t| - 1] - t[0]
  {
    if |t| > 1 {
      var u := t[..|t| - 1];
      SpacedSpan(u, gap);
      assert (|t| - 1) * gap == (|u| - 1) * gap + gap;
      assert t[|t| - 2] + gap <= t[|t| - 2 + 1];
    }
  }

  lemma Reached(cfg: Config, H: Keccak, owner: Address, clock: int, users: set<string>, steps: seq<Step>, mid: string)
    requires ValidRun(cfg, H, Init(owner, clock, users), steps)
    ensures MidInv(cfg, Run(cfg, H, Init(owner, clock, users), steps), mid)
  {
    InitInv(cfg, H, owner, clock, users);
    RunKeepsReuse(cfg, H, Init(owner, clock, users), steps);
  }

  /** Any run, mid and lag: n insertions fit only if n - 1 gaps fit between the earliest and latest acceptable times. */
  lemma InsertionsBounded(cfg: Config, H: Keccak, owner: Address, clock: int, users: set<string>,
                          steps: seq<Step>, mid: string)
    requires ValidRun(cfg, H, Init(owner, clock, users), steps)
    ensures var t := Times(Run(cfg, H, Init(owner, clock, users), steps).log.inserts, mid);
            t != [] ==>
              && ParseMid(mid).Some?
              && (|t| - 1) * Gap(cfg) <= cfg.Open() + cfg.clockSkew
              && (|t| - 1) * Gap(cfg) <= ParseMid(mid).value.timestamp + cfg.Open() - t[0]
              && t[|t| - 1] - t[0] <= cfg.Open() + cfg.clockSkew
  {
    Reached(cfg, H, owner, clock, users, steps, mid);
    var t := Times(Run(cfg, H, Init(owner, clock, users), steps).log.inserts, mid);
    if t != [] {
      SpacedSpan(t, Gap(cfg));
      assert InWindow(cfg, mid, t[0]) && InWindow(cfg, mid, t[|t| - 1]);
    }
  }

  lemma Multiples(n: nat, k: nat, gap: int)
    requires n >= k && gap >= 0
    ensures n * gap >= k * gap
  {
  }

  /**
    At most twice when two gaps do not fit, and at most once for a timestamp
    that lay at least a lag behind the reading that first accepted it.
   */
  lemma AtMostTwice(cfg: Config, H: Keccak, owner: Address, clock: int, users: set<string>, steps: seq<Step>,
                    mid: string)
    requires ValidRun(cfg, H, Init(owner, clock, users), steps)
    ensures var t := Times(Run(cfg, H, Init(owner, clock, users), steps).log.inserts, mid);
            && (2 * Gap(cfg) > cfg.Open() + cfg.clockSkew ==> |t| <= 2)
            && (t != [] ==> ParseMid(mid).Some? && (ParseMid(mid).value.timestamp + cfg.lag <= t[0] ==> |t| == 1))
  {
    hide ParseMid, Run, ValidRun, Times;
    InsertionsBounded(cfg, H, owner, clock, users, steps, mid);
    var t := Times(Run(cfg, H, Init(owner, clock, users), steps).log.inserts, mid);
    if |t| > 2 && Gap(cfg) >= 0 { Multiples(|t| - 1, 2, Gap(cfg)); }
    if |t| > 1 && Gap(cfg) >= 0 { Multiples(|t| - 1, 1, Gap(cfg)); }
    if t != [] {
      Reached(cfg, H, owner, clock, users, steps, mid);
      assert InWindow(cfg, mid, t[0]);
    }
  }

  // ----- and every number within the bound does happen

  /** The time between stagings in the runs below. */
  function Stride(cfg: Config): nat { if Gap(cfg) > 0 then Gap(cfg) else 0 }

  function StageTime(cfg: Config, n: nat): int { n * Stride(cfg) - cfg.clockSkew }

  lemma StageTimeStep(cfg: Config, n: nat)
    ensures StageTime(cfg, n + 1) == StageTime(cfg, n) + Stride(cfg) && StageTime(cfg, n) >= 0 - cfg.clockSkew
  {
  }

  /** Staged, closed, anchored and removed once more. */
  function Cycle(cfg: Config, s: State, t: int): seq<Step>
  {
    StageAndRead(cfg, s, t) + [BatchSubmit(s.chain.owner, Mined, 0)] + [BatchDelete]
  }

  lemma SameMessage(r: Row, q: Row)
    requires r.mid == q.mid && r.ciphertext == q.ciphertext
    ensures Message(r) == Message(q)
  {
  }

  lemma OneCycle(cfg: Config, H: Keccak, s: State, t: int)
    requires Fresh(cfg, s, t) && !IsZeroHash(Server.MakeLeaf(H, Message(StagedRow(cfg, 0, 0))))
    ensures ValidRun(cfg, H, s, Cycle(cfg, s, t))
    ensures var s' := Run(cfg, H, s, Cycle(cfg, s, t));
            && s'.rows == map[] && s'.batcher.Idle? && s'.users == {"b"} && s'.chain.owner == s.chain.owner
            && s'.lastNow == t && s'.clock == Closed(cfg, s, t) && s'.log.inserts == s.log.inserts + [Insert(MID, t)]
  {
    hide Submit, ParseMid, ValidRun, Run, StageAndRead, Message, IsZeroHash, HistoryAfter;
    var s1, r, submit := AfterRead(cfg, s, t), StagedRow(cfg, s.nextId, t), BatchSubmit(s.chain.owner, Mined, 0);
    SameMessage(r, StagedRow(cfg, 0, 0));
    StagedAndRead(cfg, H, s, t);
    RunAppend(cfg, H, s, StageAndRead(cfg, s, t), submit);
    assert Messages([r])[0..1] == [Message(r)];
    SubmitOne(H, s1.chain, Message(r), 0);
    var s2 := Run(cfg, H, s, StageAndRead(cfg, s, t) + [submit]);
    assert s2.batcher == Submitted([r]) && s2.rows == s1.rows && s2.chain.owner == s.chain.owner;
    RunAppend(cfg, H, s, StageAndRead(cfg, s, t) + [submit], BatchDelete);
    assert DeleteRows(s2.rows, [r]) == map[];
  }

  /** When the next staging is still acceptable, a handler may still read its time. */
  lemma NextStagingFresh(cfg: Config, s: State, s': State, n: nat)
    requires s.clock - cfg.lag <= StageTime(cfg, n) <= s.clock
    requires s'.lastNow == StageTime(cfg, n) && s'.clock == Closed(cfg, s, StageTime(cfg, n))
    ensures var t := StageTime(cfg, n + 1); s'.lastNow <= t && s'.clock - cfg.lag <= t <= s'.clock
  {
    StageTimeStep(cfg, n);
  }

  /** `n` stagings of one mid, when `n - 1` strides fit. */
  lemma {:induction false} StagedOften(cfg: Config, H: Keccak, owner: Address, n: nat) returns (steps: seq<Step>)
    requires !IsZeroHash(Server.MakeLeaf(H, Message(StagedRow(cfg, 0, 0))))
    requires n > 0 ==> (n - 1) * Stride(cfg) <= cfg.Open() + cfg.clockSkew
    ensures ValidRun(cfg, H, Init(owner, 0 - cfg.clockSkew, {"b"}), steps)
    ensures var s := Run(cfg, H, Init(owner, 0 - cfg.clockSkew, {"b"}), steps); var t := StageTime(cfg, n);
            && s.rows == map[] && s.batcher.Idle? && s.users == {"b"} && s.chain.owner == owner
            && s.lastNow <= t && s.clock - cfg.lag <= t <= s.clock && |Times(s.log.inserts, MID)| == n
    decreases n
  {
    assert Times([], MID) == [];
    hide ValidRun, Run, Cycle, Message, IsZeroHash, Times;
    var s0 := Init(owner, 0 - cfg.clockSkew, {"b"});
    if n == 0 {
      steps := [];
      EmptyRun(cfg, H, s0);
    } else {
      if n > 1 { Multiples(n - 1, n - 2, Stride(cfg)); }
      var before := StagedOften(cfg, H, owner, n - 1);
      var s, t := Run(cfg, H, s0, before), StageTime(cfg, n - 1);
      StageTimeStep(cfg, n - 1);
      OneCycle(cfg, H, s, t);
      steps := before + Cycle(cfg, s, t);
      RunConcat(cfg, H, s0, before, Cycle(cfg, s, t));
      NextStagingFresh(cfg, s, Run(cfg, H, s0, steps), n - 1);
      TimesSnoc(s.log.inserts, Insert(MID, t), MID);
    }
  }

  /** Some run stages some mid at least `n` times. */
  ghost predicate CanStage(cfg: Config, H: Keccak, owner: Address, n: nat)
  {
    exists clock, users, steps, mid :: ValidRun(cfg, H, Init(owner, clock, users), steps)
      && |Times(Run(cfg, H, Init(owner, clock, users), steps).log.inserts, mid)| >= n
  }

  /** For every configuration: a mid can be staged `n` times exactly when `n - 1` gaps fit in the acceptance window. */
  lemma StagedExactly(cfg: Config, H: Keccak, owner: Address, n: nat)
    requires n >= 1 && !IsZeroHash(Server.MakeLeaf(H, Message(StagedRow(cfg, 0, 0))))
    ensures CanStage(cfg, H, owner, n) <==> (n - 1) * Gap(cfg) <= cfg.Open() + cfg.clockSkew
  {
    hide ValidRun, Run, Times, Message, IsZeroHash, ParseMid;
    if (n - 1) * Gap(cfg) <= cfg.Open() + cfg.clockSkew {
      var steps := StagedOften(cfg, H, owner, n);
      assert |Times(Run(cfg, H, Init(owner, 0 - cfg.clockSkew, {"b"}), steps).log.inserts, MID)| >= n;
    }
    if CanStage(cfg, H, owner, n) {
      var clock, users, steps, mid :| ValidRun(cfg, H, Init(owner, clock, users), steps)
        && |Times(Run(cfg, H, Init(owner, clock, users), steps).log.inserts, mid)| >= n;
      InsertionsBounded(cfg, H, owner, clock, users, steps, mid);
      var t := Times(Run(cfg, H, Init(owner, clock, users), steps).log.inserts, mid);
      if Gap(cfg) >= 0 { Multiples(|t| - 1, n - 1, Gap(cfg)); }
    }
  }

  ghost predicate OnceOnly(cfg: Config, H: Keccak, owner: Address)
  {
    forall clock, users, steps, mid :: ValidRun(cfg, H, Init(owner, clock, users), steps) ==>
      |Times(Run(cfg, H, Init(owner, clock, users), steps).log.inserts, mid)| <= 1
  }

  /** Once-only staging is exactly the absence of both a clock-skew grace and a lag. */
  lemma OnceExactly(cfg: Config, H: Keccak, owner: Address)
    requires !IsZeroHash(Server.MakeLeaf(H, Message(StagedRow(cfg, 0, 0))))
    ensures OnceOnly(cfg, H, owner) <==> cfg.clockSkew + cfg.lag == 0
  {
    hide Message, IsZeroHash, ValidRun, Run, Times;
    StagedExactly(cfg, H, owner, 2);
    assert CanStage(cfg, H, owner, 2) <==> !OnceOnly(cfg, H, owner);
  }
}
