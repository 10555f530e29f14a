/**
  Which frames the handler lets in and what a whole batch takes out: the two
  ends of the staging table, stated without the code in between.
 */
module Admission {
  import opened Words
  import opened Mids
  import opened Contract
  import opened Anchoring
  import opened Staging
  import Server = ServerTree

  // ----- the handler's reply

  /** The mid is well formed, names both users, and is stamped within the window around the server's clock. */
  predicate GoodMid(cfg: Config, user: string, f: Frame, now: int)
  {
    Names(f.mid, user, f.recipient)
    && now - cfg.editWindow - cfg.editGrace <= ParseMid(f.mid).value.timestamp <= now + cfg.clockSkew
  }

  /** A frame with a mid that is not staged. */
  lemma NewFrameExactly(cfg: Config, rows: Table, nextId: nat, users: set<string>, user: string, f: Frame, now: int)
    requires f.mid !in rows
    ensures var (rows', nextId', reply) := HandleSend(cfg, rows, nextId, users, user, f, now);
            var late := Names(f.mid, user, f.recipient)
                        && ParseMid(f.mid).value.timestamp < now - cfg.editWindow - cfg.editGrace;
            && (reply.Accepted? <==> GoodMid(cfg, user, f, now) && f.recipient in users)
            && (reply == Rejected(UnknownRecipient) <==> GoodMid(cfg, user, f, now) && f.recipient !in users)
            && (reply == Rejected(EditDeadlinePassed) <==> late)
            && (reply == Rejected(InvalidMid) <==> !GoodMid(cfg, user, f, now) && !late)
            && (reply.Rejected? ==> rows' == rows && nextId' == nextId)
            && (reply.Accepted? ==>
                  && reply.row == nextId && nextId' == nextId + 1 && rows'.Keys == rows.Keys + {f.mid}
                  && (forall m :: m in rows ==> rows'[m] == rows[m])
                  && rows'[f.mid] == Row(nextId, f.mid, user, f.recipient, f.ciphertext, now, now + cfg.editWindow))
  {
    hide ParseMid;
  }

  /** A frame with a staged mid: an edit by the same sender to the same recipient, while the row is open. */
  lemma EditExactly(cfg: Config, rows: Table, nextId: nat, users: set<string>, user: string, f: Frame, now: int)
    requires f.mid in rows
    ensures var (rows', nextId', reply) := HandleSend(cfg, rows, nextId, users, user, f, now);
            var r := rows[f.mid]; var own := r.sender == user && r.recipient == f.recipient;
            && nextId' == nextId
            && (reply == Rejected(UpdateNotAuthorised) <==> !own)
            && (reply == Rejected(EditDeadlinePassed) <==> own && r.editDeadline + cfg.editGrace <= now)
            && (reply == Accepted(r.id) <==> own && now < r.editDeadline + cfg.editGrace)
            && (reply.Rejected? ==> rows' == rows)
            && (reply.Accepted? ==> rows' == rows[f.mid := r.(ciphertext := f.ciphertext)])
  {
  }

  // ----- every recipient is a user

  ghost predicate RecipientsInv(s: State)
  {
    && (forall m :: m in s.rows ==> s.rows[m].recipient in s.users)
    && (forall id :: id in s.log.latest ==> s.log.latest[id].recipient in s.users)
    && (forall k :: 0 <= k < |s.log.accepted| ==> s.log.accepted[k].frame.recipient in s.users)
  }

  lemma SendKeepsRecipients(cfg: Config, s: State, user: string, f: Frame, now: int)
    requires RecipientsInv(s)
    ensures RecipientsInv(AfterSend(cfg, s, user, f, now))
  {
    if f.mid in s.rows {
      EditExactly(cfg, s.rows, s.nextId, s.users, user, f, now);
    } else {
      NewFrameExactly(cfg, s.rows, s.nextId, s.users, user, f, now);
    }
    hide HandleSend, GoodMid, Names;
  }

  lemma NextKeepsRecipients(cfg: Config, H: Keccak, s: State, step: Step)
    requires RecipientsInv(s) && Enabled(cfg, s, step)
    ensures RecipientsInv(Next(cfg, H, s, step))
  {
    hide AfterSend, IsBatchRead, Submit, HistoryAfter;
    if step.Send? { SendKeepsRecipients(cfg, s, step.user, step.frame, step.now); }
  }

  lemma {:induction false} RunKeepsRecipients(cfg: Config, H: Keccak, s: State, steps: seq<Step>)
    requires RecipientsInv(s) && ValidRun(cfg, H, s, steps)
    ensures RecipientsInv(Run(cfg, H, s, steps))
    decreases |steps|
  {
    hide RecipientsInv, Next, Enabled;
    if steps != [] {
      NextKeepsRecipients(cfg, H, s, steps[0]);
      RunKeepsRecipients(cfg, H, Next(cfg, H, s, steps[0]), steps[1..]);
    }
  }

  /** In every run, every frame accepted and every row ever staged is for a registered user. */
  lemma RecipientsAreRegistered(cfg: Config, H: Keccak, owner: Address, clock: int, users: set<string>,
                                steps: seq<Step>)
    requires ValidRun(cfg, H, Init(owner, clock, users), steps)
    ensures RecipientsInv(Run(cfg, H, Init(owner, clock, users), steps))
  {
    RunKeepsRecipients(cfg, H, Init(owner, clock, users), steps);
  }

  /** Who can be written to: the users at the start and those added since. */
  function Added(steps: seq<Step>): set<string>
  {
    if steps == [] then {} else (if steps[0].AddUser? then {steps[0].name} else {}) + Added(steps[1..])
  }

  lemma {:induction false} UsersAreThoseAdded(cfg: Config, H: Keccak, s: State, steps: seq<Step>)
    requires ValidRun(cfg, H, s, steps)
    ensures Run(cfg, H, s, steps).users == s.users + Added(steps)
    decreases |steps|
  {
    hide Enabled;
    if steps != [] {
      UsersAreThoseAdded(cfg, H, Next(cfg, H, s, steps[0]), steps[1..]);
    }
  }

  // ----- a batch from read to deletion

  /** One transaction per 4000 rows. */
  function Submits(owner: Address, left: nat): seq<Step>
  {
    if left == 0 then []
    else [BatchSubmit(owner, Mined, 0)] + Submits(owner, if left < MAX_LEAVES then 0 else left - MAX_LEAVES)
  }

  function WholeBatch(owner: Address, now: int, snap: seq<Row>): seq<Step>
  {
    [BatchRead(now, snap)] + Submits(owner, |snap|) + [BatchDelete]
  }

  ghost predicate SnapMined(H: Keccak, snap: seq<Row>, sent: nat)
    requires sent <= |snap|
  {
    AllMined(H, Messages(snap)[sent..], 0, _ => Mined)
  }

  lemma SnapMinedUnfolds(H: Keccak, snap: seq<Row>, sent: nat, end: nat)
    requires sent < |snap| && end == ChunkEnd(Submitting(snap, sent)) && SnapMined(H, snap, sent)
    ensures !IsZeroHash(Server.BatchRoot(H, Messages(snap)[sent..end])) && SnapMined(H, snap, end)
  {
    hide IsZeroHash, Server.BatchRoot, Message;
    var rest, n := Messages(snap)[sent..], end - sent;
    assert rest[..n] == Messages(snap)[sent..end] && rest[n..] == Messages(snap)[end..];
    AllMinedUnfolds(H, rest, 0, _ => Mined);
    forall j: nat | j * MAX_LEAVES < |rest[n..]|
      ensures !IsZeroHash(Server.BatchRoot(H, Chunk(rest[n..], j)))
    {
      assert AllMined(H, rest[n..], 1, _ => Mined);
    }
  }

  /** One confirmed chunk: only the batcher, the chain and the history move. */
  lemma ChunkConfirmed(cfg: Config, H: Keccak, s: State)
    requires s.batcher.Submitting? && s.batcher.sent < |s.batcher.snap|
    requires SnapMined(H, s.batcher.snap, s.batcher.sent)
    ensures var b, end := s.batcher, ChunkEnd(s.batcher); var step := BatchSubmit(s.chain.owner, Mined, 0);
            Enabled(cfg, s, step) && var t := Next(cfg, H, s, step);
            && t.rows == s.rows && t.log.latest == s.log.latest && t.chain.owner == s.chain.owner
            && t.batcher == (if end == |b.snap| then Submitted(b.snap) else Submitting(b.snap, end))
            && b.sent < end <= |b.snap| && SnapMined(H, b.snap, end)
  {
    hide IsZeroHash, Server.BatchRoot, Message, Submit, HistoryAfter, SnapMined;
    var b, end := s.batcher, ChunkEnd(s.batcher);
    SnapMinedUnfolds(H, b.snap, b.sent, end);
    SubmitExactly(H, s.chain, s.chain.owner, Messages(b.snap)[b.sent..end], Mined, 0);
  }

  lemma {:induction false} SubmitsFinish(cfg: Config, H: Keccak, s: State)
    requires s.batcher.Submitting? && s.batcher.sent < |s.batcher.snap|
    requires SnapMined(H, s.batcher.snap, s.batcher.sent)
    ensures var steps := Submits(s.chain.owner, |s.batcher.snap| - s.batcher.sent);
            ValidRun(cfg, H, s, steps) && var t := Run(cfg, H, s, steps);
            t.rows == s.rows && t.log.latest == s.log.latest && t.batcher == Submitted(s.batcher.snap)
    decreases |s.batcher.snap| - s.batcher.sent
  {
    hide SnapMined, Enabled, Next, Message;
    var step := BatchSubmit(s.chain.owner, Mined, 0);
    ChunkConfirmed(cfg, H, s);
    var t := Next(cfg, H, s, step);
    var left := |s.batcher.snap| - s.batcher.sent;
    var steps := Submits(s.chain.owner, left);
    var less := if left < MAX_LEAVES then 0 else left - MAX_LEAVES;
    assert steps[0] == step && steps[1..] == Submits(s.chain.owner, less);
    if t.batcher.Submitting? { SubmitsFinish(cfg, H, t); }
  }

  /** What was read is what is deleted, and nothing else. */
  lemma DeleteTakesTheRead(cfg: Config, H: Keccak, s: State, now: int, snap: seq<Row>)
    requires Inv(cfg, H, s) && IsBatchRead(cfg, s.rows, now, snap)
    ensures DeleteRows(s.rows, snap)
            == map m | m in s.rows && s.rows[m].editDeadline >= now - cfg.editGrace :: s.rows[m]
  {
    hide TableInv, SnapInv, SentInv, HonestHistory;
    forall m | m in s.rows
      ensures (exists r :: r in snap && r.id == s.rows[m].id) <==> s.rows[m].editDeadline < now - cfg.editGrace
    {
      if r :| r in snap && r.id == s.rows[m].id {
        assert s.log.latest[s.rows[r.mid].id] == s.rows[r.mid] == r;
      }
      if s.rows[m].editDeadline < now - cfg.editGrace { assert s.rows[m] in snap; }
    }
  }

  /**
    A batch that meets no failure, from any reachable state and however many
    transactions it takes: every row that was closed when it was read leaves
    the table and is on the chain, and every other row stays as it was.
   */
  lemma WholeBatchTakesTheClosed(cfg: Config, H: Keccak, s: State, now: int, snap: seq<Row>)
    requires Inv(cfg, H, s) && s.batcher.Idle? && now <= s.clock && IsBatchRead(cfg, s.rows, now, snap) && snap != []
    requires SnapMined(H, snap, 0)
    ensures var steps := WholeBatch(s.chain.owner, now, snap);
            ValidRun(cfg, H, s, steps) && var t := Run(cfg, H, s, steps);
            && t.batcher.Idle?
            && t.rows == (map m | m in s.rows && s.rows[m].editDeadline >= now - cfg.editGrace :: s.rows[m])
            && forall r :: r in snap ==> InHistory(t.log.history, Message(r))
  {
    hide Inv, SnapMined, DeleteRows, IsBatchRead, Message, InHistory, ValidRun, Run, Submits;
    var steps := [BatchRead(now, snap)] + Submits(s.chain.owner, |snap|);
    DeleteTakesTheRead(cfg, H, s, now, snap);
    ReadAndSubmitted(cfg, H, s, now, snap);
    RunKeepsInv(cfg, H, s, steps);
    SubmittedIsInHistory(cfg, H, Run(cfg, H, s, steps));
    RunAppend(cfg, H, s, steps, BatchDelete);
  }

  lemma SubmittedIsInHistory(cfg: Config, H: Keccak, s: State)
    requires Inv(cfg, H, s) && s.batcher.Submitted?
    ensures forall r :: r in s.batcher.snap ==> InHistory(s.log.history, Message(r))
  {
    hide InHistory, Message, HonestHistory;
  }

  lemma ReadAndSubmitted(cfg: Config, H: Keccak, s: State, now: int, snap: seq<Row>)
    requires s.batcher.Idle? && now <= s.clock && IsBatchRead(cfg, s.rows, now, snap) && snap != []
    requires SnapMined(H, snap, 0)
    ensures var steps := [BatchRead(now, snap)] + Submits(s.chain.owner, |snap|);
            ValidRun(cfg, H, s, steps) && var t := Run(cfg, H, s, steps);
            t.rows == s.rows && t.log.latest == s.log.latest && t.batcher == Submitted(snap)
  {
    hide SnapMined, IsBatchRead, Message, ValidRun, Run, Submits;
    var read := BatchRead(now, snap);
    EmptyRun(cfg, H, s);
    RunAppend(cfg, H, s, [], read);
    assert [] + [read] == [read];
    var s1 := s.(batcher := Submitting(snap, 0));
    assert Next(cfg, H, s, read) == s1;
    hide Next, Enabled;
    SubmitsFinish(cfg, H, s1);
    RunConcat(cfg, H, s, [read], Submits(s.chain.owner, |snap|));
  }
}
