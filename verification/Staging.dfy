/**
  The staging queue and the batcher as one step system.

  Handlers run on the event loop and the batcher in a thread of its own, so a
  batch read can fall between a handler's clock reading and its commit. `lag`
  bounds that gap in clock ticks: a handler commits with a reading at most
  `lag` old. Time is one monotone integer clock.
 */
module Staging {
  import opened Words
  import opened Mids
  import opened Contract
  import opened Anchoring
  import Utf8

  datatype Config = Config(editWindow: nat, editGrace: nat, clockSkew: nat, lag: nat) {
    /** How long after insertion a row stays open to edits. */
    function Open(): nat { editWindow + editGrace }
  }

  datatype Frame = Frame(recipient: string, ciphertext: string, mid: string)

  /** What the inbound schema lets through to the handler. */
  predicate ValidFrame(f: Frame)
  {
    IsUsername(f.recipient) && f.ciphertext != "" && 1 <= |f.mid| <= 150
  }

  datatype Row = Row(id: nat, mid: string, sender: string, recipient: string, ciphertext: string,
                     createdAt: int, editDeadline: int)

  datatype ErrorCode = InvalidMid | EditDeadlinePassed | UpdateNotAuthorised | UnknownRecipient
  datatype Reply = Accepted(row: nat) | Rejected(code: ErrorCode)

  /** The staging table by its unique column. */
  type Table = map<string, Row>

  // ----- the handler

  /** The mid names this sender and recipient. */
  predicate Names(mid: string, sender: string, recipient: string)
  {
    ParseMid(mid).Some? && ParseMid(mid).value.sender == sender && ParseMid(mid).value.recipient == recipient
  }

  function ValidateMid(cfg: Config, mid: string, sender: string, recipient: string, now: int): (r: Option<ErrorCode>)
    ensures r.None? <==>
            (ParseMid(mid).Some? && var m := ParseMid(mid).value;
             m.sender == sender && m.recipient == recipient
             && now - cfg.Open() <= m.timestamp <= now + cfg.clockSkew)
    ensures r == Some(EditDeadlinePassed) <==>
            (Names(mid, sender, recipient) && ParseMid(mid).value.timestamp < now - cfg.Open())
    ensures r.Some? ==> r.value == InvalidMid || r.value == EditDeadlinePassed
  {
    match ParseMid(mid)
    case None => Some(InvalidMid)
    case Some(m) =>
      if m.sender != sender then Some(InvalidMid)
      else if m.recipient != recipient then Some(InvalidMid)
      else if m.timestamp < now - cfg.editWindow - cfg.editGrace then Some(EditDeadlinePassed)
      else if m.timestamp > now + cfg.clockSkew then Some(InvalidMid)
      else None
  }

  /** The staging half of `handle_send_message`. */
  function HandleSend(cfg: Config, rows: Table, nextId: nat, users: set<string>, user: string, f: Frame, now: int)
    : (Table, nat, Reply)
  {
    if f.mid in rows then
      var e := rows[f.mid];
      if e.sender != user || e.recipient != f.recipient then (rows, nextId, Rejected(UpdateNotAuthorised))
      else if now >= e.editDeadline + cfg.editGrace then (rows, nextId, Rejected(EditDeadlinePassed))
      else (rows[f.mid := e.(ciphertext := f.ciphertext)], nextId, Accepted(e.id))
    else
      match ValidateMid(cfg, f.mid, user, f.recipient, now)
      case Some(code) => (rows, nextId, Rejected(code))
      case None =>
        if f.recipient !in users then (rows, nextId, Rejected(UnknownRecipient))
        else
          var r := Row(nextId, f.mid, user, f.recipient, f.ciphertext, now, now + cfg.editWindow);
          (rows[f.mid := r], nextId + 1, Accepted(nextId))
  }

  // ----- the batcher

  datatype Batcher = Idle | Submitting(snap: seq<Row>, sent: nat) | Submitted(snap: seq<Row>)

  function Message(r: Row): Bytes { Utf8.Encode(Preimage(r.mid, r.ciphertext)) }

  function Messages(snap: seq<Row>): seq<Bytes> { Map(Message, snap) }

  /** What the batcher's query may return: every closed row once, oldest first. */
  ghost predicate IsBatchRead(cfg: Config, rows: Table, now: int, snap: seq<Row>)
  {
    && (forall r :: r in snap ==> r.mid in rows && rows[r.mid] == r && r.editDeadline < now - cfg.editGrace)
    && (forall m :: m in rows && rows[m].editDeadline < now - cfg.editGrace ==> rows[m] in snap)
    && (forall i, j :: 0 <= i < j < |snap| ==> snap[i].createdAt <= snap[j].createdAt && snap[i] != snap[j])
  }

  function DeleteRows(rows: Table, snap: seq<Row>): Table
  {
    map m | m in rows && (forall r :: r in snap ==> r.id != rows[m].id) :: rows[m]
  }

  // ----- the system

  /** An accepted frame, with the session that sent it. */
  datatype Sent = Sent(user: string, frame: Frame, now: int)
  datatype Insert = Insert(mid: string, now: int)

  /** `latest` is the last accepted content of every row ever staged; the rest is history too. */
  datatype Log = Log(latest: map<nat, Row>, inserts: seq<Insert>, accepted: seq<Sent>, history: seq<seq<Bytes>>)

  datatype State = State(clock: int, lastNow: int, nextId: nat, users: set<string>, rows: Table,
                         batcher: Batcher, chain: Chain, log: Log)

  datatype Step =
    | Tick(to: int)
    | AddUser(name: string)
    | Send(user: string, frame: Frame, now: int)
    | BatchRead(now: int, snap: seq<Row>)
    | BatchSubmit(account: Address, fate: Fate, time: nat)
    | BatchDelete
    | BatchAbort
    | StrangerCall(call: Call)

  function Init(owner: Address, clock: int, users: set<string>): State
  {
    State(clock, clock, 0, users, map[], Idle, Deployed(owner), Log(map[], [], [], []))
  }

  ghost predicate Enabled(cfg: Config, s: State, step: Step)
  {
    match step
    case Tick(to) => to >= s.clock
    case AddUser(_) => true
    case Send(user, f, now) =>
      IsUsername(user) && ValidFrame(f) && s.lastNow <= now && s.clock - cfg.lag <= now <= s.clock
    case BatchRead(now, snap) => s.batcher.Idle? && now <= s.clock && IsBatchRead(cfg, s.rows, now, snap)
    case BatchSubmit(_, _, _) => s.batcher.Submitting?
    case BatchDelete => s.batcher.Submitted?
    case BatchAbort => true
    case StrangerCall(call) => call.sender != s.chain.owner
  }

  function AfterSend(cfg: Config, s: State, user: string, f: Frame, now: int): State
  {
    var (rows, nextId, reply) := HandleSend(cfg, s.rows, s.nextId, s.users, user, f, now);
    var s' := s.(lastNow := now, rows := rows, nextId := nextId);
    if reply.Rejected? then s' else
    var inserts := if f.mid in s.rows then s.log.inserts else s.log.inserts + [Insert(f.mid, now)];
    s'.(log := Log(s.log.latest[reply.row := rows[f.mid]], inserts, s.log.accepted + [Sent(user, f, now)],
                   s.log.history))
  }

  function ChunkEnd(b: Batcher): nat
    requires b.Submitting?
  {
    if b.sent + MAX_LEAVES < |b.snap| then b.sent + MAX_LEAVES else |b.snap|
  }

  function AfterSubmit(H: Keccak, s: State, account: Address, fate: Fate, time: nat): State
    requires s.batcher.Submitting? && s.batcher.sent <= |s.batcher.snap|
  {
    var end := ChunkEnd(s.batcher);
    var chunk := Messages(s.batcher.snap)[s.batcher.sent..end];
    var (chain, ok) := Submit(H, s.chain, account, chunk, fate, time);
    var log := s.log.(history := HistoryAfter(H, s.chain, s.log.history, account, chunk, fate, time));
    s.(chain := chain, log := log,
       batcher := if !ok then Idle else if end == |s.batcher.snap| then Submitted(s.batcher.snap)
                  else Submitting(s.batcher.snap, end))
  }

  function Next(cfg: Config, H: Keccak, s: State, step: Step): State
  {
    match step
    case Tick(to) => s.(clock := to)
    case AddUser(name) => s.(users := s.users + {name})
    case Send(user, f, now) => AfterSend(cfg, s, user, f, now)
    case BatchRead(_, snap) => if snap == [] then s else s.(batcher := Submitting(snap, 0))
    case BatchSubmit(account, fate, time) =>
      if s.batcher.Submitting? && s.batcher.sent <= |s.batcher.snap| then AfterSubmit(H, s, account, fate, time) else s
    case BatchDelete =>
      if s.batcher.Submitted? then s.(rows := DeleteRows(s.rows, s.batcher.snap), batcher := Idle) else s
    case BatchAbort => s.(batcher := Idle)
    case StrangerCall(call) => s.(chain := Execute(s.chain, call).0)
  }

  ghost predicate ValidRun(cfg: Config, H: Keccak, s: State, steps: seq<Step>)
    decreases |steps|
  {
    steps == [] || (Enabled(cfg, s, steps[0]) && ValidRun(cfg, H, Next(cfg, H, s, steps[0]), steps[1..]))
  }

  function Run(cfg: Config, H: Keccak, s: State, steps: seq<Step>): State
    decreases |steps|
  {
    if steps == [] then s else Run(cfg, H, Next(cfg, H, s, steps[0]), steps[1..])
  }

  // ----- invariants

  ghost predicate TableInv(cfg: Config, s: State)
  {
    && s.lastNow <= s.clock
    && forall m :: m in s.rows ==>
         var r := s.rows[m];
         r.mid == m && r.id < s.nextId && Names(m, r.sender, r.recipient)
         && r.createdAt <= s.lastNow && r.editDeadline == r.createdAt + cfg.editWindow
  }

  ghost predicate LatestInv(s: State)
  {
    && (forall m :: m in s.rows ==> s.rows[m].id in s.log.latest && s.log.latest[s.rows[m].id] == s.rows[m])
    && (forall id :: id in s.log.latest ==> s.log.latest[id].id == id < s.nextId)
  }

  /** While a batch is under way, no row it read leaves the table, and all of them stay closed. */
  ghost predicate SnapInv(cfg: Config, s: State)
  {
    s.batcher.Idle? ||
    (&& (forall r :: r in s.batcher.snap ==>
           r.mid in s.rows && s.rows[r.mid] == r.(ciphertext := s.rows[r.mid].ciphertext)
           && r.editDeadline + cfg.editGrace < s.clock)
     && (s.batcher.Submitting? ==> s.batcher.sent < |s.batcher.snap|))
  }

  ghost predicate InHistory(history: seq<seq<Bytes>>, m: Bytes)
  {
    exists i :: 0 <= i < |history| && m in history[i]
  }

  ghost predicate SentInv(s: State)
  {
    match s.batcher
    case Idle => true
    case Submitting(snap, sent) =>
      sent <= |snap| && forall k :: 0 <= k < sent ==> InHistory(s.log.history, Message(snap[k]))
    case Submitted(snap) => forall r :: r in snap ==> InHistory(s.log.history, Message(r))
  }

  ghost predicate Inv(cfg: Config, H: Keccak, s: State)
  {
    TableInv(cfg, s) && LatestInv(s) && SnapInv(cfg, s) && SentInv(s) && HonestHistory(H, s.chain, s.log.history)
  }

  /** An edit replaces the text of one row; an insertion adds one row under the next id. */
  lemma SendEffect(cfg: Config, s: State, user: string, f: Frame, now: int)
    ensures var s' := AfterSend(cfg, s, user, f, now);
            s' == s.(lastNow := now)
            || (f.mid in s.rows && var r := s.rows[f.mid].(ciphertext := f.ciphertext);
                && s'.rows == s.rows[f.mid := r] && s'.nextId == s.nextId
                && s'.log.latest == s.log.latest[r.id := r])
            || (var r := Row(s.nextId, f.mid, user, f.recipient, f.ciphertext, now, now + cfg.editWindow);
                && f.mid !in s.rows && Names(f.mid, user, f.recipient)
                && s'.rows == s.rows[f.mid := r] && s'.nextId == s.nextId + 1
                && s'.log.latest == s.log.latest[r.id := r])
    ensures var s' := AfterSend(cfg, s, user, f, now); s'.lastNow == now && s'.clock == s.clock
  {
    hide ParseMid;
  }

  lemma SendKeepsTable(cfg: Config, s: State, user: string, f: Frame, now: int)
    requires TableInv(cfg, s) && s.lastNow <= now <= s.clock
    ensures TableInv(cfg, AfterSend(cfg, s, user, f, now))
  {
    hide AfterSend, Names;
    SendEffect(cfg, s, user, f, now);
  }

  lemma SendKeepsLatest(cfg: Config, s: State, user: string, f: Frame, now: int)
    requires TableInv(cfg, s) && LatestInv(s)
    ensures LatestInv(AfterSend(cfg, s, user, f, now))
  {
    hide AfterSend, Names;
    SendEffect(cfg, s, user, f, now);
  }

  lemma SendKeepsSnap(cfg: Config, s: State, user: string, f: Frame, now: int)
    requires TableInv(cfg, s) && SnapInv(cfg, s)
    ensures SnapInv(cfg, AfterSend(cfg, s, user, f, now))
  {
    hide ParseMid, Names;
  }

  lemma SendKeepsInv(cfg: Config, H: Keccak, s: State, user: string, f: Frame, now: int)
    requires Inv(cfg, H, s) && Enabled(cfg, s, Send(user, f, now))
    ensures Inv(cfg, H, AfterSend(cfg, s, user, f, now))
  {
    hide HonestHistory, InHistory, HandleSend, TableInv, LatestInv, SnapInv;
    SendKeepsTable(cfg, s, user, f, now);
    SendKeepsLatest(cfg, s, user, f, now);
    SendKeepsSnap(cfg, s, user, f, now);
  }

  lemma InHistoryGrows(h: seq<seq<Bytes>>, h': seq<seq<Bytes>>, m: Bytes)
    requires h <= h' && InHistory(h, m)
    ensures InHistory(h', m)
  {
    var i :| 0 <= i < |h| && m in h[i];
    assert m in h'[i];
  }

  /** The rows sent so far, before and after one more chunk. */
  lemma ChunkInHistory(snap: seq<Row>, sent: nat, end: nat, h: seq<seq<Bytes>>, k: nat)
    requires sent <= end <= |snap| && k < end
    requires k < sent ==> InHistory(h, Message(snap[k]))
    ensures InHistory(h + [Messages(snap)[sent..end]], Message(snap[k]))
  {
    hide Message;
    var chunk := Messages(snap)[sent..end];
    if k < sent {
      InHistoryGrows(h, h + [chunk], Message(snap[k]));
    } else {
      assert chunk[k - sent] == Message(snap[k]);
      assert Message(snap[k]) in (h + [chunk])[|h|];
    }
  }

  lemma SubmitKeepsInv(cfg: Config, H: Keccak, s: State, account: Address, fate: Fate, time: nat)
    requires Inv(cfg, H, s) && s.batcher.Submitting?
    ensures Inv(cfg, H, AfterSubmit(H, s, account, fate, time))
  {
    hide Submit, HonestHistory, HistoryAfter, InHistory, Message, ParseMid;
    var s' := AfterSubmit(H, s, account, fate, time);
    var b, end := s.batcher, ChunkEnd(s.batcher);
    SubmitKeepsHistory(H, s.chain, s.log.history, account, Messages(b.snap)[b.sent..end], fate, time);
    if !s'.batcher.Idle? {
      forall k | 0 <= k < end ensures InHistory(s'.log.history, Message(b.snap[k])) {
        ChunkInHistory(b.snap, b.sent, end, s.log.history, k);
      }
    }
  }

  lemma NextKeepsInv(cfg: Config, H: Keccak, s: State, step: Step)
    requires Inv(cfg, H, s) && Enabled(cfg, s, step)
    ensures Inv(cfg, H, Next(cfg, H, s, step))
  {
    match step
    case Send(user, f, now) => SendKeepsInv(cfg, H, s, user, f, now);
    case BatchSubmit(account, fate, time) => SubmitKeepsInv(cfg, H, s, account, fate, time);
    case Tick(_) =>
    case AddUser(_) =>
    case BatchRead(_, _) =>
    case BatchDelete =>
    case BatchAbort =>
    case StrangerCall(_) =>
  }

  lemma InitInv(cfg: Config, H: Keccak, owner: Address, clock: int, users: set<string>)
    ensures Inv(cfg, H, Init(owner, clock, users))
  {
  }

  lemma {:induction false} RunKeepsInv(cfg: Config, H: Keccak, s: State, steps: seq<Step>)
    requires Inv(cfg, H, s) && ValidRun(cfg, H, s, steps)
    ensures Inv(cfg, H, Run(cfg, H, s, steps))
    decreases |steps|
  {
    hide Inv, Next, Enabled;
    if steps != [] {
      NextKeepsInv(cfg, H, s, steps[0]);
      RunKeepsInv(cfg, H, Next(cfg, H, s, steps[0]), steps[1..]);
    }
  }

  lemma {:induction false} RunAppend(cfg: Config, H: Keccak, s: State, steps: seq<Step>, step: Step)
    requires ValidRun(cfg, H, s, steps) && Enabled(cfg, Run(cfg, H, s, steps), step)
    ensures ValidRun(cfg, H, s, steps + [step])
    ensures Run(cfg, H, s, steps + [step]) == Next(cfg, H, Run(cfg, H, s, steps), step)
    decreases |steps|
  {
    hide Enabled, Next;
    var all := steps + [step];
    if steps == [] {
      assert all == [step] && all[1..] == [];
    } else {
      RunAppend(cfg, H, Next(cfg, H, s, steps[0]), steps[1..], step);
      assert all[1..] == steps[1..] + [step];
    }
  }

  lemma {:induction false} RunConcat(cfg: Config, H: Keccak, s: State, a: seq<Step>, b: seq<Step>)
    requires ValidRun(cfg, H, s, a) && ValidRun(cfg, H, Run(cfg, H, s, a), b)
    ensures ValidRun(cfg, H, s, a + b) && Run(cfg, H, s, a + b) == Run(cfg, H, Run(cfg, H, s, a), b)
    decreases |a|
  {
    hide Enabled, Next;
    if a == [] {
      assert a + b == b;
    } else {
      RunConcat(cfg, H, Next(cfg, H, s, a[0]), a[1..], b);
      assert (a + b)[0] == a[0] && (a + b)[1..] == a[1..] + b;
    }
  }

  // ----- how the runs of the exactness results begin

  const MID := NewMid("a", "b", 0)

  lemma MidFacts()
    ensures ParseMid(MID) == Some(Mid("a", "b", 0)) && |MID| == 5 && IsUsername("a") && IsUsername("b")
  {
    NewMidParses("a", "b", 0);
    assert PrintNat(0) == "0";
  }

  /** Nothing is staged or being batched, and a handler may read `t`, at which the mid is acceptable. */
  predicate Fresh(cfg: Config, s: State, t: int)
  {
    && s.rows == map[] && s.batcher.Idle? && s.users == {"b"}
    && s.lastNow <= t && s.clock - cfg.lag <= t <= s.clock && 0 - cfg.clockSkew <= t <= cfg.Open()
  }

  function StagedRow(cfg: Config, id: nat, t: int): Row { Row(id, MID, "a", "b", "x", t, t + cfg.editWindow) }

  /** The first clock value at which a row staged at `t` is closed. */
  function Closed(cfg: Config, s: State, t: int): int
  {
    if s.clock <= t + cfg.Open() then t + cfg.Open() + 1 else s.clock
  }

  /** The mid is staged at `t`, closes, and is read by the batcher. */
  function StageAndRead(cfg: Config, s: State, t: int): seq<Step>
  {
    var end := Closed(cfg, s, t);
    [Send("a", Frame("b", "x", MID), t), Tick(end), BatchRead(end, [StagedRow(cfg, s.nextId, t)])]
  }

  function AfterRead(cfg: Config, s: State, t: int): State
  {
    var r := StagedRow(cfg, s.nextId, t);
    s.(clock := Closed(cfg, s, t), lastNow := t, nextId := s.nextId + 1, rows := map[MID := r],
       batcher := Submitting([r], 0),
       log := Log(s.log.latest[r.id := r], s.log.inserts + [Insert(MID, t)],
                  s.log.accepted + [Sent("a", Frame("b", "x", MID), t)], s.log.history))
  }

  lemma FirstSendAccepted(cfg: Config, H: Keccak, s: State, t: int)
    requires Fresh(cfg, s, t)
    ensures var step := Send("a", Frame("b", "x", MID), t);
            Enabled(cfg, s, step) && Next(cfg, H, s, step) == AfterRead(cfg, s, t).(clock := s.clock, batcher := Idle)
  {
    hide ParseMid;
    MidFacts();
    assert ValidateMid(cfg, MID, "a", "b", t) == None;
    hide ValidateMid;
    var s1 := Next(cfg, H, s, Send("a", Frame("b", "x", MID), t));
    assert s1.rows == map[MID := StagedRow(cfg, s.nextId, t)];
    assert s1.log == AfterRead(cfg, s, t).log;
  }

  lemma StagedAndRead(cfg: Config, H: Keccak, s: State, t: int)
    requires Fresh(cfg, s, t)
    ensures ValidRun(cfg, H, s, StageAndRead(cfg, s, t))
    ensures Run(cfg, H, s, StageAndRead(cfg, s, t)) == AfterRead(cfg, s, t)
  {
    hide HandleSend, ValidRun, Run;
    var all, end := StageAndRead(cfg, s, t), Closed(cfg, s, t);
    FirstSendAccepted(cfg, H, s, t);
    EmptyRun(cfg, H, s);
    RunAppend(cfg, H, s, [], all[0]);
    assert [] + [all[0]] == [all[0]];
    RunAppend(cfg, H, s, [all[0]], all[1]);
    var s2 := Run(cfg, H, s, [all[0]] + [all[1]]);
    assert s2 == AfterRead(cfg, s, t).(batcher := Idle);
    assert IsBatchRead(cfg, s2.rows, end, [StagedRow(cfg, s.nextId, t)]);
    RunAppend(cfg, H, s, [all[0]] + [all[1]], all[2]);
    assert all == [all[0]] + [all[1]] + [all[2]];
  }

  lemma EmptyRun(cfg: Config, H: Keccak, s: State)
    ensures ValidRun(cfg, H, s, []) && Run(cfg, H, s, []) == s
  {
  }

  // ----- anchored content is final

  /** Rows cannot change once read: the handler's reading is too fresh, or rows never accept an edit at all. */
  predicate EditsCloseBeforeRead(cfg: Config) { cfg.lag <= 1 || cfg.Open() == 0 }

  predicate Present(rows: Table, r: Row) { r.mid in rows && rows[r.mid].id == r.id }

  /** Every row that has left the table is on the chain with the last content ever accepted for it. */
  ghost predicate Final(s: State)
  {
    forall id :: id in s.log.latest ==>
      var r := s.log.latest[id];
      Present(s.rows, r) || InHistory(s.log.history, Message(r))
  }

  ghost predicate SnapUnchanged(s: State)
  {
    s.batcher.Idle? || forall r :: r in s.batcher.snap ==> r.mid in s.rows && s.rows[r.mid] == r
  }

  /** No edit of a row that a batch has read is accepted, so failed and retried batches never see two versions. */
  lemma SendLeavesSnapAlone(cfg: Config, s: State, user: string, f: Frame, now: int)
    requires EditsCloseBeforeRead(cfg) && TableInv(cfg, s) && SnapInv(cfg, s) && SnapUnchanged(s)
    requires Enabled(cfg, s, Send(user, f, now))
    ensures SnapUnchanged(AfterSend(cfg, s, user, f, now))
  {
    hide ParseMid, Message;
  }

  lemma SendKeepsFinal(cfg: Config, s: State, user: string, f: Frame, now: int)
    requires TableInv(cfg, s) && LatestInv(s) && Final(s)
    ensures Final(AfterSend(cfg, s, user, f, now))
  {
    hide ParseMid, Message, InHistory;
  }

  lemma DeleteKeepsFinal(cfg: Config, s: State)
    requires LatestInv(s) && SnapUnchanged(s) && SentInv(s) && Final(s) && s.batcher.Submitted?
    ensures Final(s.(rows := DeleteRows(s.rows, s.batcher.snap), batcher := Idle))
  {
    hide Message, InHistory;
    var s' := s.(rows := DeleteRows(s.rows, s.batcher.snap), batcher := Idle);
    forall id | id in s.log.latest && Present(s.rows, s.log.latest[id]) && !Present(s'.rows, s.log.latest[id])
      ensures InHistory(s.log.history, Message(s.log.latest[id]))
    {
      var r := s.log.latest[id];
      var q :| q in s.batcher.snap && q.id == s.rows[r.mid].id;
      assert s.log.latest[s.rows[q.mid].id] == q;
    }
  }

  lemma NextKeepsFinal(cfg: Config, H: Keccak, s: State, step: Step)
    requires EditsCloseBeforeRead(cfg) && Inv(cfg, H, s) && Enabled(cfg, s, step) && SnapUnchanged(s) && Final(s)
    ensures var s' := Next(cfg, H, s, step); SnapUnchanged(s') && Final(s')
  {
    hide ParseMid, Message, InHistory, HonestHistory, Submit, HistoryAfter, AfterSend;
    match step
    case Send(user, f, now) =>
      SendLeavesSnapAlone(cfg, s, user, f, now);
      SendKeepsFinal(cfg, s, user, f, now);
    case BatchSubmit(account, fate, time) =>
      var s' := AfterSubmit(H, s, account, fate, time);
      var chunk := Messages(s.batcher.snap)[s.batcher.sent..ChunkEnd(s.batcher)];
      SubmitKeepsHistory(H, s.chain, s.log.history, account, chunk, fate, time);
      forall id | id in s.log.latest && InHistory(s.log.history, Message(s.log.latest[id]))
        ensures InHistory(s'.log.history, Message(s.log.latest[id]))
      {
        InHistoryGrows(s.log.history, s'.log.history, Message(s.log.latest[id]));
      }
    case BatchDelete => DeleteKeepsFinal(cfg, s);
    case Tick(_) =>
    case AddUser(_) =>
    case BatchRead(_, _) =>
    case BatchAbort =>
    case StrangerCall(_) =>
  }

  lemma {:induction false} RunKeepsFinal(cfg: Config, H: Keccak, s: State, steps: seq<Step>)
    requires EditsCloseBeforeRead(cfg) && Inv(cfg, H, s) && SnapUnchanged(s) && Final(s) && ValidRun(cfg, H, s, steps)
    ensures Final(Run(cfg, H, s, steps))
    decreases |steps|
  {
    hide Inv, Next, Enabled, SnapUnchanged, Final;
    if steps != [] {
      NextKeepsInv(cfg, H, s, steps[0]);
      NextKeepsFinal(cfg, H, s, steps[0]);
      RunKeepsFinal(cfg, H, Next(cfg, H, s, steps[0]), steps[1..]);
    }
  }
}
