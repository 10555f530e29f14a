/** Whose messages reach the chain, how often, and what the web page's answer means to a reader. */
module Provenance {
  import opened Words
  import opened Mids
  import opened Contract
  import opened Anchoring
  import opened Staging
  import Server = ServerTree
  import Utf8

  // ----- authorship

  function SentText(a: Sent): string { Preimage(a.frame.mid, a.frame.ciphertext) }

  /** The session user and the frame's recipient are the ones the mid names. */
  predicate Authentic(a: Sent) { Names(a.frame.mid, a.user, a.frame.recipient) }

  predicate IsRowOf(a: Sent, r: Row)
  {
    a.frame.mid == r.mid && a.frame.ciphertext == r.ciphertext && a.user == r.sender && a.frame.recipient == r.recipient
  }

  ghost predicate RowAccepted(accepted: seq<Sent>, r: Row)
  {
    exists k :: 0 <= k < |accepted| && IsRowOf(accepted[k], r)
  }

  ghost predicate MessageAccepted(accepted: seq<Sent>, m: Bytes)
  {
    exists k :: 0 <= k < |accepted| && Utf8.Encode(SentText(accepted[k])) == m
  }

  ghost predicate AuthorInv(s: State)
  {
    && (forall k :: 0 <= k < |s.log.accepted| ==> Authentic(s.log.accepted[k]))
    && (forall id :: id in s.log.latest ==> RowAccepted(s.log.accepted, s.log.latest[id]))
    && (s.batcher.Idle? || forall r :: r in s.batcher.snap ==> RowAccepted(s.log.accepted, r))
    && (forall i, m :: 0 <= i < |s.log.history| && m in s.log.history[i] ==> MessageAccepted(s.log.accepted, m))
  }

  lemma AcceptedGrows(a: seq<Sent>, b: Sent)
    ensures forall r :: RowAccepted(a, r) ==> RowAccepted(a + [b], r)
    ensures forall m :: MessageAccepted(a, m) ==> MessageAccepted(a + [b], m)
    ensures forall r :: IsRowOf(b, r) ==> RowAccepted(a + [b], r)
  {
    var c := a + [b];
    forall r | RowAccepted(a, r) ensures RowAccepted(c, r) {
      var k :| 0 <= k < |a| && IsRowOf(a[k], r);
      assert IsRowOf(c[k], r);
    }
    forall m | MessageAccepted(a, m) ensures MessageAccepted(c, m) {
      var k :| 0 <= k < |a| && Utf8.Encode(SentText(a[k])) == m;
      assert Utf8.Encode(SentText(c[k])) == m;
    }
    forall r | IsRowOf(b, r) ensures RowAccepted(c, r) {
      assert IsRowOf(c[|a|], r);
    }
  }

  lemma SendKeepsAuthors(cfg: Config, s: State, user: string, f: Frame, now: int)
    requires TableInv(cfg, s) && AuthorInv(s)
    ensures AuthorInv(AfterSend(cfg, s, user, f, now))
  {
    hide ParseMid, RowAccepted, MessageAccepted;
    var s' := AfterSend(cfg, s, user, f, now);
    if s'.log != s.log {
      AcceptedGrows(s.log.accepted, Sent(user, f, now));
      assert IsRowOf(Sent(user, f, now), s'.rows[f.mid]);
    }
  }

  lemma RowMessageAccepted(accepted: seq<Sent>, r: Row)
    requires RowAccepted(accepted, r)
    ensures MessageAccepted(accepted, Message(r))
  {
    var k :| 0 <= k < |accepted| && IsRowOf(accepted[k], r);
    assert Utf8.Encode(SentText(accepted[k])) == Message(r);
  }

  lemma SubmitKeepsAuthors(H: Keccak, s: State, account: Address, fate: Fate, time: nat)
    requires s.batcher.Submitting? && s.batcher.sent <= |s.batcher.snap|
    requires HonestHistory(H, s.chain, s.log.history) && AuthorInv(s)
    ensures AuthorInv(AfterSubmit(H, s, account, fate, time))
  {
    hide RowAccepted, MessageAccepted, Message, HonestHistory, Submit, HistoryAfter;
    var snap := s.batcher.snap;
    var chunk := Messages(snap)[s.batcher.sent..ChunkEnd(s.batcher)];
    SubmitKeepsHistory(H, s.chain, s.log.history, account, chunk, fate, time);
    forall m | m in chunk ensures MessageAccepted(s.log.accepted, m) {
      var k :| 0 <= k < |chunk| && chunk[k] == m;
      var r := snap[s.batcher.sent + k];
      assert r in snap && m == Message(r);
      RowMessageAccepted(s.log.accepted, r);
    }
  }

  lemma NextKeepsAuthors(cfg: Config, H: Keccak, s: State, step: Step)
    requires Inv(cfg, H, s) && Enabled(cfg, s, step) && AuthorInv(s)
    ensures AuthorInv(Next(cfg, H, s, step))
  {
    hide ParseMid, RowAccepted, MessageAccepted, HonestHistory, AfterSend, AfterSubmit;
    match step
    case Send(user, f, now) => SendKeepsAuthors(cfg, s, user, f, now);
    case BatchSubmit(account, fate, time) => SubmitKeepsAuthors(H, s, account, fate, time);
    case BatchRead(_, snap) =>
      forall r | r in snap ensures RowAccepted(s.log.accepted, r) {
        assert s.log.latest[s.rows[r.mid].id] == r;
      }
    case Tick(_) =>
    case AddUser(_) =>
    case BatchDelete =>
    case BatchAbort =>
    case StrangerCall(_) =>
  }

  lemma {:induction false} RunKeepsAuthors(cfg: Config, H: Keccak, s: State, steps: seq<Step>)
    requires Inv(cfg, H, s) && AuthorInv(s) && ValidRun(cfg, H, s, steps)
    ensures AuthorInv(Run(cfg, H, s, steps))
    decreases |steps|
  {
    hide Inv, Next, Enabled, AuthorInv;
    if steps != [] {
      NextKeepsInv(cfg, H, s, steps[0]);
      NextKeepsAuthors(cfg, H, s, steps[0]);
      RunKeepsAuthors(cfg, H, Next(cfg, H, s, steps[0]), steps[1..]);
    }
  }

  /** Every row ever staged names its own sender and recipient, and its text came from a session of that sender. */
  lemma RowsNameTheirSender(cfg: Config, H: Keccak, owner: Address, clock: int, users: set<string>,
                            steps: seq<Step>, id: nat)
    requires ValidRun(cfg, H, Init(owner, clock, users), steps)
    requires id in Run(cfg, H, Init(owner, clock, users), steps).log.latest
    ensures var s := Run(cfg, H, Init(owner, clock, users), steps); var r := s.log.latest[id];
            && Names(r.mid, r.sender, r.recipient)
            && exists k :: 0 <= k < |s.log.accepted| && s.log.accepted[k].user == r.sender
                           && IsRowOf(s.log.accepted[k], r)
  {
    hide Enabled, Next, ParseMid;
    InitInv(cfg, H, owner, clock, users);
    RunKeepsAuthors(cfg, H, Init(owner, clock, users), steps);
    var s := Run(cfg, H, Init(owner, clock, users), steps);
    assert RowAccepted(s.log.accepted, s.log.latest[id]);
    var k :| 0 <= k < |s.log.accepted| && IsRowOf(s.log.accepted[k], s.log.latest[id]);
    assert Authentic(s.log.accepted[k]);
  }

  // ----- the whole system, seen from the verification page

  /**
    What a reader learns from "valid": the pasted text is a message some
    authenticated session sent under its own name to the recipient named in
    it, or two byte strings that were hashed for it collide.
   */
  lemma AcceptedByPageWasSent(cfg: Config, H: Keccak, owner: Address, clock: int, users: set<string>,
                              steps: seq<Step>, text: string)
    requires ValidRun(cfg, H, Init(owner, clock, users), steps)
    requires IsValid(VerdictOf(H, Run(cfg, H, Init(owner, clock, users), steps).chain, Utf8.Encode(text)))
    ensures var s := Run(cfg, H, Init(owner, clock, users), steps);
            (exists k :: 0 <= k < |s.log.accepted| && text == SentText(s.log.accepted[k])
                         && Authentic(s.log.accepted[k]))
            || exists i :: 0 <= i < |s.log.history|
                           && Server.Collision(H, AcceptanceInputs(H, s.log.history, Utf8.Encode(text), i))
  {
    hide VerdictOf, AcceptanceInputs, Server.Collision, HonestHistory, Enabled, Next;
    InitInv(cfg, H, owner, clock, users);
    RunKeepsInv(cfg, H, Init(owner, clock, users), steps);
    RunKeepsAuthors(cfg, H, Init(owner, clock, users), steps);
    var s := Run(cfg, H, Init(owner, clock, users), steps);
    var m := Utf8.Encode(text);
    HonestChainRejects(H, s.chain, s.log.history, m);
    var i := VerdictOf(H, s.chain, m).batchIndex;
    if m in s.log.history[i] {
      assert MessageAccepted(s.log.accepted, m);
      var k :| 0 <= k < |s.log.accepted| && Utf8.Encode(SentText(s.log.accepted[k])) == m;
      Utf8.EncodeInjective(SentText(s.log.accepted[k]), text);
      assert Authentic(s.log.accepted[k]);
    }
  }

  /**
    And a reader who splits an accepted text at its mid is right: the mid and
    the ciphertext are those of an accepted frame, sent by the user that the
    mid names to the recipient it names, or two of the named strings collide.
   */
  lemma AcceptedTextSplitsRight(cfg: Config, H: Keccak, owner: Address, clock: int, users: set<string>,
                                steps: seq<Step>, mid: string, ciphertext: string)
    requires ValidRun(cfg, H, Init(owner, clock, users), steps) && ParseMid(mid).Some?
    requires IsValid(VerdictOf(H, Run(cfg, H, Init(owner, clock, users), steps).chain,
                               Utf8.Encode(Preimage(mid, ciphertext))))
    ensures var s := Run(cfg, H, Init(owner, clock, users), steps); var m := ParseMid(mid).value;
            (exists k :: 0 <= k < |s.log.accepted|
                         && s.log.accepted[k].frame == Frame(m.recipient, ciphertext, mid)
                         && s.log.accepted[k].user == m.sender)
            || exists i :: 0 <= i < |s.log.history|
                           && Server.Collision(H, AcceptanceInputs(H, s.log.history,
                                                                   Utf8.Encode(Preimage(mid, ciphertext)), i))
  {
    hide VerdictOf, AcceptanceInputs, Server.Collision, ValidRun, Run, ParseMid, Preimage;
    var s, text := Run(cfg, H, Init(owner, clock, users), steps), Preimage(mid, ciphertext);
    AcceptedByPageWasSent(cfg, H, owner, clock, users, steps, text);
    if k :| 0 <= k < |s.log.accepted| && text == SentText(s.log.accepted[k]) && Authentic(s.log.accepted[k]) {
      var f := s.log.accepted[k].frame;
      PreimageUnambiguous(mid, ciphertext, f.mid, f.ciphertext);
    }
  }

  /** And the page never disowns a message: once a row has left staging, its last accepted text is valid there. */
  lemma RemovedRowsVerify(cfg: Config, H: Keccak, owner: Address, clock: int, users: set<string>,
                          steps: seq<Step>, id: nat)
    requires EditsCloseBeforeRead(cfg) && ValidRun(cfg, H, Init(owner, clock, users), steps)
    requires var s := Run(cfg, H, Init(owner, clock, users), steps);
             id in s.log.latest && !Present(s.rows, s.log.latest[id])
    ensures var s := Run(cfg, H, Init(owner, clock, users), steps); var r := s.log.latest[id];
            IsValid(VerdictOf(H, s.chain, Utf8.Encode(Preimage(r.mid, r.ciphertext))))
  {
    hide VerdictOf, HonestHistory, Enabled, Next;
    InitInv(cfg, H, owner, clock, users);
    RunKeepsInv(cfg, H, Init(owner, clock, users), steps);
    RunKeepsFinal(cfg, H, Init(owner, clock, users), steps);
    var s := Run(cfg, H, Init(owner, clock, users), steps);
    HonestChainAccepts(H, s.chain, s.log.history, Message(s.log.latest[id]));
  }
}
