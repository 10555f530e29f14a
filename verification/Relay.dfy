/**
  The relay server: the handler that feeds both queues, and the staging and
  delivery systems running side by side on one clock.
 */
module Relay {
  import opened Words
  import opened Mids
  import opened Contract
  import St = Staging
  import Dl = Delivery

  // ----- the objects the handlers update

  class SessionRegistry {
    var sessions: map<string, Dl.Socket>

    constructor ()
      ensures sessions == map[]
    {
      sessions := map[];
    }

    method Register(username: string, socket: Dl.Socket) returns (ok: bool)
      modifies this
      ensures ok <==> username !in old(sessions)
      ensures sessions == if ok then old(sessions)[username := socket] else old(sessions)
    {
      if username in sessions { return false; }
      sessions := sessions[username := socket];
      return true;
    }

    method Unregister(username: string)
      modifies this
      ensures sessions == old(sessions) - {username}
    {
      if username in sessions {
        sessions := map u | u in sessions && u != username :: sessions[u];
      }
    }

    method Get(username: string) returns (r: Option<Dl.Socket>)
      ensures r == if username in sessions then Some(sessions[username]) else None
    {
      if username in sessions { return Some(sessions[username]); }
      return None;
    }
  }

  class Database {
    var users: set<string>
    var staging: St.Table
    var nextStaged: nat
    var queue: map<nat, Dl.QueueRow>
    var nextQueued: nat

    constructor (users: set<string>)
      ensures this.users == users && staging == map[] && nextStaged == 0 && queue == map[] && nextQueued == 0
    {
      this.users, staging, nextStaged, queue, nextQueued := users, map[], 0, map[], 0;
    }

    method Enqueue(number: nat, e: Dl.Envelope, ttl: nat)
      modifies this`queue, this`nextQueued
      ensures queue == old(queue)[old(nextQueued) := Dl.QueueRow(number, e.recipient, e.deliver, e.now, e.now + ttl)]
      ensures nextQueued == old(nextQueued) + 1
    {
      queue := queue[nextQueued := Dl.QueueRow(number, e.recipient, e.deliver, e.now, e.now + ttl)];
      nextQueued := nextQueued + 1;
    }

    /** `handle_send_message` up to its first await; the socket returned is the one to send on. */
    method HandleSendMessage(cfg: St.Config, ttl: nat, registry: SessionRegistry, number: nat,
                             user: string, frame: St.Frame, now: int)
      returns (reply: St.Reply, direct: Option<Dl.Socket>)
      modifies this
      ensures users == old(users)
      ensures (staging, nextStaged, reply) == St.HandleSend(cfg, old(staging), old(nextStaged), users, user, frame, now)
      ensures reply.Rejected? ==>
                staging == old(staging) && queue == old(queue) && nextQueued == old(nextQueued) && direct.None?
      ensures reply.Accepted? ==>
                direct == (if frame.recipient in registry.sessions then Some(registry.sessions[frame.recipient])
                           else None)
      ensures reply.Accepted? && direct.Some? ==> queue == old(queue) && nextQueued == old(nextQueued)
      ensures reply.Accepted? && direct.None? ==>
                && nextQueued == old(nextQueued) + 1
                && queue == old(queue)[old(nextQueued) :=
                     Dl.QueueRow(number, frame.recipient, Dl.Deliver(user, frame.ciphertext, frame.mid),
                                 now, now + ttl)]
    {
      direct := None;
      var recipient := frame.recipient;
      if frame.mid in staging {
        var existing := staging[frame.mid];
        if existing.sender != user || existing.recipient != frame.recipient {
          return St.Rejected(St.UpdateNotAuthorised), None;
        }
        if now >= existing.editDeadline + cfg.editGrace {
          return St.Rejected(St.EditDeadlinePassed), None;
        }
        recipient := existing.recipient;
        staging := staging[frame.mid := existing.(ciphertext := frame.ciphertext)];
        reply := St.Accepted(existing.id);
      } else {
        var error := St.ValidateMid(cfg, frame.mid, user, frame.recipient, now);
        if error.Some? {
          return St.Rejected(error.value), None;
        }
        if frame.recipient !in users {
          return St.Rejected(St.UnknownRecipient), None;
        }
        var row := St.Row(nextStaged, frame.mid, user, recipient, frame.ciphertext, now, now + cfg.editWindow);
        staging := staging[frame.mid := row];
        reply := St.Accepted(nextStaged);
        nextStaged := nextStaged + 1;
      }
      direct := registry.Get(recipient);
      if direct.None? {
        Enqueue(number, Dl.Envelope(recipient, Dl.Deliver(user, frame.ciphertext, frame.mid), now), ttl);
      }
    }

    /** The sweep deletes exactly the rows whose time has passed. */
    method RunCleanup(now: int) returns (count: nat)
      modifies this`queue
      ensures queue == map id | id in old(queue) && old(queue)[id].expiresAt >= now :: old(queue)[id]
      ensures count == |old(queue)| - |queue|
    {
      var before := queue;
      var stale := set id | id in before && before[id].expiresAt < now;
      queue := map id | id in before && before[id].expiresAt >= now :: before[id];
      assert before.Keys == queue.Keys + stale && queue.Keys !! stale;
      count := |stale|;
    }
  }

  // ----- side by side

  datatype State = State(st: St.State, dl: Dl.State)

  datatype Step =
    | Tick(to: int)
    | Send(user: string, frame: St.Frame, now: int)
    | Stage(stage: St.Step)
    | Carry(carry: Dl.Step)

  function Init(owner: Address, clock: int, users: set<string>): State
  {
    State(St.Init(owner, clock, users), Dl.Init(clock))
  }

  ghost predicate Enabled(cfg: St.Config, s: State, step: Step)
  {
    match step
    case Tick(to) => to >= s.st.clock && to >= s.dl.clock
    case Send(user, f, now) => St.Enabled(cfg, s.st, St.Send(user, f, now)) && now <= s.dl.clock
    case Stage(x) => !x.Tick? && !x.Send? && St.Enabled(cfg, s.st, x)
    case Carry(x) => !x.Tick? && !x.Accept? && Dl.Enabled(s.dl, x)
  }

  predicate Accepts(cfg: St.Config, s: State, user: string, f: St.Frame, now: int)
  {
    St.HandleSend(cfg, s.st.rows, s.st.nextId, s.st.users, user, f, now).2.Accepted?
  }

  function ToEnvelope(a: St.Sent): Dl.Envelope
  {
    Dl.Envelope(a.frame.recipient, Dl.Deliver(a.user, a.frame.ciphertext, a.frame.mid), a.now)
  }

  ghost function Next(cfg: St.Config, H: Keccak, ttl: nat, s: State, step: Step): State
    requires Enabled(cfg, s, step)
  {
    match step
    case Tick(to) => State(St.Next(cfg, H, s.st, St.Tick(to)), Dl.Next(s.dl, Dl.Tick(to), ttl))
    case Send(user, f, now) =>
      State(St.Next(cfg, H, s.st, St.Send(user, f, now)),
            if Accepts(cfg, s, user, f, now)
            then Dl.Next(s.dl, Dl.Accept(ToEnvelope(St.Sent(user, f, now))), ttl) else s.dl)
    case Stage(x) => State(St.Next(cfg, H, s.st, x), s.dl)
    case Carry(x) => State(s.st, Dl.Next(s.dl, x, ttl))
  }

  ghost predicate ValidRun(cfg: St.Config, H: Keccak, ttl: nat, s: State, steps: seq<Step>)
    decreases |steps|
  {
    steps == [] || (Enabled(cfg, s, steps[0]) && ValidRun(cfg, H, ttl, Next(cfg, H, ttl, s, steps[0]), steps[1..]))
  }

  ghost function Run(cfg: St.Config, H: Keccak, ttl: nat, s: State, steps: seq<Step>): State
    requires ValidRun(cfg, H, ttl, s, steps)
    decreases |steps|
  {
    if steps == [] then s else Run(cfg, H, ttl, Next(cfg, H, ttl, s, steps[0]), steps[1..])
  }

  /** Delivery's n-th envelope is the n-th frame the staging half accepted. */
  ghost predicate Linked(s: State)
  {
    && |s.dl.accepted| == |s.st.log.accepted|
    && forall n :: 0 <= n < |s.dl.accepted| ==> s.dl.accepted[n] == ToEnvelope(s.st.log.accepted[n])
  }

  ghost predicate Inv(cfg: St.Config, H: Keccak, ttl: nat, s: State)
  {
    St.Inv(cfg, H, s.st) && Dl.Inv(s.dl, ttl) && Linked(s)
  }

  /** A refused frame leaves staging, the chain, the logs and the delivery side exactly as they were. */
  lemma RejectedFrameChangesNothing(cfg: St.Config, H: Keccak, ttl: nat, s: State, user: string, f: St.Frame, now: int)
    requires Enabled(cfg, s, Send(user, f, now)) && !Accepts(cfg, s, user, f, now)
    ensures Next(cfg, H, ttl, s, Send(user, f, now)) == s.(st := s.st.(lastNow := now))
  {
  }

  lemma StagingOnlyLogsSends(cfg: St.Config, H: Keccak, s: St.State, x: St.Step)
    requires !x.Send?
    ensures St.Next(cfg, H, s, x).log.accepted == s.log.accepted
  {
  }

  lemma DeliveryOnlyLogsAccepts(s: Dl.State, x: Dl.Step, ttl: nat)
    requires Dl.Enabled(s, x) && !x.Accept?
    ensures Dl.Next(s, x, ttl).accepted == s.accepted
  {
  }

  lemma SendKeepsLink(cfg: St.Config, H: Keccak, ttl: nat, s: State, user: string, f: St.Frame, now: int)
    requires Linked(s) && Enabled(cfg, s, Send(user, f, now))
    ensures Linked(Next(cfg, H, ttl, s, Send(user, f, now)))
  {
    hide ParseMid;
  }

  lemma NextKeepsInv(cfg: St.Config, H: Keccak, ttl: nat, s: State, step: Step)
    requires Inv(cfg, H, ttl, s) && Enabled(cfg, s, step)
    ensures Inv(cfg, H, ttl, Next(cfg, H, ttl, s, step))
  {
    hide St.Inv, Dl.Inv, St.Next, Dl.Next;
    match step
    case Tick(to) =>
      St.NextKeepsInv(cfg, H, s.st, St.Tick(to));
      Dl.NextKeepsInv(s.dl, Dl.Tick(to), ttl);
      StagingOnlyLogsSends(cfg, H, s.st, St.Tick(to));
      DeliveryOnlyLogsAccepts(s.dl, Dl.Tick(to), ttl);
    case Send(user, f, now) =>
      St.NextKeepsInv(cfg, H, s.st, St.Send(user, f, now));
      if Accepts(cfg, s, user, f, now) { Dl.NextKeepsInv(s.dl, Dl.Accept(ToEnvelope(St.Sent(user, f, now))), ttl); }
      SendKeepsLink(cfg, H, ttl, s, user, f, now);
    case Stage(x) =>
      St.NextKeepsInv(cfg, H, s.st, x);
      StagingOnlyLogsSends(cfg, H, s.st, x);
    case Carry(x) =>
      Dl.NextKeepsInv(s.dl, x, ttl);
      DeliveryOnlyLogsAccepts(s.dl, x, ttl);
  }

  lemma {:induction false} RunKeepsInv(cfg: St.Config, H: Keccak, ttl: nat, s: State, steps: seq<Step>)
    requires Inv(cfg, H, ttl, s) && ValidRun(cfg, H, ttl, s, steps)
    ensures Inv(cfg, H, ttl, Run(cfg, H, ttl, s, steps))
    decreases |steps|
  {
    hide Inv, Next, Enabled;
    if steps != [] {
      NextKeepsInv(cfg, H, ttl, s, steps[0]);
      RunKeepsInv(cfg, H, ttl, Next(cfg, H, ttl, s, steps[0]), steps[1..]);
    }
  }

  /** Every frame the server ever accepted, in every run from start-up, is accounted for with its content intact. */
  lemma AcceptedFramesAreNeverLost(cfg: St.Config, H: Keccak, ttl: nat, owner: Address, clock: int, users: set<string>,
                                   steps: seq<Step>, n: nat)
    requires ValidRun(cfg, H, ttl, Init(owner, clock, users), steps)
    requires n < |Run(cfg, H, ttl, Init(owner, clock, users), steps).st.log.accepted|
    ensures var s := Run(cfg, H, ttl, Init(owner, clock, users), steps);
            && n < |s.dl.accepted| && s.dl.accepted[n] == ToEnvelope(s.st.log.accepted[n])
            && Dl.Accounted(s.dl, n, ttl)
  {
    hide Dl.Accounted;
    St.InitInv(cfg, H, owner, clock, users);
    RunKeepsInv(cfg, H, ttl, Init(owner, clock, users), steps);
    var s := Run(cfg, H, ttl, Init(owner, clock, users), steps);
    assert Inv(cfg, H, ttl, s);
  }

  /** Nothing else is ever sent: each transfer is an accepted frame, on a socket of the recipient its sender named. */
  lemma OnlyAcceptedFramesAreSent(cfg: St.Config, H: Keccak, ttl: nat, owner: Address, clock: int, users: set<string>,
                                  steps: seq<Step>, x: Dl.Transfer)
    requires ValidRun(cfg, H, ttl, Init(owner, clock, users), steps)
    requires x in Run(cfg, H, ttl, Init(owner, clock, users), steps).dl.transfers
    ensures var s := Run(cfg, H, ttl, Init(owner, clock, users), steps);
            && x.number < |s.st.log.accepted|
            && var a := s.st.log.accepted[x.number];
            && x.deliver == Dl.Deliver(a.user, a.frame.ciphertext, a.frame.mid)
            && (a.frame.recipient, x.socket) in s.dl.registered
            && forall user :: (user, x.socket) in s.dl.registered ==> user == a.frame.recipient
  {
    St.InitInv(cfg, H, owner, clock, users);
    RunKeepsInv(cfg, H, ttl, Init(owner, clock, users), steps);
    var s := Run(cfg, H, ttl, Init(owner, clock, users), steps);
    assert Inv(cfg, H, ttl, s);
    assert Dl.TransferFits(s.dl, x);
  }
}
