/**
  Live sockets, the offline queue, the drain on connect and the expiry sweep,
  as one step system. A handler stops at every await, so direct sends, drains
  and sweeps interleave freely. Accepted frames are numbered in order; the
  number travels with the frame so that its fate can be stated.
 */
module Delivery {

  datatype Deliver = Deliver(sender: string, ciphertext: string, mid: string)

  /** An accepted frame: for whom, what, and the handler's clock reading. */
  datatype Envelope = Envelope(recipient: string, deliver: Deliver, now: int)

  type Socket = nat

  datatype QueueRow = QueueRow(number: nat, recipient: string, deliver: Deliver, createdAt: int, expiresAt: int)
  datatype Flight = Flight(socket: Socket, recipient: string, deliver: Deliver, now: int)

  /** A drain holds its snapshot of (row id, row); `sent` says the current row's send has returned. */
  datatype Drain = Drain(user: string, ids: seq<nat>, rows: seq<QueueRow>, done: nat, sent: bool)

  datatype Transfer = Transfer(socket: Socket, number: nat, deliver: Deliver)

  datatype State = State(
    clock: int, sessions: map<string, Socket>, sockets: nat, queue: map<nat, QueueRow>, nextRow: nat,
    flights: map<nat, Flight>, drains: map<Socket, Drain>,
    // history
    accepted: seq<Envelope>, transfers: seq<Transfer>, expired: set<nat>, registered: set<(string, Socket)>)

  datatype Step =
    | Tick(to: int)
    | Accept(e: Envelope)
    | SendOk(number: nat)
    | SendFail(number: nat)
    | Register(user: string)
    | Unregister(user: string)
    | DrainRead(socket: Socket, user: string, ids: seq<nat>)
    | DrainSend(socket: Socket)
    | DrainDelete(socket: Socket)
    | Cleanup(now: int)

  function Init(clock: int): State
  {
    State(clock, map[], 0, map[], 0, map[], map[], [], [], {}, {})
  }

  /** The drain query: every row of this user once, oldest first. */
  ghost predicate IsDrainRead(s: State, user: string, ids: seq<nat>)
  {
    && (forall k :: 0 <= k < |ids| ==> ids[k] in s.queue && s.queue[ids[k]].recipient == user)
    && (forall id :: id in s.queue && s.queue[id].recipient == user ==> id in ids)
    && (forall j, k :: 0 <= j < k < |ids| ==>
          ids[j] != ids[k] && s.queue[ids[j]].createdAt <= s.queue[ids[k]].createdAt)
  }

  ghost predicate Enabled(s: State, step: Step)
  {
    match step
    case Tick(to) => to >= s.clock
    case Accept(e) => e.now <= s.clock
    case SendOk(n) => n in s.flights
    case SendFail(n) => n in s.flights
    case Register(user) => user !in s.sessions
    case Unregister(user) => user in s.sessions
    case DrainRead(socket, user, ids) =>
      user in s.sessions && s.sessions[user] == socket && socket !in s.drains && IsDrainRead(s, user, ids)
    case DrainSend(socket) =>
      socket in s.drains && s.drains[socket].done < |s.drains[socket].rows| && !s.drains[socket].sent
    case DrainDelete(socket) => socket in s.drains && s.drains[socket].sent
    case Cleanup(now) => now <= s.clock
  }

  function Enqueued(s: State, number: nat, e: Envelope, ttl: nat): State
  {
    s.(queue := s.queue[s.nextRow := QueueRow(number, e.recipient, e.deliver, e.now, e.now + ttl)],
       nextRow := s.nextRow + 1)
  }

  function AfterAccept(s: State, e: Envelope, ttl: nat): State
  {
    var number := |s.accepted|;
    var s' := s.(accepted := s.accepted + [e]);
    if e.recipient in s.sessions
    then s'.(flights := s.flights[number := Flight(s.sessions[e.recipient], e.recipient, e.deliver, e.now)])
    else Enqueued(s', number, e, ttl)
  }

  function AfterCleanup(s: State, now: int): State
  {
    s.(queue := map id | id in s.queue && s.queue[id].expiresAt >= now :: s.queue[id],
       expired := s.expired + set id | id in s.queue && s.queue[id].expiresAt < now :: s.queue[id].number)
  }

  function Next(s: State, step: Step, ttl: nat): State
    requires Enabled(s, step)
  {
    match step
    case Tick(to) => s.(clock := to)
    case Accept(e) => AfterAccept(s, e, ttl)
    case SendOk(n) =>
      var f := s.flights[n];
      s.(flights := s.flights - {n}, transfers := s.transfers + [Transfer(f.socket, n, f.deliver)])
    case SendFail(n) =>
      var f := s.flights[n];
      Enqueued(s.(flights := s.flights - {n}), n, Envelope(f.recipient, f.deliver, f.now), ttl)
    case Register(user) =>
      s.(sessions := s.sessions[user := s.sockets], sockets := s.sockets + 1,
         registered := s.registered + {(user, s.sockets)})
    case Unregister(user) =>
      s.(sessions := s.sessions - {user}, drains := s.drains - {s.sessions[user]})
    case DrainRead(socket, user, ids) =>
      var rows := seq(|ids|, k requires 0 <= k < |ids| => s.queue[ids[k]]);
      s.(drains := s.drains[socket := Drain(user, ids, rows, 0, false)])
    case DrainSend(socket) =>
      var d := s.drains[socket];
      var row := d.rows[d.done];
      s.(drains := s.drains[socket := d.(sent := true)],
         transfers := s.transfers + [Transfer(socket, row.number, row.deliver)])
    case DrainDelete(socket) =>
      var d := s.drains[socket];
      s.(drains := s.drains[socket := d.(done := d.done + 1, sent := false)],
         queue := if d.done < |d.ids| then s.queue - {d.ids[d.done]} else s.queue)
    case Cleanup(now) => AfterCleanup(s, now)
  }

  ghost predicate ValidRun(s: State, steps: seq<Step>, ttl: nat)
    decreases |steps|
  {
    steps == [] || (Enabled(s, steps[0]) && ValidRun(Next(s, steps[0], ttl), steps[1..], ttl))
  }

  ghost function Run(s: State, steps: seq<Step>, ttl: nat): State
    requires ValidRun(s, steps, ttl)
    decreases |steps|
  {
    if steps == [] then s else Run(Next(s, steps[0], ttl), steps[1..], ttl)
  }

  // ----- where an accepted frame can be

  ghost predicate Queued(s: State, n: nat)
  {
    exists id :: id in s.queue && s.queue[id].number == n
  }

  /** Sent whole, on a socket that was registered to its recipient. */
  ghost predicate Transferred(s: State, n: nat)
    requires n < |s.accepted|
  {
    exists k: Socket :: Transfer(k, n, s.accepted[n].deliver) in s.transfers
                        && (s.accepted[n].recipient, k) in s.registered
  }

  ghost predicate Expired(s: State, n: nat, ttl: nat)
    requires n < |s.accepted|
  {
    n in s.expired && s.accepted[n].now + ttl < s.clock
  }

  ghost predicate Accounted(s: State, n: nat, ttl: nat)
    requires n < |s.accepted|
  {
    Transferred(s, n) || n in s.flights || Queued(s, n) || Expired(s, n, ttl)
  }

  predicate RowFits(s: State, row: QueueRow, ttl: nat)
  {
    row.number < |s.accepted|
    && row == QueueRow(row.number, s.accepted[row.number].recipient, s.accepted[row.number].deliver,
                       s.accepted[row.number].now, s.accepted[row.number].now + ttl)
  }

  predicate FlightFits(s: State, n: nat, f: Flight)
  {
    n < |s.accepted|
    && f == Flight(f.socket, s.accepted[n].recipient, s.accepted[n].deliver, s.accepted[n].now)
    && (f.recipient, f.socket) in s.registered
  }

  ghost predicate DrainFits(s: State, socket: Socket, d: Drain, ttl: nat)
  {
    && |d.rows| == |d.ids| && d.done <= |d.rows| && (d.sent ==> d.done < |d.rows|)
    && (d.user, socket) in s.registered
    && (forall k :: 0 <= k < |d.rows| ==>
          RowFits(s, d.rows[k], ttl) && d.rows[k].recipient == d.user && d.ids[k] < s.nextRow)
    && (forall k :: 0 <= k < |d.rows| ==> d.ids[k] in s.queue ==> s.queue[d.ids[k]] == d.rows[k])
    && (forall k :: 0 <= k < |d.rows| && (k < d.done || (k == d.done && d.sent)) ==>
          Transfer(socket, d.rows[k].number, d.rows[k].deliver) in s.transfers)
    && (forall k :: 0 <= k < d.done ==> d.ids[k] !in s.queue)
  }

  ghost predicate HoldersInv(s: State, ttl: nat)
  {
    && (forall id :: id in s.queue ==> id < s.nextRow && RowFits(s, s.queue[id], ttl))
    && (forall n :: n in s.flights ==> FlightFits(s, n, s.flights[n]))
    && (forall socket :: socket in s.drains ==> DrainFits(s, socket, s.drains[socket], ttl))
    && (forall user :: user in s.sessions ==> (user, s.sessions[user]) in s.registered)
  }

  /** Nothing is held twice: one queue row at most per frame, and none while a direct send is pending. */
  ghost predicate SingleInv(s: State)
  {
    && (forall a, b :: a in s.queue && b in s.queue && s.queue[a].number == s.queue[b].number ==> a == b)
    && (forall id :: id in s.queue ==> s.queue[id].number !in s.flights && s.queue[id].number < |s.accepted|)
    && (forall n :: n in s.flights ==> n < |s.accepted|)
  }

  predicate TransferFits(s: State, x: Transfer)
  {
    x.number < |s.accepted| && x.deliver == s.accepted[x.number].deliver
    && (s.accepted[x.number].recipient, x.socket) in s.registered
  }

  /** Nothing is misrouted: whatever went out on a socket was accepted for the one user that socket belongs to. */
  ghost predicate RoutingInv(s: State)
  {
    && (forall x :: x in s.transfers ==> TransferFits(s, x))
    && (forall p, q :: p in s.registered && q in s.registered && p.1 == q.1 ==> p.0 == q.0)
    && (forall p :: p in s.registered ==> p.1 < s.sockets)
  }

  ghost predicate AccountedInv(s: State, ttl: nat)
  {
    forall n :: 0 <= n < |s.accepted| ==> Accounted(s, n, ttl)
  }

  ghost predicate Inv(s: State, ttl: nat)
  {
    HoldersInv(s, ttl) && SingleInv(s) && RoutingInv(s) && AccountedInv(s, ttl)
  }

  // ----- every step keeps the invariant

  /** What every step does to the state as a whole. */
  ghost predicate Grows(s: State, t: State)
  {
    && s.accepted <= t.accepted && s.registered <= t.registered && s.transfers <= t.transfers
    && s.expired <= t.expired && s.clock <= t.clock && s.nextRow <= t.nextRow
    && (forall id :: id in t.queue && id < s.nextRow ==> id in s.queue && t.queue[id] == s.queue[id])
  }

  lemma NextGrows(s: State, step: Step, ttl: nat)
    requires Enabled(s, step)
    ensures Grows(s, Next(s, step, ttl))
  {
  }

  predicate MayEnqueue(step: Step) { step.Accept? || step.SendFail? }

  lemma OthersEnqueueNothing(s: State, step: Step, ttl: nat)
    requires Enabled(s, step) && !MayEnqueue(step)
    ensures var t := Next(s, step, ttl);
            && t.accepted == s.accepted && t.nextRow == s.nextRow && t.flights.Keys <= s.flights.Keys
            && forall id :: id in t.queue ==> id in s.queue && t.queue[id] == s.queue[id]
  {
  }

  lemma EnqueueKeepsQueue(s: State, step: Step, ttl: nat)
    requires HoldersInv(s, ttl) && Enabled(s, step) && MayEnqueue(step)
    ensures var t := Next(s, step, ttl); forall id :: id in t.queue ==> id < t.nextRow && RowFits(t, t.queue[id], ttl)
  {
    hide DrainFits;
  }

  lemma NextKeepsQueue(s: State, step: Step, ttl: nat)
    requires HoldersInv(s, ttl) && Enabled(s, step)
    ensures var t := Next(s, step, ttl); forall id :: id in t.queue ==> id < t.nextRow && RowFits(t, t.queue[id], ttl)
  {
    hide DrainFits, FlightFits, Next;
    if MayEnqueue(step) { EnqueueKeepsQueue(s, step, ttl); } else { OthersEnqueueNothing(s, step, ttl); }
  }

  lemma NextKeepsFlights(s: State, step: Step, ttl: nat)
    requires HoldersInv(s, ttl) && Enabled(s, step)
    ensures var t := Next(s, step, ttl); forall n :: n in t.flights ==> FlightFits(t, n, t.flights[n])
    ensures var t := Next(s, step, ttl); forall user :: user in t.sessions ==> (user, t.sessions[user]) in t.registered
  {
    hide DrainFits, RowFits;
  }

  lemma DrainUndisturbed(s: State, t: State, socket: Socket, d: Drain, ttl: nat)
    requires Grows(s, t) && DrainFits(s, socket, d, ttl)
    ensures DrainFits(t, socket, d, ttl)
  {
  }

  lemma DrainReadFits(s: State, socket: Socket, user: string, ids: seq<nat>, ttl: nat)
    requires HoldersInv(s, ttl) && Enabled(s, DrainRead(socket, user, ids))
    ensures var t := Next(s, DrainRead(socket, user, ids), ttl);
            socket in t.drains && DrainFits(t, socket, t.drains[socket], ttl)
  {
    hide FlightFits;
  }

  lemma DrainSendFits(s: State, socket: Socket, ttl: nat)
    requires Enabled(s, DrainSend(socket)) && DrainFits(s, socket, s.drains[socket], ttl)
    ensures var t := Next(s, DrainSend(socket), ttl);
            socket in t.drains && DrainFits(t, socket, t.drains[socket], ttl)
  {
  }

  lemma DrainDeleteFits(s: State, socket: Socket, ttl: nat)
    requires Enabled(s, DrainDelete(socket)) && DrainFits(s, socket, s.drains[socket], ttl)
    ensures var t := Next(s, DrainDelete(socket), ttl);
            socket in t.drains && DrainFits(t, socket, t.drains[socket], ttl)
  {
    hide RowFits;
    var d := s.drains[socket];
    var t := Next(s, DrainDelete(socket), ttl);
    forall k | 0 <= k < |d.rows| ensures RowFits(t, d.rows[k], ttl) { RowFitsSame(s, t, d.rows[k], ttl); }
  }

  lemma RowFitsSame(s: State, t: State, row: QueueRow, ttl: nat)
    requires RowFits(s, row, ttl) && s.accepted == t.accepted
    ensures RowFits(t, row, ttl)
  {
  }

  lemma OwnDrainStep(s: State, step: Step, ttl: nat, socket: Socket)
    requires HoldersInv(s, ttl) && Enabled(s, step)
    requires (step.DrainRead? || step.DrainSend? || step.DrainDelete?) && step.socket == socket
    ensures var t := Next(s, step, ttl); socket in t.drains && DrainFits(t, socket, t.drains[socket], ttl)
  {
    hide DrainFits, RowFits, FlightFits;
    if step.DrainRead? {
      DrainReadFits(s, socket, step.user, step.ids, ttl);
    } else if step.DrainSend? {
      DrainSendFits(s, socket, ttl);
    } else {
      DrainDeleteFits(s, socket, ttl);
    }
  }

  lemma NextKeepsDrains(s: State, step: Step, ttl: nat)
    requires HoldersInv(s, ttl) && Enabled(s, step)
    ensures var t := Next(s, step, ttl); forall k :: k in t.drains ==> DrainFits(t, k, t.drains[k], ttl)
  {
    hide DrainFits, RowFits, FlightFits, Grows, AfterAccept, AfterCleanup;
    NextGrows(s, step, ttl);
    var t := Next(s, step, ttl);
    forall k | k in t.drains ensures DrainFits(t, k, t.drains[k], ttl) {
      if (step.DrainRead? || step.DrainSend? || step.DrainDelete?) && step.socket == k {
        OwnDrainStep(s, step, ttl, k);
      } else {
        DrainStays(s, step, ttl, k);
        DrainUndisturbed(s, t, k, s.drains[k], ttl);
      }
    }
  }

  lemma DrainStays(s: State, step: Step, ttl: nat, k: Socket)
    requires Enabled(s, step) && k in Next(s, step, ttl).drains
    requires !((step.DrainRead? || step.DrainSend? || step.DrainDelete?) && step.socket == k)
    ensures k in s.drains && Next(s, step, ttl).drains[k] == s.drains[k]
  {
  }

  lemma EnqueueKeepsSingle(s: State, n: nat, e: Envelope, ttl: nat)
    requires SingleInv(s) && n < |s.accepted| && n !in s.flights
    requires forall id :: id in s.queue ==> id < s.nextRow && s.queue[id].number != n
    ensures SingleInv(Enqueued(s, n, e, ttl))
  {
  }

  lemma NextKeepsSingle(s: State, step: Step, ttl: nat)
    requires HoldersInv(s, ttl) && SingleInv(s) && Enabled(s, step)
    ensures SingleInv(Next(s, step, ttl))
  {
    hide DrainFits, RowFits, FlightFits, Enqueued;
    if step.Accept? {
      if step.e.recipient !in s.sessions {
        EnqueueKeepsSingle(s.(accepted := s.accepted + [step.e]), |s.accepted|, step.e, ttl);
      }
    } else if step.SendFail? {
      var n, f := step.number, s.flights[step.number];
      EnqueueKeepsSingle(s.(flights := s.flights - {n}), n, Envelope(f.recipient, f.deliver, f.now), ttl);
    } else {
      hide Next;
      OthersEnqueueNothing(s, step, ttl);
    }
  }

  lemma TransferStillFits(s: State, t: State, x: Transfer)
    requires Grows(s, t) && TransferFits(s, x)
    ensures TransferFits(t, x)
  {
  }

  /** Only a returned send, direct or drained, adds a transfer. */
  lemma NewTransfersFit(s: State, step: Step, ttl: nat, x: Transfer)
    requires HoldersInv(s, ttl) && Enabled(s, step)
    requires x in Next(s, step, ttl).transfers && x !in s.transfers
    ensures TransferFits(s, x)
  {
    hide DrainFits, TransferFits, RowFits, AfterAccept, AfterCleanup, Enqueued;
    match step
    case SendOk(n) => FlightRoutes(s, n);
    case DrainSend(socket) => DrainSendRoutes(s, socket, ttl);
    case Accept(e) => AcceptKeepsLogs(s, e, ttl);
    case Cleanup(now) => CleanupKeepsLogs(s, now);
    case SendFail(n) => EnqueueKeepsLogs(s.(flights := s.flights - {n}), n, s.flights[n], ttl);
    case Tick(_) =>
    case Register(_) =>
    case Unregister(_) =>
    case DrainRead(_, _, _) =>
    case DrainDelete(_) =>
  }

  lemma FlightRoutes(s: State, n: nat)
    requires n in s.flights && FlightFits(s, n, s.flights[n])
    ensures TransferFits(s, Transfer(s.flights[n].socket, n, s.flights[n].deliver))
  {
  }

  lemma AcceptKeepsLogs(s: State, e: Envelope, ttl: nat)
    ensures var t := AfterAccept(s, e, ttl);
            t.transfers == s.transfers && t.registered == s.registered && t.sockets == s.sockets
  {
  }

  lemma EnqueueKeepsLogs(s: State, n: nat, f: Flight, ttl: nat)
    ensures Enqueued(s, n, Envelope(f.recipient, f.deliver, f.now), ttl).transfers == s.transfers
  {
  }

  lemma CleanupKeepsLogs(s: State, now: int)
    ensures var t := AfterCleanup(s, now);
            t.transfers == s.transfers && t.registered == s.registered && t.sockets == s.sockets
  {
  }

  lemma NextKeepsOwners(s: State, step: Step, ttl: nat)
    requires RoutingInv(s) && Enabled(s, step)
    ensures var t := Next(s, step, ttl);
            && (forall p, q :: p in t.registered && q in t.registered && p.1 == q.1 ==> p.0 == q.0)
            && (forall p :: p in t.registered ==> p.1 < t.sockets)
  {
    hide TransferFits;
  }

  lemma NextKeepsRouting(s: State, step: Step, ttl: nat)
    requires HoldersInv(s, ttl) && RoutingInv(s) && Enabled(s, step)
    ensures RoutingInv(Next(s, step, ttl))
  {
    hide DrainFits, TransferFits, Next, Grows;
    var t := Next(s, step, ttl);
    NextGrows(s, step, ttl);
    NextKeepsOwners(s, step, ttl);
    forall x | x in t.transfers ensures TransferFits(t, x) {
      if x !in s.transfers { NewTransfersFit(s, step, ttl, x); }
      TransferStillFits(s, t, x);
    }
  }

  lemma DrainSendRoutes(s: State, socket: Socket, ttl: nat)
    requires Enabled(s, DrainSend(socket)) && DrainFits(s, socket, s.drains[socket], ttl)
    ensures var row := s.drains[socket].rows[s.drains[socket].done];
            TransferFits(s, Transfer(socket, row.number, row.deliver))
  {
  }

  lemma TransferredStays(s: State, t: State, n: nat)
    requires Grows(s, t) && n < |s.accepted| && Transferred(s, n)
    ensures Transferred(t, n)
  {
    var k: Socket :| Transfer(k, n, s.accepted[n].deliver) in s.transfers
                     && (s.accepted[n].recipient, k) in s.registered;
    assert Transfer(k, n, t.accepted[n].deliver) in t.transfers;
  }

  /** The two ways out of the queue: its own send has returned, or its time to live has passed. */
  lemma LeavingTheQueue(s: State, step: Step, ttl: nat, id: nat)
    requires HoldersInv(s, ttl) && Enabled(s, step)
    requires id in s.queue && id !in Next(s, step, ttl).queue
    ensures var t := Next(s, step, ttl); var n := s.queue[id].number;
            n < |t.accepted| && (Transferred(t, n) || Expired(t, n, ttl))
  {
    hide FlightFits;
    var t, n := Next(s, step, ttl), s.queue[id].number;
    assert RowFits(s, s.queue[id], ttl);
    RemovingSteps(s, step, ttl, id);
    if step.DrainDelete? {
      var d := s.drains[step.socket];
      assert DrainFits(s, step.socket, d, ttl);
      assert d.ids[d.done] == id && s.queue[id] == d.rows[d.done];
      assert Transfer(step.socket, n, t.accepted[n].deliver) in t.transfers
             && (t.accepted[n].recipient, step.socket) in t.registered;
    } else {
      hide DrainFits;
    }
  }

  lemma RemovingSteps(s: State, step: Step, ttl: nat, id: nat)
    requires Enabled(s, step) && id in s.queue && id !in Next(s, step, ttl).queue
    ensures step.DrainDelete? || step.Cleanup?
  {
  }

  /** A sweep removes exactly the frames whose time to live has passed, and marks them expired. */
  lemma SweepExactly(s: State, now: int, ttl: nat, id: nat)
    requires HoldersInv(s, ttl) && Enabled(s, Cleanup(now)) && id in s.queue
    ensures var t, n := Next(s, Cleanup(now), ttl), s.queue[id].number;
            && n < |s.accepted|
            && (id in t.queue <==> s.accepted[n].now + ttl >= now)
            && (id in t.queue ==> t.queue[id] == s.queue[id]) && (id !in t.queue ==> n in t.expired)
  {
    assert RowFits(s, s.queue[id], ttl);
  }

  lemma LeavingFlight(s: State, step: Step, ttl: nat, n: nat)
    requires HoldersInv(s, ttl) && Enabled(s, step) && n in s.flights && n !in Next(s, step, ttl).flights
    ensures var t := Next(s, step, ttl); n < |t.accepted| && (Transferred(t, n) || Queued(t, n))
  {
    var t, f := Next(s, step, ttl), s.flights[n];
    assert FlightFits(s, n, f);
    if step.SendOk? {
      assert Transfer(f.socket, n, t.accepted[n].deliver) in t.transfers;
    } else {
      assert step.SendFail? && t.queue[s.nextRow].number == n;
    }
  }

  lemma Arrival(s: State, e: Envelope, ttl: nat)
    ensures Accounted(AfterAccept(s, e, ttl), |s.accepted|, ttl)
  {
    var t := AfterAccept(s, e, ttl);
    if e.recipient !in s.sessions { assert t.queue[s.nextRow].number == |s.accepted|; }
  }

  lemma NextKeepsAccounted(s: State, step: Step, ttl: nat)
    requires Inv(s, ttl) && Enabled(s, step)
    ensures AccountedInv(Next(s, step, ttl), ttl)
  {
    hide DrainFits, RowFits, FlightFits, Transferred;
    var t := Next(s, step, ttl);
    NextGrows(s, step, ttl);
    forall n | 0 <= n < |t.accepted| ensures Accounted(t, n, ttl) {
      if n == |s.accepted| {
        Arrival(s, step.e, ttl);
      } else if Transferred(s, n) {
        TransferredStays(s, t, n);
      } else if n in s.flights {
        if n !in t.flights { LeavingFlight(s, step, ttl, n); }
      } else if Queued(s, n) {
        var id :| id in s.queue && s.queue[id].number == n;
        if id !in t.queue {
          LeavingTheQueue(s, step, ttl, id);
        } else {
          assert t.queue[id] == s.queue[id];
        }
      } else {
        assert Accounted(s, n, ttl);
      }
    }
  }

  lemma NextKeepsInv(s: State, step: Step, ttl: nat)
    requires Inv(s, ttl) && Enabled(s, step)
    ensures Inv(Next(s, step, ttl), ttl)
  {
    hide DrainFits, RowFits, FlightFits, SingleInv, RoutingInv, AccountedInv, Next, Enabled;
    NextKeepsQueue(s, step, ttl);
    NextKeepsFlights(s, step, ttl);
    NextKeepsDrains(s, step, ttl);
    NextKeepsSingle(s, step, ttl);
    NextKeepsRouting(s, step, ttl);
    NextKeepsAccounted(s, step, ttl);
  }

  /**
    Conservation: in every reachable state each accepted frame was sent whole
    on a socket of its recipient, is in flight, is queued, or was swept after
    its time to live; no frame is held in two places at once; and no socket
    ever carried a frame meant for anyone but its user.
   */
  lemma {:induction false} RunConserves(s: State, steps: seq<Step>, ttl: nat)
    requires Inv(s, ttl) && ValidRun(s, steps, ttl)
    ensures Inv(Run(s, steps, ttl), ttl)
    decreases |steps|
  {
    hide Inv, Next, Enabled;
    if steps != [] {
      NextKeepsInv(s, steps[0], ttl);
      RunConserves(Next(s, steps[0], ttl), steps[1..], ttl);
    }
  }

  // ----- a drain that finishes has delivered the whole backlog

  /** The drain begun on this socket is still the one there, or the socket is gone for good. */
  ghost predicate SameDrain(s: State, socket: Socket, ids: seq<nat>, rows: seq<QueueRow>)
  {
    && socket < s.sockets
    && if socket in s.drains then s.drains[socket].ids == ids && s.drains[socket].rows == rows
       else forall user :: user in s.sessions ==> s.sessions[user] != socket
  }

  predicate TouchesSessions(step: Step)
  {
    step.Register? || step.Unregister? || step.DrainRead? || step.DrainSend? || step.DrainDelete?
  }

  lemma SessionsUntouched(s: State, step: Step, ttl: nat)
    requires Enabled(s, step) && !TouchesSessions(step)
    ensures var t := Next(s, step, ttl); t.sessions == s.sessions && t.drains == s.drains && t.sockets == s.sockets
  {
  }

  ghost predicate HasSession(s: State, socket: Socket)
  {
    exists user :: user in s.sessions && s.sessions[user] == socket
  }

  lemma NextKeepsDrain(s: State, step: Step, ttl: nat, socket: Socket, ids: seq<nat>, rows: seq<QueueRow>)
    requires Inv(s, ttl) && Enabled(s, step) && SameDrain(s, socket, ids, rows)
    requires socket in s.drains ==> HasSession(s, socket)
    ensures var t := Next(s, step, ttl);
            SameDrain(t, socket, ids, rows) && (socket in t.drains ==> HasSession(t, socket))
  {
    hide DrainFits, RowFits, FlightFits, AccountedInv, SingleInv, TransferFits, IsDrainRead;
    var t := Next(s, step, ttl);
    if !TouchesSessions(step) {
      hide Next, RoutingInv, HoldersInv;
      SessionsUntouched(s, step, ttl);
    } else if step.DrainRead? || step.DrainSend? || step.DrainDelete? {
      hide Inv;
      DrainStepKeepsDrain(s, step, ttl, socket, ids, rows);
    } else if step.Unregister? {
      UnregisterEndsDrain(s, step.user, socket);
    } else if step.Register? {
      if u :| u in s.sessions && s.sessions[u] == socket { assert u in t.sessions; }
    }
  }

  lemma DrainStepKeepsDrain(s: State, step: Step, ttl: nat, socket: Socket, ids: seq<nat>, rows: seq<QueueRow>)
    requires Enabled(s, step) && SameDrain(s, socket, ids, rows) && (socket in s.drains ==> HasSession(s, socket))
    requires step.DrainRead? || step.DrainSend? || step.DrainDelete?
    ensures var t := Next(s, step, ttl);
            SameDrain(t, socket, ids, rows) && (socket in t.drains ==> HasSession(t, socket))
  {
    hide IsDrainRead;
    var t := Next(s, step, ttl);
    assert t.sessions == s.sessions && t.sockets == s.sockets;
  }

  /** Sockets belong to one user, so ending a session ends its socket's drain and no other. */
  lemma UnregisterEndsDrain(s: State, user: string, socket: Socket)
    requires RoutingInv(s) && user in s.sessions
    requires forall u :: u in s.sessions ==> (u, s.sessions[u]) in s.registered
    ensures var left := s.sessions - {user};
            && (s.sessions[user] == socket ==> forall u :: u in left ==> left[u] != socket)
            && (s.sessions[user] != socket && (exists u :: u in s.sessions && s.sessions[u] == socket) ==>
                  exists u :: u in left && left[u] == socket)
  {
    var left := s.sessions - {user};
    forall u | u in left && s.sessions[user] == socket ensures left[u] != socket {
      assert (u, s.sessions[u]) in s.registered && (user, socket) in s.registered;
    }
    if s.sessions[user] != socket {
      if u :| u in s.sessions && s.sessions[u] == socket { assert u in left; }
    }
  }

  lemma {:induction false} RunKeepsDrain(s: State, steps: seq<Step>, ttl: nat, socket: Socket,
                                         ids: seq<nat>, rows: seq<QueueRow>)
    requires Inv(s, ttl) && ValidRun(s, steps, ttl) && SameDrain(s, socket, ids, rows)
    requires socket in s.drains ==> HasSession(s, socket)
    ensures SameDrain(Run(s, steps, ttl), socket, ids, rows) && Inv(Run(s, steps, ttl), ttl)
    decreases |steps|
  {
    hide Inv, Next, Enabled, SameDrain;
    if steps != [] {
      NextKeepsInv(s, steps[0], ttl);
      NextKeepsDrain(s, steps[0], ttl, socket, ids, rows);
      RunKeepsDrain(Next(s, steps[0], ttl), steps[1..], ttl, socket, ids, rows);
    }
  }

  lemma DrainBegins(s: State, socket: Socket, user: string, ids: seq<nat>, ttl: nat)
    requires Inv(s, ttl) && Enabled(s, DrainRead(socket, user, ids))
    ensures var s1 := Next(s, DrainRead(socket, user, ids), ttl);
            && socket in s1.drains && HasSession(s1, socket)
            && var rows := s1.drains[socket].rows;
            && SameDrain(s1, socket, ids, rows)
            && |rows| == |ids| && forall k :: 0 <= k < |ids| ==> ids[k] in s.queue && rows[k] == s.queue[ids[k]]
  {
    hide RowFits, FlightFits, DrainFits, AccountedInv, SingleInv, TransferFits;
    var s1 := Next(s, DrainRead(socket, user, ids), ttl);
    assert (user, socket) in s.registered;
    assert user in s1.sessions && s1.sessions[user] == socket;
  }

  /**
    However sends, sweeps and other sessions interleave with it: once a drain
    has gone through its list, every row its user had queued when it began has
    been sent on that socket and is no longer queued.
   */
  lemma FinishedDrainDeliveredBacklog(s: State, socket: Socket, user: string, ids: seq<nat>, steps: seq<Step>,
                                      ttl: nat, id: nat)
    requires Inv(s, ttl) && Enabled(s, DrainRead(socket, user, ids))
    requires ValidRun(Next(s, DrainRead(socket, user, ids), ttl), steps, ttl)
    requires id in s.queue && s.queue[id].recipient == user
    requires var t := Run(Next(s, DrainRead(socket, user, ids), ttl), steps, ttl);
             socket in t.drains && t.drains[socket].done == |t.drains[socket].rows|
    ensures var t := Run(Next(s, DrainRead(socket, user, ids), ttl), steps, ttl);
            id !in t.queue && Transfer(socket, s.queue[id].number, s.queue[id].deliver) in t.transfers
  {
    var k :| 0 <= k < |ids| && ids[k] == id;
    hide RowFits, FlightFits, AccountedInv, SingleInv, TransferFits, RoutingInv, ValidRun, Run, HasSession, Next;
    var s1 := Next(s, DrainRead(socket, user, ids), ttl);
    NextKeepsInv(s, DrainRead(socket, user, ids), ttl);
    DrainBegins(s, socket, user, ids, ttl);
    RunKeepsDrain(s1, steps, ttl, socket, ids, s1.drains[socket].rows);
    var t := Run(s1, steps, ttl);
    assert DrainFits(t, socket, t.drains[socket], ttl);
    assert t.drains[socket].rows[k] == s.queue[id];
  }
}
