/**
  The order in which one sender's frames reach one recipient. Direct sends,
  the queue and drains are separate paths, so a frame can overtake an older
  one; this is the condition on acceptances under which none does.
 */
module Order {
  import opened Delivery

  datatype Pair = Pair(sender: string, recipient: string)

  /** The frames of the pair, by number. */
  predicate Of(s: State, pr: Pair, n: nat)
  {
    n < |s.accepted| && s.accepted[n].recipient == pr.recipient && s.accepted[n].deliver.sender == pr.sender
  }

  // ----- where frames of the pair are

  predicate InQueue(s: State, pr: Pair, id: nat) { id in s.queue && Of(s, pr, s.queue[id].number) }

  predicate InFlight(s: State, pr: Pair, n: nat) { n in s.flights && Of(s, pr, n) }

  /** Row `k` of the drain on this socket has still to be sent. */
  predicate InDrain(s: State, pr: Pair, socket: Socket, k: int)
  {
    socket in s.drains && var d := s.drains[socket];
    d.done <= k < |d.rows| && (k == d.done ==> !d.sent) && Of(s, pr, d.rows[k].number)
  }

  predicate IsSent(s: State, pr: Pair, i: nat) { i < |s.transfers| && Of(s, pr, s.transfers[i].number) }

  /** Frames of the pair went out in the order in which they were accepted; one sent twice was sent again at once. */
  ghost predicate InOrder(s: State, pr: Pair)
  {
    forall i: nat, j: nat :: i < j && IsSent(s, pr, i) && IsSent(s, pr, j) ==>
      s.transfers[i].number <= s.transfers[j].number
  }

  // ----- the invariant

  ghost predicate TimesRise(s: State, pr: Pair)
  {
    forall m: nat, n: nat :: m < n && Of(s, pr, m) && Of(s, pr, n) ==> s.accepted[m].now < s.accepted[n].now
  }

  /** Nothing that was sent is newer than anything that has still to be sent. */
  ghost predicate SentIsOldest(s: State, pr: Pair)
  {
    forall i: nat :: IsSent(s, pr, i) ==>
      && (forall id: nat :: InQueue(s, pr, id) ==> s.transfers[i].number <= s.queue[id].number)
      && (forall n: nat :: InFlight(s, pr, n) ==> s.transfers[i].number <= n)
      && (forall socket, k :: InDrain(s, pr, socket, k) ==> s.transfers[i].number <= s.drains[socket].rows[k].number)
  }

  /** A direct send is under way only when nothing else of the pair is. */
  ghost predicate FlightIsAlone(s: State, pr: Pair)
  {
    forall n: nat :: InFlight(s, pr, n) ==>
      && (forall m: nat :: InFlight(s, pr, m) ==> m == n)
      && (forall id: nat :: !InQueue(s, pr, id))
      && (forall socket, k :: !InDrain(s, pr, socket, k))
  }

  /** A drain that has still to send something of the pair holds all of it that is queued. */
  ghost predicate DrainHasAll(s: State, pr: Pair)
  {
    forall socket, k, id: nat :: InDrain(s, pr, socket, k) && InQueue(s, pr, id) ==> Holds(s.drains[socket], id)
  }

  ghost predicate Holds(d: Drain, id: nat) { exists j :: d.done <= j < |d.ids| && d.ids[j] == id }

  ghost predicate DrainInOrder(s: State, pr: Pair)
  {
    forall socket :: socket in s.drains ==>
      forall j, k :: 0 <= j < k < |s.drains[socket].rows| && Of(s, pr, s.drains[socket].rows[j].number)
                     && Of(s, pr, s.drains[socket].rows[k].number) ==>
                       s.drains[socket].rows[j].number <= s.drains[socket].rows[k].number
  }

  ghost predicate DrainsHaveSessions(s: State)
  {
    forall socket :: socket in s.drains ==>
      s.drains[socket].user in s.sessions && s.sessions[s.drains[socket].user] == socket
  }

  ghost predicate OrderInv(s: State, pr: Pair)
  {
    TimesRise(s, pr) && SentIsOldest(s, pr) && FlightIsAlone(s, pr) && DrainHasAll(s, pr) && DrainInOrder(s, pr)
    && DrainsHaveSessions(s) && InOrder(s, pr)
  }

  /** Nothing of the pair is queued or has still to be drained. */
  ghost predicate NothingWaits(s: State, pr: Pair)
  {
    (forall id: nat :: !InQueue(s, pr, id)) && forall socket, k :: !InDrain(s, pr, socket, k)
  }

  /** What a step must meet: all conditions are on acceptances of the pair's frames. */
  ghost predicate Orderly(s: State, step: Step, pr: Pair)
  {
    step.Accept? && Pair(step.e.deliver.sender, step.e.recipient) == pr ==>
      && (forall n: nat :: Of(s, pr, n) ==> s.accepted[n].now < step.e.now)
      && (forall n: nat :: !InFlight(s, pr, n))
      && (pr.recipient in s.sessions ==> NothingWaits(s, pr))
  }

  // ----- steps after which nothing new of the pair is anywhere

  ghost predicate SameFrames(s: State, t: State, pr: Pair)
  {
    forall n: nat :: Of(t, pr, n) ==> Of(s, pr, n) && t.accepted[n] == s.accepted[n]
  }

  ghost predicate NoNewWork(s: State, t: State, pr: Pair)
  {
    && (forall id: nat :: InQueue(t, pr, id) ==> InQueue(s, pr, id) && t.queue[id].number == s.queue[id].number)
    && (forall n: nat :: InFlight(t, pr, n) ==> InFlight(s, pr, n))
    && (forall socket, k :: InDrain(t, pr, socket, k) ==>
          InDrain(s, pr, socket, k) && t.drains[socket].rows == s.drains[socket].rows)
  }

  ghost predicate SameDrains(s: State, t: State, pr: Pair)
  {
    forall socket :: socket in t.drains ==>
      || (&& socket in s.drains && t.drains[socket].rows == s.drains[socket].rows
          && (forall id: nat :: InQueue(t, pr, id) && Holds(s.drains[socket], id) ==> Holds(t.drains[socket], id)))
      || CarriesNone(t, pr, t.drains[socket])
  }

  predicate CarriesNone(s: State, pr: Pair, d: Drain)
  {
    forall k :: 0 <= k < |d.rows| ==> !Of(s, pr, d.rows[k].number)
  }

  ghost predicate SameSent(s: State, t: State, pr: Pair)
  {
    forall i: nat :: IsSent(t, pr, i) ==> IsSent(s, pr, i) && t.transfers[i] == s.transfers[i]
  }

  lemma PlacesKept(s: State, t: State, pr: Pair)
    requires OrderInv(s, pr) && SameFrames(s, t, pr) && NoNewWork(s, t, pr) && SameDrains(s, t, pr)
    ensures TimesRise(t, pr) && FlightIsAlone(t, pr) && DrainHasAll(t, pr) && DrainInOrder(t, pr)
  {
    hide Holds, DrainsHaveSessions, SentIsOldest, InOrder;
    assert DrainInOrder(t, pr);
    hide Of, DrainInOrder;
  }

  lemma SentKept(s: State, t: State, pr: Pair)
    requires SentIsOldest(s, pr) && InOrder(s, pr) && NoNewWork(s, t, pr) && SameSent(s, t, pr)
    ensures SentIsOldest(t, pr) && InOrder(t, pr)
  {
    hide Of, InQueue, InFlight, InDrain;
    assert forall i: nat :: IsSent(t, pr, i) ==> i < |t.transfers|;
    hide IsSent;
  }

  /** One more frame of the pair was sent, and it was the oldest. */
  ghost predicate OneMoreSent(s: State, t: State, pr: Pair, n: nat)
  {
    && s.transfers <= t.transfers && |t.transfers| == |s.transfers| + 1 && t.transfers[|s.transfers|].number == n
    && (forall i: nat :: IsSent(t, pr, i) ==> IsSent(s, pr, i) || i == |s.transfers|)
    && (forall i: nat :: IsSent(s, pr, i) ==> i < |s.transfers| && s.transfers[i].number <= n)
    && (forall id: nat :: InQueue(t, pr, id) ==> n <= t.queue[id].number)
    && (forall m: nat :: InFlight(t, pr, m) ==> n <= m)
    && (forall socket, k :: InDrain(t, pr, socket, k) ==> n <= t.drains[socket].rows[k].number)
  }

  lemma SentGrows(s: State, t: State, pr: Pair, n: nat)
    requires SentIsOldest(s, pr) && InOrder(s, pr) && NoNewWork(s, t, pr) && OneMoreSent(s, t, pr, n)
    ensures SentIsOldest(t, pr) && InOrder(t, pr)
  {
    assert forall i: nat :: IsSent(t, pr, i) ==> i < |t.transfers|;
    hide Of, InQueue, InFlight, InDrain, IsSent;
  }

  /** Steps that accept, read, send or give up a frame of the pair. */
  predicate Touches(s: State, step: Step, pr: Pair)
  {
    match step
    case Accept(e) => Pair(e.deliver.sender, e.recipient) == pr
    case SendOk(n) => Of(s, pr, n)
    case SendFail(n) => Of(s, pr, n)
    case DrainRead(_, user, _) => user == pr.recipient
    case DrainSend(socket) =>
      socket in s.drains && var d := s.drains[socket]; d.done < |d.rows| && Of(s, pr, d.rows[d.done].number)
    case _ => false
  }

  /** Every number in use is that of an accepted frame. */
  lemma NumbersInUse(s: State, ttl: nat)
    requires Inv(s, ttl)
    ensures forall id :: id in s.queue ==> s.queue[id].number < |s.accepted|
    ensures forall n :: n in s.flights ==> n < |s.accepted|
    ensures forall i :: 0 <= i < |s.transfers| ==> s.transfers[i].number < |s.accepted|
    ensures forall socket, k :: socket in s.drains && 0 <= k < |s.drains[socket].rows| ==>
              s.drains[socket].rows[k].number < |s.accepted|
  {
    forall i | 0 <= i < |s.transfers| ensures s.transfers[i].number < |s.accepted| {
      assert s.transfers[i] in s.transfers;
    }
    forall socket, k | socket in s.drains && 0 <= k < |s.drains[socket].rows|
      ensures s.drains[socket].rows[k].number < |s.accepted|
    {
      assert DrainFits(s, socket, s.drains[socket], ttl);
    }
  }

  lemma QuietFrames(s: State, step: Step, ttl: nat, pr: Pair)
    requires Enabled(s, step) && !Touches(s, step, pr)
    ensures SameFrames(s, Next(s, step, ttl), pr)
  {
  }

  lemma QuietSent(s: State, step: Step, ttl: nat, pr: Pair)
    requires Inv(s, ttl) && Enabled(s, step) && !Touches(s, step, pr)
    ensures SameSent(s, Next(s, step, ttl), pr)
  {
    hide DrainFits, RowFits, FlightFits, TransferFits, SingleInv, AccountedInv;
    NumbersInUse(s, ttl);
  }

  lemma OtherUsersDrain(s: State, socket: Socket, user: string, ids: seq<nat>, ttl: nat, pr: Pair)
    requires HoldersInv(s, ttl) && Enabled(s, DrainRead(socket, user, ids)) && user != pr.recipient
    ensures var t := Next(s, DrainRead(socket, user, ids), ttl);
            SameDrains(s, t, pr) && CarriesNone(t, pr, t.drains[socket])
  {
    hide FlightFits, DrainFits, Holds;
    var t := Next(s, DrainRead(socket, user, ids), ttl);
    forall k | 0 <= k < |ids| ensures !Of(t, pr, t.drains[socket].rows[k].number) {
      assert RowFits(s, s.queue[ids[k]], ttl);
    }
  }

  lemma DeletedIsNotHeld(s: State, socket: Socket, ttl: nat, pr: Pair)
    requires Enabled(s, DrainDelete(socket))
    ensures SameDrains(s, Next(s, DrainDelete(socket), ttl), pr)
  {
    var t, d := Next(s, DrainDelete(socket), ttl), s.drains[socket];
    forall id: nat | InQueue(t, pr, id) && Holds(d, id) ensures Holds(t.drains[socket], id) {
      var j :| d.done <= j < |d.ids| && d.ids[j] == id;
      assert t.drains[socket].ids[j] == id;
    }
  }

  lemma QuietEnqueue(s: State, step: Step, ttl: nat, pr: Pair)
    requires Inv(s, ttl) && Enabled(s, step) && !Touches(s, step, pr) && MayEnqueue(step)
    ensures var t := Next(s, step, ttl);
            && (forall id: nat :: InQueue(t, pr, id) ==> InQueue(s, pr, id) && t.queue[id].number == s.queue[id].number)
            && forall n: nat :: InFlight(t, pr, n) ==> InFlight(s, pr, n)
  {
    hide DrainFits, RowFits, FlightFits, TransferFits, SingleInv, AccountedInv;
    NumbersInUse(s, ttl);
    hide Inv;
  }

  lemma QuietQueue(s: State, step: Step, ttl: nat, pr: Pair)
    requires Inv(s, ttl) && Enabled(s, step) && !Touches(s, step, pr)
    ensures var t := Next(s, step, ttl);
            && (forall id: nat :: InQueue(t, pr, id) ==> InQueue(s, pr, id) && t.queue[id].number == s.queue[id].number)
            && forall n: nat :: InFlight(t, pr, n) ==> InFlight(s, pr, n)
  {
    hide Inv, Next, Touches;
    if MayEnqueue(step) { QuietEnqueue(s, step, ttl, pr); } else { OthersEnqueueNothing(s, step, ttl); }
  }

  lemma QuietRows(s: State, step: Step, ttl: nat, pr: Pair)
    requires Inv(s, ttl) && Enabled(s, step) && !Touches(s, step, pr)
    ensures var t := Next(s, step, ttl);
            forall socket, k :: InDrain(t, pr, socket, k) ==>
              InDrain(s, pr, socket, k) && t.drains[socket].rows == s.drains[socket].rows
  {
    hide DrainFits, RowFits, FlightFits, TransferFits, SingleInv, AccountedInv, IsDrainRead, SameDrains;
    if step.DrainRead? {
      OtherUsersDrain(s, step.socket, step.user, step.ids, ttl, pr);
    } else {
      NumbersInUse(s, ttl);
    }
  }

  lemma QuietDrains(s: State, step: Step, ttl: nat, pr: Pair)
    requires Inv(s, ttl) && Enabled(s, step) && !Touches(s, step, pr)
    ensures SameDrains(s, Next(s, step, ttl), pr)
  {
    hide Inv, InQueue;
    if step.DrainRead? {
      InvHolders(s, ttl);
      OtherUsersDrain(s, step.socket, step.user, step.ids, ttl, pr);
    } else if step.DrainDelete? {
      DeletedIsNotHeld(s, step.socket, ttl, pr);
    }
  }

  lemma InvHolders(s: State, ttl: nat)
    requires Inv(s, ttl)
    ensures HoldersInv(s, ttl)
  {
  }

  lemma QuietStepKeepsOrder(s: State, step: Step, ttl: nat, pr: Pair)
    requires Inv(s, ttl) && OrderInv(s, pr) && Enabled(s, step) && !Touches(s, step, pr)
    ensures OrderInv(Next(s, step, ttl), pr)
  {
    hide Inv, Next, Touches, Enabled, SameFrames, SameDrains, SameSent, InQueue, InFlight, InDrain, Of;
    hide TimesRise, SentIsOldest, FlightIsAlone, DrainHasAll, DrainInOrder, InOrder;
    QuietFrames(s, step, ttl, pr);
    QuietQueue(s, step, ttl, pr);
    QuietRows(s, step, ttl, pr);
    QuietDrains(s, step, ttl, pr);
    QuietSent(s, step, ttl, pr);
    SessionsKept(s, step, ttl);
    PlacesKept(s, Next(s, step, ttl), pr);
    SentKept(s, Next(s, step, ttl), pr);
  }

  lemma SessionsKept(s: State, step: Step, ttl: nat)
    requires DrainsHaveSessions(s) && Enabled(s, step)
    ensures DrainsHaveSessions(Next(s, step, ttl))
  {
  }

  // ----- acceptances

  lemma AcceptedOf(s: State, e: Envelope, ttl: nat, pr: Pair)
    requires Enabled(s, Accept(e)) && Pair(e.deliver.sender, e.recipient) == pr
    ensures var t := Next(s, Accept(e), ttl);
            && (forall n: nat :: Of(t, pr, n) <==> Of(s, pr, n) || n == |s.accepted|)
            && t.accepted == s.accepted + [e] && t.drains == s.drains && t.sessions == s.sessions
            && t.transfers == s.transfers
  {
  }

  lemma AcceptMoves(s: State, e: Envelope, ttl: nat, pr: Pair)
    requires Inv(s, ttl) && Enabled(s, Accept(e)) && Pair(e.deliver.sender, e.recipient) == pr
    ensures var t := Next(s, Accept(e), ttl);
            && (forall i: nat :: IsSent(t, pr, i) <==> IsSent(s, pr, i))
            && (forall socket, k :: InDrain(t, pr, socket, k) <==> InDrain(s, pr, socket, k))
            && (forall n: nat :: InFlight(t, pr, n) <==>
                                 InFlight(s, pr, n) || (n == |s.accepted| && pr.recipient in s.sessions))
            && (forall id: nat :: InQueue(t, pr, id) <==>
                                  InQueue(s, pr, id) || (id == s.nextRow && pr.recipient !in s.sessions))
            && (forall id: nat :: InQueue(s, pr, id) ==> t.queue[id] == s.queue[id])
            && (pr.recipient !in s.sessions ==> t.queue[s.nextRow].number == |s.accepted|)
            && (forall i: nat :: IsSent(s, pr, i) ==> i < |s.transfers| && s.transfers[i].number < |s.accepted|)
  {
    NumbersInUse(s, ttl);
    AcceptedOf(s, e, ttl, pr);
    hide DrainFits, RowFits, FlightFits, RoutingInv, SingleInv, AccountedInv, Of;
  }

  lemma AcceptKeepsPlaces(s: State, e: Envelope, ttl: nat, pr: Pair)
    requires Inv(s, ttl) && OrderInv(s, pr) && Enabled(s, Accept(e)) && Orderly(s, Accept(e), pr)
    requires Pair(e.deliver.sender, e.recipient) == pr
    ensures var t := Next(s, Accept(e), ttl); FlightIsAlone(t, pr) && DrainHasAll(t, pr)
  {
    hide Inv, Next, InQueue, InFlight, InDrain, IsSent, Holds, Of;
    hide TimesRise, SentIsOldest, InOrder, DrainInOrder, DrainsHaveSessions;
    AcceptedOf(s, e, ttl, pr);
    AcceptMoves(s, e, ttl, pr);
    OfflineHasNoDrain(s, pr, ttl);
  }

  lemma AcceptKeepsSent(s: State, e: Envelope, ttl: nat, pr: Pair)
    requires Inv(s, ttl) && OrderInv(s, pr) && Enabled(s, Accept(e)) && Orderly(s, Accept(e), pr)
    requires Pair(e.deliver.sender, e.recipient) == pr
    ensures var t := Next(s, Accept(e), ttl); SentIsOldest(t, pr) && InOrder(t, pr)
  {
    hide Inv, Next, InQueue, InFlight, InDrain, IsSent, Of;
    hide TimesRise, FlightIsAlone, DrainHasAll, DrainInOrder, DrainsHaveSessions, Orderly;
    AcceptedOf(s, e, ttl, pr);
    AcceptMoves(s, e, ttl, pr);
  }

  lemma AcceptKeepsOrder(s: State, e: Envelope, ttl: nat, pr: Pair)
    requires Inv(s, ttl) && OrderInv(s, pr) && Enabled(s, Accept(e)) && Orderly(s, Accept(e), pr)
    requires Pair(e.deliver.sender, e.recipient) == pr
    ensures OrderInv(Next(s, Accept(e), ttl), pr)
  {
    hide SentIsOldest, FlightIsAlone, DrainHasAll, InOrder;
    AcceptKeepsPlaces(s, e, ttl, pr);
    AcceptKeepsSent(s, e, ttl, pr);
    AcceptedOf(s, e, ttl, pr);
    NumbersInUse(s, ttl);
    hide Inv, Next;
    assert DrainInOrder(Next(s, Accept(e), ttl), pr);
    hide Of;
  }

  lemma OfflineHasNoDrain(s: State, pr: Pair, ttl: nat)
    requires Inv(s, ttl) && DrainsHaveSessions(s)
    ensures pr.recipient !in s.sessions ==> forall socket, k :: !InDrain(s, pr, socket, k)
  {
    hide FlightFits, RoutingInv, SingleInv, AccountedInv;
    forall socket, k | InDrain(s, pr, socket, k) ensures pr.recipient in s.sessions {
      DrainOfPair(s, pr, ttl, socket, k);
    }
  }

  /** Only the recipient's own drain carries frames of the pair. */
  lemma DrainOfPair(s: State, pr: Pair, ttl: nat, socket: Socket, k: nat)
    requires HoldersInv(s, ttl) && DrainsHaveSessions(s) && socket in s.drains && k < |s.drains[socket].rows|
    requires Of(s, pr, s.drains[socket].rows[k].number)
    ensures s.drains[socket].user == pr.recipient
    ensures pr.recipient in s.sessions && s.sessions[pr.recipient] == socket
  {
    hide FlightFits;
    assert DrainFits(s, socket, s.drains[socket], ttl);
    assert RowFits(s, s.drains[socket].rows[k], ttl);
  }

  // ----- direct sends

  lemma SendOkMoves(s: State, n: nat, ttl: nat, pr: Pair)
    requires Enabled(s, SendOk(n)) && Of(s, pr, n)
    ensures var t := Next(s, SendOk(n), ttl);
            && (forall m: nat :: Of(t, pr, m) <==> Of(s, pr, m)) && t.accepted == s.accepted
            && (forall id: nat :: InQueue(t, pr, id) <==> InQueue(s, pr, id)) && t.queue == s.queue
            && (forall socket, k :: InDrain(t, pr, socket, k) <==> InDrain(s, pr, socket, k)) && t.drains == s.drains
            && (forall m: nat :: InFlight(t, pr, m) <==> InFlight(s, pr, m) && m != n)
            && (forall i: nat :: IsSent(t, pr, i) <==> IsSent(s, pr, i) || i == |s.transfers|)
            && s.transfers <= t.transfers && |t.transfers| == |s.transfers| + 1
            && t.transfers[|s.transfers|].number == n && t.sessions == s.sessions
  {
  }

  lemma SendOkKeepsOrder(s: State, n: nat, ttl: nat, pr: Pair)
    requires OrderInv(s, pr) && Enabled(s, SendOk(n)) && Of(s, pr, n)
    ensures OrderInv(Next(s, SendOk(n), ttl), pr)
  {
    SendOkMoves(s, n, ttl, pr);
    var t := Next(s, SendOk(n), ttl);
    assert InFlight(s, pr, n);
    assert forall i: nat :: IsSent(s, pr, i) ==> i < |s.transfers|;
    hide Holds, Next, InQueue, InDrain, InFlight, IsSent, Of, TimesRise, DrainHasAll, DrainInOrder, InOrder;
    assert OneMoreSent(s, t, pr, n);
    PlacesKept(s, t, pr);
    SentGrows(s, t, pr, n);
  }

  lemma SendFailMoves(s: State, n: nat, ttl: nat, pr: Pair)
    requires Inv(s, ttl) && Enabled(s, SendFail(n)) && Of(s, pr, n)
    ensures var t := Next(s, SendFail(n), ttl);
            && (forall m: nat :: Of(t, pr, m) <==> Of(s, pr, m)) && t.accepted == s.accepted
            && (forall id: nat :: InQueue(t, pr, id) <==> InQueue(s, pr, id) || id == s.nextRow)
            && t.queue[s.nextRow].number == n
            && (forall socket, k :: InDrain(t, pr, socket, k) <==> InDrain(s, pr, socket, k)) && t.drains == s.drains
            && (forall m: nat :: InFlight(t, pr, m) <==> InFlight(s, pr, m) && m != n)
            && (forall i: nat :: IsSent(t, pr, i) <==> IsSent(s, pr, i)) && t.transfers == s.transfers
            && t.sessions == s.sessions && InFlight(s, pr, n) && (DrainInOrder(s, pr) ==> DrainInOrder(t, pr))
  {
    hide DrainFits, RowFits, FlightFits, RoutingInv, SingleInv, AccountedInv;
  }

  lemma SendFailKeepsOrder(s: State, n: nat, ttl: nat, pr: Pair)
    requires Inv(s, ttl) && OrderInv(s, pr) && Enabled(s, SendFail(n)) && Of(s, pr, n)
    ensures OrderInv(Next(s, SendFail(n), ttl), pr)
  {
    hide Holds, Inv, Next, InQueue, InDrain, InFlight, IsSent, Of, DrainInOrder;
    SendFailMoves(s, n, ttl, pr);
    var t := Next(s, SendFail(n), ttl);
    assert InOrder(t, pr) && TimesRise(t, pr);
    hide InOrder, TimesRise;
    assert FlightIsAlone(t, pr) && DrainHasAll(t, pr);
    hide DrainHasAll;
    assert SentIsOldest(t, pr);
  }

  // ----- drains

  lemma ReadMoves(s: State, socket: Socket, ids: seq<nat>, ttl: nat, pr: Pair)
    requires Inv(s, ttl) && Enabled(s, DrainRead(socket, pr.recipient, ids))
    ensures var t := Next(s, DrainRead(socket, pr.recipient, ids), ttl);
            && t == s.(drains := t.drains) && socket in t.drains
            && (forall k :: InDrain(t, pr, socket, k) ==>
                            0 <= k < |t.drains[socket].rows| == |ids| && InQueue(s, pr, ids[k])
                            && t.drains[socket].rows[k].number == s.queue[ids[k]].number)
            && (forall other, k :: other != socket && InDrain(t, pr, other, k) ==>
                                   InDrain(s, pr, other, k) && t.drains[other] == s.drains[other])
            && (forall id: nat :: InQueue(s, pr, id) ==> Holds(t.drains[socket], id))
            && (forall i: nat :: IsSent(t, pr, i) <==> IsSent(s, pr, i))
            && (forall id: nat :: InQueue(t, pr, id) <==> InQueue(s, pr, id))
            && (forall n: nat :: InFlight(t, pr, n) <==> InFlight(s, pr, n))
            && socket !in s.drains
  {
    hide DrainFits, FlightFits, RoutingInv, SingleInv, AccountedInv;
    var t := Next(s, DrainRead(socket, pr.recipient, ids), ttl);
    forall id: nat | InQueue(s, pr, id) ensures Holds(t.drains[socket], id) {
      assert RowFits(s, s.queue[id], ttl);
      assert id in ids;
    }
  }

  /** The query's order is the order of acceptance. */
  lemma ReadInOrder(s: State, ids: seq<nat>, ttl: nat, pr: Pair, j: nat, k: nat)
    requires HoldersInv(s, ttl) && TimesRise(s, pr) && IsDrainRead(s, pr.recipient, ids) && j < k < |ids|
    requires InQueue(s, pr, ids[j]) && InQueue(s, pr, ids[k])
    ensures s.queue[ids[j]].number <= s.queue[ids[k]].number
  {
    hide DrainFits, FlightFits;
    assert RowFits(s, s.queue[ids[j]], ttl) && RowFits(s, s.queue[ids[k]], ttl);
    assert s.queue[ids[j]].createdAt <= s.queue[ids[k]].createdAt;
  }

  lemma ReadKeepsRowsInOrder(s: State, socket: Socket, ids: seq<nat>, ttl: nat, pr: Pair)
    requires Inv(s, ttl) && OrderInv(s, pr) && Enabled(s, DrainRead(socket, pr.recipient, ids))
    ensures DrainInOrder(Next(s, DrainRead(socket, pr.recipient, ids), ttl), pr)
  {
    hide DrainFits, RowFits, FlightFits, RoutingInv, SingleInv, AccountedInv;
    var t := Next(s, DrainRead(socket, pr.recipient, ids), ttl);
    var rows := t.drains[socket].rows;
    forall j, k | 0 <= j < k < |rows| && Of(t, pr, rows[j].number) && Of(t, pr, rows[k].number)
      ensures rows[j].number <= rows[k].number
    {
      ReadInOrder(s, ids, ttl, pr, j, k);
    }
  }

  lemma ReadKeepsWork(s: State, socket: Socket, ids: seq<nat>, ttl: nat, pr: Pair)
    requires Inv(s, ttl) && OrderInv(s, pr) && Enabled(s, DrainRead(socket, pr.recipient, ids))
    ensures var t := Next(s, DrainRead(socket, pr.recipient, ids), ttl);
            SentIsOldest(t, pr) && FlightIsAlone(t, pr) && DrainHasAll(t, pr)
  {
    hide Inv, Next, Holds, InQueue, InDrain, InFlight, IsSent, Of, TimesRise, DrainInOrder, InOrder, IsDrainRead;
    hide DrainsHaveSessions;
    ReadMoves(s, socket, ids, ttl, pr);
  }

  lemma ReadKeepsOrder(s: State, socket: Socket, ids: seq<nat>, ttl: nat, pr: Pair)
    requires Inv(s, ttl) && OrderInv(s, pr) && Enabled(s, DrainRead(socket, pr.recipient, ids))
    ensures OrderInv(Next(s, DrainRead(socket, pr.recipient, ids), ttl), pr)
  {
    hide SentIsOldest, FlightIsAlone, DrainHasAll, DrainInOrder;
    ReadKeepsWork(s, socket, ids, ttl, pr);
    ReadKeepsRowsInOrder(s, socket, ids, ttl, pr);
    SessionsKept(s, DrainRead(socket, pr.recipient, ids), ttl);
    hide Inv, IsDrainRead, DrainsHaveSessions;
  }

  /** The row a drain sends next is the oldest of the pair that has still to be sent. */
  lemma NextRowIsOldest(s: State, socket: Socket, ttl: nat, pr: Pair)
    requires Inv(s, ttl) && OrderInv(s, pr) && Enabled(s, DrainSend(socket))
    requires Of(s, pr, s.drains[socket].rows[s.drains[socket].done].number)
    ensures var d := s.drains[socket]; var n := d.rows[d.done].number;
            && (forall id: nat :: InQueue(s, pr, id) ==> n <= s.queue[id].number)
            && (forall m: nat :: !InFlight(s, pr, m))
            && (forall other, k :: InDrain(s, pr, other, k) ==> other == socket && n <= d.rows[k].number)
            && InDrain(s, pr, socket, d.done)
  {
    hide RoutingInv, SingleInv, AccountedInv, FlightFits;
    var d := s.drains[socket];
    assert InDrain(s, pr, socket, d.done) && DrainFits(s, socket, d, ttl);
    DrainOfPair(s, pr, ttl, socket, d.done);
    forall id: nat | InQueue(s, pr, id) ensures d.rows[d.done].number <= s.queue[id].number {
      assert Holds(d, id);
      var j :| d.done <= j < |d.ids| && d.ids[j] == id;
      assert d.rows[j] == s.queue[id];
    }
    forall other, k | InDrain(s, pr, other, k) ensures other == socket && d.rows[d.done].number <= d.rows[k].number {
      DrainOfPair(s, pr, ttl, other, k);
    }
  }

  lemma RowSentMoves(s: State, socket: Socket, ttl: nat, pr: Pair)
    requires Enabled(s, DrainSend(socket)) && Of(s, pr, s.drains[socket].rows[s.drains[socket].done].number)
    ensures var t := Next(s, DrainSend(socket), ttl); var d := s.drains[socket];
            && (forall n: nat :: Of(t, pr, n) <==> Of(s, pr, n)) && t.accepted == s.accepted
            && (forall id: nat :: InQueue(t, pr, id) <==> InQueue(s, pr, id)) && t.queue == s.queue
            && (forall n: nat :: InFlight(t, pr, n) <==> InFlight(s, pr, n))
            && (forall other, k :: InDrain(t, pr, other, k) ==> InDrain(s, pr, other, k))
            && t.drains.Keys == s.drains.Keys && t.sessions == s.sessions
            && (forall other :: other in s.drains ==> t.drains[other] == s.drains[other].(sent := t.drains[other].sent))
            && (forall i: nat :: IsSent(t, pr, i) <==> IsSent(s, pr, i) || i == |s.transfers|)
            && s.transfers <= t.transfers && |t.transfers| == |s.transfers| + 1
            && t.transfers[|s.transfers|].number == d.rows[d.done].number
            && (forall i: nat :: IsSent(s, pr, i) ==> i < |s.transfers|)
  {
  }

  lemma SameHolds(s: State, t: State, pr: Pair)
    requires t.drains.Keys == s.drains.Keys
    requires forall other :: other in s.drains ==> t.drains[other] == s.drains[other].(sent := t.drains[other].sent)
    ensures SameDrains(s, t, pr)
  {
    hide InQueue, Of;
  }

  lemma RowSentKeepsOrder(s: State, socket: Socket, ttl: nat, pr: Pair)
    requires Inv(s, ttl) && OrderInv(s, pr) && Enabled(s, DrainSend(socket))
    requires Of(s, pr, s.drains[socket].rows[s.drains[socket].done].number)
    ensures OrderInv(Next(s, DrainSend(socket), ttl), pr)
  {
    hide Inv, Next, InQueue, InDrain, InFlight, IsSent, Of, Holds;
    hide DrainInOrder, TimesRise, FlightIsAlone, DrainHasAll, InOrder, DrainsHaveSessions;
    NextRowIsOldest(s, socket, ttl, pr);
    RowSentMoves(s, socket, ttl, pr);
    SessionsKept(s, DrainSend(socket), ttl);
    var t, d := Next(s, DrainSend(socket), ttl), s.drains[socket];
    assert OneMoreSent(s, t, pr, d.rows[d.done].number);
    hide SentIsOldest;
    assert SameDrains(s, t, pr) by { SameHolds(s, t, pr); }
    PlacesKept(s, t, pr);
    SentGrows(s, t, pr, d.rows[d.done].number);
  }

  // ----- every step

  lemma NextKeepsOrder(s: State, step: Step, ttl: nat, pr: Pair)
    requires Inv(s, ttl) && OrderInv(s, pr) && Enabled(s, step) && Orderly(s, step, pr)
    ensures OrderInv(Next(s, step, ttl), pr)
  {
    hide Inv, OrderInv, Next, Of, Orderly;
    if !Touches(s, step, pr) {
      QuietStepKeepsOrder(s, step, ttl, pr);
    } else {
      match step
      case Accept(e) => AcceptKeepsOrder(s, e, ttl, pr);
      case SendOk(n) => SendOkKeepsOrder(s, n, ttl, pr);
      case SendFail(n) => SendFailKeepsOrder(s, n, ttl, pr);
      case DrainRead(socket, _, ids) => ReadKeepsOrder(s, socket, ids, ttl, pr);
      case DrainSend(socket) => RowSentKeepsOrder(s, socket, ttl, pr);
    }
  }

  // ----- the condition on direct sends is exact

  /** Some frame of the pair that waits is older than the one just sent. */
  lemma WaitingIsOvertaken(s: State, t: State, pr: Pair, i: nat, bound: nat)
    requires !NothingWaits(s, pr) && IsSent(t, pr, i) && t.transfers[i].number == bound
    requires forall id: nat :: InQueue(s, pr, id) ==> InQueue(t, pr, id) && t.queue[id].number < bound
    requires forall socket, k :: InDrain(s, pr, socket, k) ==>
               InDrain(t, pr, socket, k) && t.drains[socket].rows[k].number < bound
    ensures !SentIsOldest(t, pr)
  {
    hide IsSent, InFlight;
  }

  lemma DirectMoves(s: State, e: Envelope, ttl: nat, pr: Pair)
    requires Inv(s, ttl) && Enabled(s, Accept(e)) && Pair(e.deliver.sender, e.recipient) == pr
    requires pr.recipient in s.sessions
    ensures var s1, n := Next(s, Accept(e), ttl), |s.accepted|;
            Enabled(s1, SendOk(n)) && var t := Next(s1, SendOk(n), ttl);
            && IsSent(t, pr, |s.transfers|) && t.transfers[|s.transfers|].number == n
            && (forall id: nat :: InQueue(s, pr, id) ==> InQueue(t, pr, id) && t.queue[id].number < n)
            && (forall socket, k :: InDrain(s, pr, socket, k) ==>
                  InDrain(t, pr, socket, k) && t.drains[socket].rows[k].number < n)
  {
    var s1, n := Next(s, Accept(e), ttl), |s.accepted|;
    NumbersInUse(s, ttl);
    AcceptedOf(s, e, ttl, pr);
    AcceptMoves(s, e, ttl, pr);
    assert n in s1.flights && Of(s1, pr, n) && s1.queue == s.queue;
    hide Inv, Of;
    SendOkMoves(s1, n, ttl, pr);
  }

  /** A frame sent directly keeps the order exactly when nothing of its pair was waiting when it was accepted. */
  lemma DirectSendExactly(s: State, e: Envelope, ttl: nat, pr: Pair)
    requires Inv(s, ttl) && OrderInv(s, pr) && Enabled(s, Accept(e)) && Pair(e.deliver.sender, e.recipient) == pr
    requires pr.recipient in s.sessions && forall n: nat :: !InFlight(s, pr, n)
    requires forall n: nat :: Of(s, pr, n) ==> s.accepted[n].now < e.now
    ensures var s1, n := Next(s, Accept(e), ttl), |s.accepted|;
            Enabled(s1, SendOk(n)) && (OrderInv(Next(s1, SendOk(n), ttl), pr) <==> NothingWaits(s, pr))
  {
    hide Inv, Next, InQueue, InDrain, InFlight, IsSent;
    var s1, n := Next(s, Accept(e), ttl), |s.accepted|;
    DirectMoves(s, e, ttl, pr);
    if NothingWaits(s, pr) {
      hide OrderInv, Of;
      NextKeepsInv(s, Accept(e), ttl);
      NextKeepsOrder(s, Accept(e), ttl, pr);
      NextKeepsOrder(s1, SendOk(n), ttl, pr);
    } else {
      WaitingIsOvertaken(s, Next(s1, SendOk(n), ttl), pr, |s.transfers|, n);
    }
  }
}
