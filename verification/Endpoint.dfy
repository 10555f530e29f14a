/**
  The websocket endpoint: one coroutine per connection that registers,
  greets, drains the offline queue and then handles one frame at a time. It
  leaves through a `finally` that unregisters, but the greeting is sent
  before that block is entered.
 */
module Endpoint {
  import opened Words
  import Dl = Delivery

  /** Where the coroutine is; `Abandoned` means the greeting raised. */
  datatype Phase = Greeting | Entered | Draining | Serving | Handling(number: nat) | Gone | Abandoned
  datatype Conn = Conn(user: string, phase: Phase)

  datatype State = State(dl: Dl.State, conns: map<Dl.Socket, Conn>)

  datatype Step =
    | Tick(to: int)
    | Cleanup(now: int)
    | Connect(user: string)
    | GreetOk(socket: Dl.Socket)
    | GreetRaises(socket: Dl.Socket)
    | ReadQueue(socket: Dl.Socket, ids: seq<nat>)
    | SendRow(socket: Dl.Socket)
    | DeleteRow(socket: Dl.Socket)
    | Drained(socket: Dl.Socket)
    | Dispatch(socket: Dl.Socket, e: Dl.Envelope)
    | Sent(socket: Dl.Socket)
    | SendFails(socket: Dl.Socket)
    | Leave(socket: Dl.Socket)

  function Init(clock: int): State { State(Dl.Init(clock), map[]) }

  predicate At(s: State, k: Dl.Socket, phase: Phase) { k in s.conns && s.conns[k].phase == phase }

  predicate IsHandling(s: State, k: Dl.Socket) { k in s.conns && s.conns[k].phase.Handling? }

  /** The coroutine has reached the point at which this happens. */
  predicate Ready(s: State, step: Step)
  {
    match step
    case Tick(_) => true
    case Cleanup(_) => true
    case Connect(_) => true
    case GreetOk(k) => At(s, k, Greeting)
    case GreetRaises(k) => At(s, k, Greeting)
    case ReadQueue(k, _) => At(s, k, Entered)
    case SendRow(k) => At(s, k, Draining)
    case DeleteRow(k) => At(s, k, Draining)
    case Drained(k) => At(s, k, Draining) && k in s.dl.drains && s.dl.drains[k].done == |s.dl.drains[k].rows|
    case Dispatch(k, e) => At(s, k, Serving) && e.deliver.sender == s.conns[k].user
    case Sent(k) => IsHandling(s, k)
    case SendFails(k) => IsHandling(s, k)
    case Leave(k) => At(s, k, Entered) || At(s, k, Draining) || At(s, k, Serving)
  }

  /** What it does to sessions, queue and sockets, if anything. */
  function Effect(s: State, step: Step): Option<Dl.Step>
    requires Ready(s, step)
  {
    match step
    case Tick(to) => Some(Dl.Tick(to))
    case Cleanup(now) => Some(Dl.Cleanup(now))
    case Connect(user) => if user in s.dl.sessions then None else Some(Dl.Register(user))
    case GreetOk(_) => None
    case GreetRaises(_) => None
    case ReadQueue(k, ids) => Some(Dl.DrainRead(k, s.conns[k].user, ids))
    case SendRow(k) => Some(Dl.DrainSend(k))
    case DeleteRow(k) => Some(Dl.DrainDelete(k))
    case Drained(_) => None
    case Dispatch(_, e) => Some(Dl.Accept(e))
    case Sent(k) => Some(Dl.SendOk(s.conns[k].phase.number))
    case SendFails(k) => Some(Dl.SendFail(s.conns[k].phase.number))
    case Leave(k) => Some(Dl.Unregister(s.conns[k].user))
  }

  ghost predicate Enabled(s: State, step: Step)
  {
    Ready(s, step) && var x := Effect(s, step); x.Some? ==> Dl.Enabled(s.dl, x.value)
  }

  function Move(s: State, k: Dl.Socket, phase: Phase): map<Dl.Socket, Conn>
    requires k in s.conns
  {
    s.conns[k := Conn(s.conns[k].user, phase)]
  }

  function Conns(s: State, step: Step): map<Dl.Socket, Conn>
    requires Ready(s, step)
  {
    match step
    case Tick(_) => s.conns
    case Cleanup(_) => s.conns
    case Connect(user) => if user in s.dl.sessions then s.conns else s.conns[s.dl.sockets := Conn(user, Greeting)]
    case GreetOk(k) => Move(s, k, Entered)
    case GreetRaises(k) => Move(s, k, Abandoned)
    case ReadQueue(k, _) => Move(s, k, Draining)
    case SendRow(_) => s.conns
    case DeleteRow(_) => s.conns
    case Drained(k) => Move(s, k, Serving)
    case Dispatch(k, e) =>
      if e.recipient in s.dl.sessions then Move(s, k, Handling(|s.dl.accepted|)) else s.conns
    case Sent(k) => Move(s, k, Serving)
    case SendFails(k) => Move(s, k, Serving)
    case Leave(k) => Move(s, k, Gone)
  }

  ghost function Next(s: State, step: Step, ttl: nat): State
    requires Enabled(s, step)
  {
    var x := Effect(s, step);
    State(if x.Some? then Dl.Next(s.dl, x.value, ttl) else s.dl, Conns(s, step))
  }

  ghost predicate ValidRun(s: State, steps: seq<Step>, ttl: nat)
    decreases |steps|
  {
    steps == [] || (Enabled(s, steps[0]) && ValidRun(Next(s, steps[0], ttl), steps[1..], ttl))
  }

  ghost function Run(s: State, steps: seq<Step>, ttl: nat): State
    requires ValidRun(s, steps, ttl)
    decreases |steps|
  {
    if steps == [] then s else Run(Next(s, steps[0], ttl), steps[1..], ttl)
  }

  // ----- what every step keeps

  /** A connection that has not left is its user's session, and every session is such a connection. */
  ghost predicate SessionInv(s: State)
  {
    && (forall k :: k in s.conns ==> k < s.dl.sockets)
    && (forall k :: k in s.conns && s.conns[k].phase != Gone ==>
          s.conns[k].user in s.dl.sessions && s.dl.sessions[s.conns[k].user] == k)
    && (forall u :: u in s.dl.sessions ==>
          var k := s.dl.sessions[u]; k in s.conns && s.conns[k].user == u && s.conns[k].phase != Gone)
  }

  /** Every direct send is awaited by the endpoint of the user that sent the frame. */
  ghost predicate HandlerInv(s: State)
  {
    && (forall k :: IsHandling(s, k) ==> s.conns[k].phase.number in s.dl.flights)
    && (forall j, k :: IsHandling(s, j) && IsHandling(s, k) && s.conns[j].phase == s.conns[k].phase ==> j == k)
    && (forall n :: n in s.dl.flights ==> n < |s.dl.accepted| && Awaited(s, n))
  }

  ghost predicate Awaited(s: State, n: nat)
    requires n < |s.dl.accepted|
  {
    exists k :: At(s, k, Handling(n)) && s.conns[k].user == s.dl.accepted[n].deliver.sender
  }

  predicate PastRead(p: Phase) { p == Draining || p == Serving || p.Handling? }

  ghost predicate DrainInv(s: State)
  {
    forall k :: k in s.dl.drains ==>
      k in s.conns && PastRead(s.conns[k].phase) && s.dl.drains[k].user == s.conns[k].user
  }

  /** Who is past its read has a drain, and who is served has finished it. */
  ghost predicate ServedInv(s: State)
  {
    forall k :: k in s.conns && PastRead(s.conns[k].phase) ==>
      && k in s.dl.drains
      && (s.conns[k].phase != Draining ==> s.dl.drains[k].done == |s.dl.drains[k].rows|)
  }

  ghost predicate Inv(s: State, ttl: nat)
  {
    Dl.Inv(s.dl, ttl) && SessionInv(s) && HandlerInv(s) && DrainInv(s) && ServedInv(s)
  }

  lemma SessionEffect(s: Dl.State, x: Dl.Step, ttl: nat)
    requires Dl.Enabled(s, x)
    ensures var t := Dl.Next(s, x, ttl);
            && t.sessions == (if x.Register? then s.sessions[x.user := s.sockets]
                              else if x.Unregister? then s.sessions - {x.user} else s.sessions)
            && t.sockets == (if x.Register? then s.sockets + 1 else s.sockets)
  {
    hide Dl.IsDrainRead;
  }

  lemma DrainEffect(s: Dl.State, x: Dl.Step, ttl: nat)
    requires Dl.Enabled(s, x)
    ensures var t := Dl.Next(s, x, ttl);
            forall k :: k in t.drains ==>
              if x.DrainRead? && k == x.socket then t.drains[k].user == x.user
              else k in s.drains && t.drains[k].user == s.drains[k].user
                   && (x.Unregister? && x.user in s.sessions ==> k != s.sessions[x.user])
  {
    hide Dl.IsDrainRead;
  }

  lemma FlightEffect(s: Dl.State, x: Dl.Step, ttl: nat)
    requires Dl.Enabled(s, x)
    ensures var t := Dl.Next(s, x, ttl);
            && t.accepted == (if x.Accept? then s.accepted + [x.e] else s.accepted)
            && t.flights.Keys == (if x.Accept? && x.e.recipient in s.sessions then s.flights.Keys + {|s.accepted|}
                                  else if x.SendOk? || x.SendFail? then s.flights.Keys - {x.number}
                                  else s.flights.Keys)
  {
    hide Dl.IsDrainRead;
  }

  predicate HasSocket(step: Step) { !step.Tick? && !step.Cleanup? && !step.Connect? }

  /** What a step does to the connections: one appears, or one that is not at an end moves. */
  lemma ConnEffect(s: State, step: Step)
    requires Ready(s, step)
    ensures var c := Conns(s, step);
            if step.Connect? then
              c == (if step.user in s.dl.sessions then s.conns else s.conns[s.dl.sockets := Conn(step.user, Greeting)])
            else if !HasSocket(step) then c == s.conns
            else
              && step.socket in s.conns && step.socket in c && c == Move(s, step.socket, c[step.socket].phase)
              && s.conns[step.socket].phase != Gone && s.conns[step.socket].phase != Abandoned
              && (c[step.socket].phase == Gone <==> step.Leave?)
              && (c[step.socket].phase == Abandoned <==> step.GreetRaises?)
  {
    if HasSocket(step) {
      var c := Conns(s, step);
      assert c[step.socket].user == s.conns[step.socket].user;
    }
  }

  lemma NextConns(s: State, step: Step, ttl: nat)
    requires Enabled(s, step)
    ensures Next(s, step, ttl).conns == Conns(s, step)
  {
    hide Dl.Next, Dl.Enabled, Conns;
  }

  lemma NextSessions(s: State, step: Step, ttl: nat)
    requires Enabled(s, step)
    ensures var t := Next(s, step, ttl);
            && t.dl.sessions == (if step.Connect? && step.user !in s.dl.sessions
                                 then s.dl.sessions[step.user := s.dl.sockets]
                                 else if step.Leave? then s.dl.sessions - {s.conns[step.socket].user}
                                 else s.dl.sessions)
            && t.dl.sockets == (if step.Connect? && step.user !in s.dl.sessions then s.dl.sockets + 1
                                else s.dl.sockets)
  {
    hide Dl.Next, Dl.Enabled, Conns;
    var x := Effect(s, step);
    if x.Some? { SessionEffect(s.dl, x.value, ttl); }
  }

  lemma NextKeepsSessions(s: State, step: Step, ttl: nat)
    requires SessionInv(s) && Enabled(s, step)
    ensures SessionInv(Next(s, step, ttl))
  {
    hide Dl.Enabled, Conns, Next, Effect;
    NextSessions(s, step, ttl);
    NextConns(s, step, ttl);
    ConnEffect(s, step);
    hide Ready;
  }

  lemma NextDrains(s: State, step: Step, ttl: nat)
    requires SessionInv(s) && Enabled(s, step)
    ensures var t := Next(s, step, ttl);
            forall k :: k in t.dl.drains ==>
              if step.ReadQueue? && k == step.socket then t.dl.drains[k].user == s.conns[k].user
              else k in s.dl.drains && t.dl.drains[k].user == s.dl.drains[k].user && (step.Leave? ==> k != step.socket)
  {
    hide Dl.Next, Dl.Enabled, Conns;
    var x := Effect(s, step);
    if x.Some? { DrainEffect(s.dl, x.value, ttl); }
  }

  /** A connection past its read stays there, except by leaving. */
  lemma PastReadKept(s: State, step: Step, k: Dl.Socket)
    requires Ready(s, step) && k in s.conns && k < s.dl.sockets
    ensures var c := Conns(s, step);
            && k in c && c[k].user == s.conns[k].user
            && (PastRead(s.conns[k].phase) && !(step.Leave? && step.socket == k) ==> PastRead(c[k].phase))
            && (step.ReadQueue? && step.socket == k ==> PastRead(c[k].phase))
  {
  }

  lemma NextKeepsDrains(s: State, step: Step, ttl: nat)
    requires SessionInv(s) && DrainInv(s) && Enabled(s, step)
    ensures DrainInv(Next(s, step, ttl))
  {
    hide Dl.Next, Dl.Enabled, Conns, Next, Effect, PastRead;
    NextDrains(s, step, ttl);
    NextConns(s, step, ttl);
    var t := Next(s, step, ttl);
    forall k | k in t.dl.drains
      ensures k in t.conns && PastRead(t.conns[k].phase) && t.dl.drains[k].user == t.conns[k].user
    {
      PastReadKept(s, step, k);
    }
  }

  lemma DrainsStay(s: Dl.State, x: Dl.Step, ttl: nat, k: Dl.Socket)
    requires Dl.Enabled(s, x) && (k in s.drains || (x.DrainRead? && x.socket == k))
    requires !(x.Unregister? && s.sessions[x.user] == k)
    ensures var t := Dl.Next(s, x, ttl);
            && k in t.drains
            && (k in s.drains ==>
                  && t.drains[k].rows == s.drains[k].rows
                  && (x != Dl.DrainDelete(k) ==> t.drains[k].done == s.drains[k].done))
  {
    hide Dl.IsDrainRead;
  }

  /** Where a connection that is past its read was before the step. */
  lemma PastReadBefore(s: State, step: Step, k: Dl.Socket)
    requires Ready(s, step) && k in Conns(s, step) && PastRead(Conns(s, step)[k].phase)
    ensures k in s.conns && !(step.Leave? && step.socket == k)
    ensures (step.ReadQueue? && step.socket == k && Conns(s, step)[k].phase == Draining)
            || (PastRead(s.conns[k].phase)
                && (Conns(s, step)[k].phase != Draining ==>
                      (s.conns[k].phase != Draining && step != DeleteRow(k))
                      || (step == Drained(k) && s.dl.drains[k].done == |s.dl.drains[k].rows|)))
  {
  }

  lemma NextKeepsServed(s: State, step: Step, ttl: nat)
    requires SessionInv(s) && ServedInv(s) && Enabled(s, step)
    ensures ServedInv(Next(s, step, ttl))
  {
    hide Dl.Next, Dl.Enabled, PastRead;
    var x, t := Effect(s, step), Next(s, step, ttl);
    NextConns(s, step, ttl);
    forall k | k in t.conns && PastRead(t.conns[k].phase)
      ensures k in t.dl.drains && (t.conns[k].phase != Draining ==> t.dl.drains[k].done == |t.dl.drains[k].rows|)
    {
      PastReadBefore(s, step, k);
      if x.Some? { DrainsStay(s.dl, x.value, ttl, k); }
    }
  }

  /** A handler goes on waiting until its own send has returned. */
  lemma HandlingKept(s: State, step: Step, k: Dl.Socket)
    requires Ready(s, step) && IsHandling(s, k) && k < s.dl.sockets
    ensures ((step.Sent? || step.SendFails?) && step.socket == k)
            || (k in Conns(s, step) && Conns(s, step)[k] == s.conns[k])
  {
  }

  lemma AwaitedKept(s: State, step: Step, ttl: nat, n: nat)
    requires SessionInv(s) && HandlerInv(s) && Enabled(s, step) && n in s.dl.flights
    requires |s.dl.accepted| <= |Next(s, step, ttl).dl.accepted|
    requires s.dl.accepted[n] == Next(s, step, ttl).dl.accepted[n]
    requires Effect(s, step) != Some(Dl.SendOk(n)) && Effect(s, step) != Some(Dl.SendFail(n))
    ensures Awaited(Next(s, step, ttl), n)
  {
    var k :| At(s, k, Handling(n)) && s.conns[k].user == s.dl.accepted[n].deliver.sender;
    HandlingKept(s, step, k);
    NextConns(s, step, ttl);
    hide Dl.Enabled, Next, Conns, SessionInv, HandlerInv;
    assert At(Next(s, step, ttl), k, Handling(n));
  }

  lemma NextKeepsAwaited(s: State, step: Step, ttl: nat)
    requires SessionInv(s) && HandlerInv(s) && Enabled(s, step)
    ensures var t := Next(s, step, ttl); forall n :: n in t.dl.flights ==> n < |t.dl.accepted| && Awaited(t, n)
  {
    hide Dl.Next, Dl.Enabled, Awaited;
    var x, t := Effect(s, step), Next(s, step, ttl);
    if x.Some? { FlightEffect(s.dl, x.value, ttl); }
    forall n | n in t.dl.flights ensures n < |t.dl.accepted| && Awaited(t, n) {
      if n in s.dl.flights {
        AwaitedKept(s, step, ttl, n);
      } else {
        DispatchAwaited(s, step, ttl);
      }
    }
  }

  lemma DispatchAwaited(s: State, step: Step, ttl: nat)
    requires Enabled(s, step) && step.Dispatch? && step.e.recipient in s.dl.sessions
    ensures var t, n := Next(s, step, ttl), |s.dl.accepted|; n < |t.dl.accepted| && Awaited(t, n)
  {
    FlightEffect(s.dl, Dl.Accept(step.e), ttl);
    assert At(Next(s, step, ttl), step.socket, Handling(|s.dl.accepted|));
  }

  /** Who waits after a step waited before it, or has just dispatched a frame. */
  lemma HandlingBefore(s: State, step: Step, k: Dl.Socket)
    requires Ready(s, step) && k in Conns(s, step) && Conns(s, step)[k].phase.Handling?
    ensures if IsHandling(s, k) then
              Conns(s, step)[k] == s.conns[k] && !((step.Sent? || step.SendFails?) && step.socket == k)
            else
              step.Dispatch? && step.socket == k && step.e.recipient in s.dl.sessions
              && Conns(s, step)[k].phase == Handling(|s.dl.accepted|)
  {
  }

  lemma NextFlights(s: State, step: Step, ttl: nat)
    requires Enabled(s, step)
    ensures Next(s, step, ttl).dl.flights.Keys ==
            (if step.Dispatch? && step.e.recipient in s.dl.sessions then s.dl.flights.Keys + {|s.dl.accepted|}
             else if step.Sent? || step.SendFails? then s.dl.flights.Keys - {s.conns[step.socket].phase.number}
             else s.dl.flights.Keys)
  {
    hide Dl.Next, Dl.Enabled, Conns;
    var x := Effect(s, step);
    if x.Some? { FlightEffect(s.dl, x.value, ttl); }
  }

  lemma NextKeepsHandling(s: State, step: Step, ttl: nat)
    requires HandlerInv(s) && Enabled(s, step)
    ensures var t := Next(s, step, ttl);
            && (forall k :: IsHandling(t, k) ==> t.conns[k].phase.number in t.dl.flights)
            && (forall j, k :: IsHandling(t, j) && IsHandling(t, k) && t.conns[j].phase == t.conns[k].phase ==> j == k)
  {
    hide Dl.Enabled, Awaited, Next, Effect, Conns;
    var t := Next(s, step, ttl);
    NextFlights(s, step, ttl);
    NextConns(s, step, ttl);
    forall k | IsHandling(t, k) ensures t.conns[k].phase.number in t.dl.flights {
      HandlingBefore(s, step, k);
    }
    forall j, k | IsHandling(t, j) && IsHandling(t, k) && t.conns[j].phase == t.conns[k].phase ensures j == k {
      HandlingBefore(s, step, j);
      HandlingBefore(s, step, k);
    }
  }

  lemma NextKeepsInv(s: State, step: Step, ttl: nat)
    requires Inv(s, ttl) && Enabled(s, step)
    ensures Inv(Next(s, step, ttl), ttl)
  {
    hide Dl.Inv, SessionInv, DrainInv, ServedInv, Dl.Enabled, Dl.Next, Awaited;
    NextKeepsSessions(s, step, ttl);
    NextKeepsDrains(s, step, ttl);
    NextKeepsServed(s, step, ttl);
    NextKeepsAwaited(s, step, ttl);
    NextKeepsHandling(s, step, ttl);
    hide Ready, Conns, IsHandling;
    var x := Effect(s, step);
    if x.Some? { Dl.NextKeepsInv(s.dl, x.value, ttl); }
  }

  lemma {:induction false} RunKeepsInv(s: State, steps: seq<Step>, ttl: nat)
    requires Inv(s, ttl) && ValidRun(s, steps, ttl)
    ensures Inv(Run(s, steps, ttl), ttl)
    decreases |steps|
  {
    hide Inv, Enabled, Next;
    if steps != [] {
      NextKeepsInv(s, steps[0], ttl);
      RunKeepsInv(Next(s, steps[0], ttl), steps[1..], ttl);
    }
  }

  lemma InitInv(clock: int, ttl: nat)
    ensures Inv(Init(clock), ttl)
  {
  }

  /** In every run, an endpoint that takes frames has first sent, and removed, everything its drain found queued. */
  lemma ServingHasDrained(clock: int, steps: seq<Step>, ttl: nat, k: Dl.Socket, j: nat)
    requires ValidRun(Init(clock), steps, ttl)
    requires var s := Run(Init(clock), steps, ttl); At(s, k, Serving) || IsHandling(s, k)
    ensures var s := Run(Init(clock), steps, ttl);
            && k in s.dl.drains && s.dl.drains[k].user == s.conns[k].user
            && var d := s.dl.drains[k];
            j < |d.rows| ==> |d.ids| == |d.rows| && d.ids[j] !in s.dl.queue
                             && Dl.Transfer(k, d.rows[j].number, d.rows[j].deliver) in s.dl.transfers
  {
    InitInv(clock, ttl);
    RunKeepsInv(Init(clock), steps, ttl);
    hide ValidRun, Run, HandlerInv, SessionInv, Dl.SingleInv, Dl.RoutingInv, Dl.AccountedInv, Dl.FlightFits, Dl.RowFits;
    var s := Run(Init(clock), steps, ttl);
    assert Dl.DrainFits(s.dl, k, s.dl.drains[k], ttl);
  }

  // ----- sessions and live endpoints

  /** Every registered user has an endpoint that will unregister when it ends. */
  ghost predicate SessionsLive(s: State)
  {
    forall u :: u in s.dl.sessions ==> !At(s, s.dl.sessions[u], Abandoned)
  }

  predicate NoneAbandoned(s: State) { forall k :: k in s.conns ==> s.conns[k].phase != Abandoned }

  lemma LiveIsNoneAbandoned(s: State)
    requires SessionInv(s)
    ensures SessionsLive(s) <==> NoneAbandoned(s)
  {
    if !NoneAbandoned(s) {
      var k :| k in s.conns && s.conns[k].phase == Abandoned;
      assert At(s, s.dl.sessions[s.conns[k].user], Abandoned);
    }
  }

  lemma NextAbandoned(s: State, step: Step, ttl: nat)
    requires SessionInv(s) && Enabled(s, step)
    ensures NoneAbandoned(Next(s, step, ttl)) <==> NoneAbandoned(s) && !step.GreetRaises?
  {
    hide Dl.Enabled, Next, Effect, Conns, Ready;
    NextConns(s, step, ttl);
    ConnEffect(s, step);
    var t := Next(s, step, ttl);
    if k :| k in s.conns && s.conns[k].phase == Abandoned {
      assert t.conns[k].phase == Abandoned;
    } else if step.GreetRaises? {
      assert t.conns[step.socket].phase == Abandoned;
    }
  }

  lemma {:induction false} RunAbandoned(s: State, steps: seq<Step>, ttl: nat)
    requires Inv(s, ttl) && ValidRun(s, steps, ttl)
    ensures NoneAbandoned(Run(s, steps, ttl)) <==>
            NoneAbandoned(s) && forall i :: 0 <= i < |steps| ==> !steps[i].GreetRaises?
    decreases |steps|
  {
    hide Dl.Inv, Enabled, Next, NoneAbandoned;
    if steps != [] {
      NextKeepsInv(s, steps[0], ttl);
      NextAbandoned(s, steps[0], ttl);
      RunAbandoned(Next(s, steps[0], ttl), steps[1..], ttl);
      assert (forall i :: 0 <= i < |steps| ==> !steps[i].GreetRaises?) <==>
             !steps[0].GreetRaises? && forall i :: 0 <= i < |steps[1..]| ==> !steps[1..][i].GreetRaises?
        by { assert forall i :: 1 <= i < |steps| ==> steps[i] == steps[1..][i - 1]; }
    }
  }

  /** In every run, all sessions have a live endpoint exactly when no greeting ever raised. */
  lemma SessionsLiveExactly(clock: int, steps: seq<Step>, ttl: nat)
    requires ValidRun(Init(clock), steps, ttl)
    ensures SessionsLive(Run(Init(clock), steps, ttl)) <==> forall i :: 0 <= i < |steps| ==> !steps[i].GreetRaises?
  {
    InitInv(clock, ttl);
    RunKeepsInv(Init(clock), steps, ttl);
    RunAbandoned(Init(clock), steps, ttl);
    hide Dl.Inv, ValidRun, Run;
    LiveIsNoneAbandoned(Run(Init(clock), steps, ttl));
  }

  // ----- what happens to a user whose greeting raised

  /** The session stays, so every further connection of that user is refused. */
  lemma {:induction false} AbandonedForever(s: State, steps: seq<Step>, ttl: nat, k: Dl.Socket)
    requires Inv(s, ttl) && ValidRun(s, steps, ttl) && At(s, k, Abandoned)
    ensures var t, u := Run(s, steps, ttl), s.conns[k].user;
            && At(t, k, Abandoned) && t.conns[k].user == u && u in t.dl.sessions && t.dl.sessions[u] == k
            && Enabled(t, Connect(u)) && Next(t, Connect(u), ttl) == t
    decreases |steps|
  {
    hide Dl.Inv, Enabled, Next, HandlerInv;
    if steps == [] {
      RefusedConnect(s, s.conns[k].user, ttl);
    } else {
      NextKeepsInv(s, steps[0], ttl);
      AbandonedStays(s, steps[0], ttl, k);
      AbandonedForever(Next(s, steps[0], ttl), steps[1..], ttl, k);
    }
  }

  lemma RefusedConnect(s: State, user: string, ttl: nat)
    requires user in s.dl.sessions
    ensures Enabled(s, Connect(user)) && Next(s, Connect(user), ttl) == s
  {
  }

  /** A drain deletes only rows of its own user. */
  lemma DeletedRowIsOwn(s: State, step: Step, ttl: nat, id: nat)
    requires Inv(s, ttl) && Enabled(s, step) && id in s.dl.queue && id !in Next(s, step, ttl).dl.queue
    ensures step.Cleanup? ||
            (step.DeleteRow? && step.socket in s.dl.drains && s.dl.queue[id].recipient == s.conns[step.socket].user)
  {
    hide HandlerInv, SessionInv, Dl.SingleInv, Dl.RoutingInv, Dl.AccountedInv, Dl.FlightFits, Dl.RowFits;
    Dl.RemovingSteps(s.dl, Effect(s, step).value, ttl, id);
    if step.DeleteRow? {
      var d := s.dl.drains[step.socket];
      assert Dl.DrainFits(s.dl, step.socket, d, ttl);
      assert d.ids[d.done] == id;
    }
  }

  lemma AbandonedIsNotDrained(s: State, step: Step, ttl: nat, k: Dl.Socket, id: nat)
    requires Inv(s, ttl) && Enabled(s, step) && At(s, k, Abandoned)
    requires id in s.dl.queue && s.dl.queue[id].recipient == s.conns[k].user
    requires id !in Next(s, step, ttl).dl.queue
    ensures step.Cleanup?
  {
    DeletedRowIsOwn(s, step, ttl, id);
    hide Dl.Inv, HandlerInv, Enabled, Next;
  }

  lemma CleanupExpires(s: Dl.State, now: int, ttl: nat, id: nat)
    requires Dl.Inv(s, ttl) && now <= s.clock && id in s.queue && id !in Dl.Next(s, Dl.Cleanup(now), ttl).queue
    ensures var t, n := Dl.Next(s, Dl.Cleanup(now), ttl), s.queue[id].number;
            n < |t.accepted| && Dl.Expired(t, n, ttl)
  {
    assert Dl.RowFits(s, s.queue[id], ttl);
  }

  lemma ExpiredStays(s: Dl.State, x: Dl.Step, ttl: nat, n: nat)
    requires Dl.Enabled(s, x) && n < |s.accepted| && Dl.Expired(s, n, ttl)
    ensures var t := Dl.Next(s, x, ttl); n < |t.accepted| && Dl.Expired(t, n, ttl)
  {
    hide Dl.Enabled, Dl.Next;
    Dl.NextGrows(s, x, ttl);
  }

  /** The frame is still queued as it was, or has expired. */
  ghost predicate Stranded(s: State, id: nat, row: Dl.QueueRow, ttl: nat)
  {
    || (id in s.dl.queue && s.dl.queue[id] == row)
    || (row.number < |s.dl.accepted| && Dl.Expired(s.dl, row.number, ttl))
  }

  lemma NextStrands(s: State, step: Step, ttl: nat, k: Dl.Socket, id: nat, row: Dl.QueueRow)
    requires Inv(s, ttl) && Enabled(s, step) && At(s, k, Abandoned) && row.recipient == s.conns[k].user
    requires Stranded(s, id, row, ttl) && id < s.dl.nextRow
    ensures var t := Next(s, step, ttl); Stranded(t, id, row, ttl) && id < t.dl.nextRow
  {
    hide Dl.Inv, Dl.Next, Dl.Enabled, Dl.Expired, SessionInv, HandlerInv, DrainInv, Conns;
    var x, t := Effect(s, step), Next(s, step, ttl);
    if x.Some? {
      Dl.NextGrows(s.dl, x.value, ttl);
      if id in s.dl.queue && s.dl.queue[id] == row {
        if id !in t.dl.queue {
          AbandonedIsNotDrained(s, step, ttl, k, id);
          CleanupExpires(s.dl, step.now, ttl, id) by { CleanupEnabled(s, step); }
        }
      } else {
        ExpiredStays(s.dl, x.value, ttl, row.number);
      }
    }
  }

  lemma CleanupEnabled(s: State, step: Step)
    requires Enabled(s, step) && step.Cleanup?
    ensures step.now <= s.dl.clock && Effect(s, step) == Some(Dl.Cleanup(step.now))
  {
  }

  /** Whatever is queued for a user whose greeting raised is never sent from the queue: it stays there or expires. */
  lemma {:induction false} AbandonedIsStranded(s: State, steps: seq<Step>, ttl: nat, k: Dl.Socket, id: nat,
                                               row: Dl.QueueRow)
    requires Inv(s, ttl) && ValidRun(s, steps, ttl) && At(s, k, Abandoned) && row.recipient == s.conns[k].user
    requires Stranded(s, id, row, ttl) && id < s.dl.nextRow
    ensures Stranded(Run(s, steps, ttl), id, row, ttl)
    decreases |steps|
  {
    hide Inv, Enabled, Next, Stranded;
    if steps != [] {
      var t := Next(s, steps[0], ttl);
      NextKeepsInv(s, steps[0], ttl);
      NextStrands(s, steps[0], ttl, k, id, row);
      AbandonedStays(s, steps[0], ttl, k);
      AbandonedIsStranded(t, steps[1..], ttl, k, id, row);
    }
  }

  lemma AbandonedStays(s: State, step: Step, ttl: nat, k: Dl.Socket)
    requires Inv(s, ttl) && Enabled(s, step) && At(s, k, Abandoned)
    ensures var t := Next(s, step, ttl); At(t, k, Abandoned) && t.conns[k] == s.conns[k]
  {
    hide Dl.Inv, Dl.Enabled, Next, HandlerInv;
    NextConns(s, step, ttl);
    ConnEffect(s, step);
  }

  // ----- one handler per user

  /** A user's endpoint awaits one direct send at a time, so no sender has two frames in flight. */
  lemma OneFlightPerSender(s: State, n: nat, m: nat)
    requires SessionInv(s) && HandlerInv(s) && n in s.dl.flights && m in s.dl.flights
    requires s.dl.accepted[n].deliver.sender == s.dl.accepted[m].deliver.sender
    ensures n == m
  {
    var j :| At(s, j, Handling(n)) && s.conns[j].user == s.dl.accepted[n].deliver.sender;
    var k :| At(s, k, Handling(m)) && s.conns[k].user == s.dl.accepted[m].deliver.sender;
  }

  /** A user who can dispatch a frame has none in flight. */
  lemma DispatcherHasNoFlight(s: State, k: Dl.Socket, n: nat)
    requires SessionInv(s) && HandlerInv(s) && At(s, k, Serving) && n in s.dl.flights
    ensures s.dl.accepted[n].deliver.sender != s.conns[k].user
  {
    var j :| At(s, j, Handling(n)) && s.conns[j].user == s.dl.accepted[n].deliver.sender;
  }
}
