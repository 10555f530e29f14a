/**
  In which order a sender's frames reach a recipient, over runs of endpoints:
  in the order of acceptance if nothing of theirs waits when one is sent
  directly, and otherwise not.
 */
module FrameOrder {
  import Dl = Delivery
  import Order
  import opened Endpoint

  // ----- the order of frames

  /** What is asked of a pair's acceptances: rising times, and nothing waiting while the recipient is connected. */
  ghost predicate Patient(s: State, step: Step, pr: Order.Pair)
  {
    step.Dispatch? && Order.Pair(step.e.deliver.sender, step.e.recipient) == pr ==>
      && (forall n: nat :: Order.Of(s.dl, pr, n) ==> s.dl.accepted[n].now < step.e.now)
      && (pr.recipient in s.dl.sessions ==> Order.NothingWaits(s.dl, pr))
  }

  ghost predicate PatientRun(s: State, steps: seq<Step>, ttl: nat, pr: Order.Pair)
    requires ValidRun(s, steps, ttl)
    decreases |steps|
  {
    steps == [] || (Patient(s, steps[0], pr) && PatientRun(Next(s, steps[0], ttl), steps[1..], ttl, pr))
  }

  lemma PatientIsOrderly(s: State, step: Step, ttl: nat, pr: Order.Pair)
    requires Inv(s, ttl) && Enabled(s, step) && Patient(s, step, pr) && Effect(s, step).Some?
    ensures Order.Orderly(s.dl, Effect(s, step).value, pr)
  {
    hide Dl.Inv, DrainInv, Dl.Enabled, Order.NothingWaits;
    if step.Dispatch? && Order.Pair(step.e.deliver.sender, step.e.recipient) == pr {
      forall n: nat ensures !Order.InFlight(s.dl, pr, n) {
        if n in s.dl.flights { DispatcherHasNoFlight(s, step.socket, n); }
      }
    }
  }

  lemma {:induction false} RunKeepsOrder(s: State, steps: seq<Step>, ttl: nat, pr: Order.Pair)
    requires Inv(s, ttl) && Order.OrderInv(s.dl, pr) && ValidRun(s, steps, ttl) && PatientRun(s, steps, ttl, pr)
    ensures Order.OrderInv(Run(s, steps, ttl).dl, pr)
    decreases |steps|
  {
    hide Inv, Enabled, Next, Patient, Order.OrderInv;
    if steps != [] {
      NextKeepsInv(s, steps[0], ttl);
      NextInOrder(s, steps[0], ttl, pr);
      RunKeepsOrder(Next(s, steps[0], ttl), steps[1..], ttl, pr);
    }
  }

  lemma NextInOrder(s: State, step: Step, ttl: nat, pr: Order.Pair)
    requires Inv(s, ttl) && Order.OrderInv(s.dl, pr) && Enabled(s, step) && Patient(s, step, pr)
    ensures Order.OrderInv(Next(s, step, ttl).dl, pr)
  {
    hide Order.OrderInv, Dl.Inv, SessionInv, HandlerInv, DrainInv, Dl.Next, Dl.Enabled, Patient, Ready, Conns;
    var x := Effect(s, step);
    if x.Some? {
      PatientIsOrderly(s, step, ttl, pr);
      Order.NextKeepsOrder(s.dl, x.value, ttl, pr);
    }
  }

  /**
    In every run in which a sender's frames for a recipient are accepted at
    rising times, and directly only when none of them still waits, they go out
    in the order of their acceptance.
   */
  lemma FramesLeaveInOrder(clock: int, steps: seq<Step>, ttl: nat, pr: Order.Pair)
    requires ValidRun(Init(clock), steps, ttl) && PatientRun(Init(clock), steps, ttl, pr)
    ensures Order.InOrder(Run(Init(clock), steps, ttl).dl, pr)
  {
    InitInv(clock, ttl);
    assert Order.OrderInv(Init(clock).dl, pr);
    RunKeepsOrder(Init(clock), steps, ttl, pr);
  }

  // ----- the condition is needed: a run of endpoints in which a frame overtakes

  lemma {:induction false} RunConcat(s: State, a: seq<Step>, b: seq<Step>, ttl: nat)
    requires ValidRun(s, a, ttl) && ValidRun(Run(s, a, ttl), b, ttl)
    ensures ValidRun(s, a + b, ttl) && Run(s, a + b, ttl) == Run(Run(s, a, ttl), b, ttl)
    decreases |a|
  {
    hide Enabled, Next;
    if a == [] {
      assert a + b == b;
    } else {
      RunConcat(Next(s, a[0], ttl), a[1..], b, ttl);
      assert (a + b)[0] == a[0] && (a + b)[1..] == a[1..] + b;
    }
  }

  lemma RunTwo(s: State, x: Step, y: Step, ttl: nat)
    requires Enabled(s, x) && Enabled(Next(s, x, ttl), y)
    ensures ValidRun(s, [x, y], ttl) && Run(s, [x, y], ttl) == Next(Next(s, x, ttl), y, ttl)
  {
    hide Enabled, Next;
    var s1 := Next(s, x, ttl);
    assert [x, y][1..] == [y] && [y][1..] == [];
    assert ValidRun(s1, [y], ttl) && Run(s1, [y], ttl) == Next(s1, y, ttl);
  }

  function Frame(a: string, b: string, now: int): Dl.Envelope { Dl.Envelope(b, Dl.Deliver(a, "x", "m"), now) }

  function Row(a: string, b: string, ttl: nat): Dl.QueueRow { Dl.QueueRow(0, b, Dl.Deliver(a, "x", "m"), 0, ttl) }

  function Empty(user: string): Dl.Drain { Dl.Drain(user, [], [], 0, false) }

  /** The sender has connected, and is served. */
  function State1(a: string): State
  {
    State(Dl.Init(1).(sessions := map[a := 0], sockets := 1, registered := {(a, 0)}), map[0 := Conn(a, Entered)])
  }

  function State2(a: string): State
  {
    State(State1(a).dl.(drains := map[0 := Empty(a)]), map[0 := Conn(a, Serving)])
  }

  /** Its first frame is queued; then the recipient connects, and its drain reads the queue. */
  function State3(a: string, b: string, ttl: nat): State
  {
    State(State2(a).dl.(queue := map[0 := Row(a, b, ttl)], nextRow := 1, accepted := [Frame(a, b, 0)],
                        sessions := map[a := 0, b := 1], sockets := 2, registered := {(a, 0), (b, 1)}),
          map[0 := Conn(a, Serving), 1 := Conn(b, Greeting)])
  }

  function State4(a: string, b: string, ttl: nat): State
  {
    State(State3(a, b, ttl).dl.(drains := map[0 := Empty(a), 1 := Dl.Drain(b, [0], [Row(a, b, ttl)], 0, false)]),
          map[0 := Conn(a, Serving), 1 := Conn(b, Draining)])
  }

  /** The second frame goes out directly, and after it the first. */
  function State5(a: string, b: string, ttl: nat): State
  {
    State4(a, b, ttl).(dl := State4(a, b, ttl).dl.(
      accepted := [Frame(a, b, 0), Frame(a, b, 1)], transfers := [Dl.Transfer(1, 1, Dl.Deliver(a, "x", "m"))]))
  }

  lemma Reach1(a: string, ttl: nat)
    ensures ValidRun(Init(1), [Connect(a), GreetOk(0)], ttl)
    ensures Run(Init(1), [Connect(a), GreetOk(0)], ttl) == State1(a)
  {
    hide Run, ValidRun;
    var s := Next(Init(1), Connect(a), ttl);
    assert s.dl == State1(a).dl && s.conns == map[0 := Conn(a, Greeting)];
    assert Next(s, GreetOk(0), ttl).conns == State1(a).conns;
    RunTwo(Init(1), Connect(a), GreetOk(0), ttl);
  }

  lemma Reach2(a: string, ttl: nat)
    ensures ValidRun(State1(a), [ReadQueue(0, []), Drained(0)], ttl)
    ensures Run(State1(a), [ReadQueue(0, []), Drained(0)], ttl) == State2(a)
  {
    hide Run, ValidRun;
    var s := Next(State1(a), ReadQueue(0, []), ttl);
    assert s.dl.drains[0].rows == [];
    assert s.dl == State2(a).dl && s.conns == map[0 := Conn(a, Draining)];
    assert Next(s, Drained(0), ttl).conns == State2(a).conns;
    RunTwo(State1(a), ReadQueue(0, []), Drained(0), ttl);
  }

  lemma Reach3(a: string, b: string, ttl: nat)
    requires a != b
    ensures ValidRun(State2(a), [Dispatch(0, Frame(a, b, 0)), Connect(b)], ttl)
    ensures Run(State2(a), [Dispatch(0, Frame(a, b, 0)), Connect(b)], ttl) == State3(a, b, ttl)
  {
    hide Run, ValidRun;
    var s := Next(State2(a), Dispatch(0, Frame(a, b, 0)), ttl);
    assert s.dl == State2(a).dl.(queue := map[0 := Row(a, b, ttl)], nextRow := 1, accepted := [Frame(a, b, 0)]);
    var t := Next(s, Connect(b), ttl);
    assert t.dl == State3(a, b, ttl).dl && t.conns == State3(a, b, ttl).conns;
    RunTwo(State2(a), Dispatch(0, Frame(a, b, 0)), Connect(b), ttl);
  }

  lemma Reach4(a: string, b: string, ttl: nat)
    requires a != b
    ensures ValidRun(State3(a, b, ttl), [GreetOk(1), ReadQueue(1, [0])], ttl)
    ensures Run(State3(a, b, ttl), [GreetOk(1), ReadQueue(1, [0])], ttl) == State4(a, b, ttl)
  {
    hide Run, ValidRun;
    var s := Next(State3(a, b, ttl), GreetOk(1), ttl);
    assert Dl.IsDrainRead(s.dl, b, [0]);
    var t := Next(s, ReadQueue(1, [0]), ttl);
    assert t.dl.drains[1].rows == [Row(a, b, ttl)];
    assert t.dl == State4(a, b, ttl).dl && t.conns == State4(a, b, ttl).conns;
    RunTwo(State3(a, b, ttl), GreetOk(1), ReadQueue(1, [0]), ttl);
  }

  lemma Reach5(a: string, b: string, ttl: nat)
    requires a != b
    ensures ValidRun(State4(a, b, ttl), [Dispatch(0, Frame(a, b, 1)), Sent(0)], ttl)
    ensures Run(State4(a, b, ttl), [Dispatch(0, Frame(a, b, 1)), Sent(0)], ttl) == State5(a, b, ttl)
  {
    hide Run, ValidRun;
    var s := Next(State4(a, b, ttl), Dispatch(0, Frame(a, b, 1)), ttl);
    assert s.dl.flights == map[1 := Dl.Flight(1, b, Dl.Deliver(a, "x", "m"), 1)];
    assert s.dl.accepted == State5(a, b, ttl).dl.accepted;
    var t := Next(s, Sent(0), ttl);
    assert t.dl == State5(a, b, ttl).dl && t.conns == State5(a, b, ttl).conns;
    RunTwo(State4(a, b, ttl), Dispatch(0, Frame(a, b, 1)), Sent(0), ttl);
  }

  lemma Reach6(a: string, b: string, ttl: nat)
    requires a != b
    ensures ValidRun(State5(a, b, ttl), [SendRow(1), DeleteRow(1)], ttl)
    ensures !Order.InOrder(Run(State5(a, b, ttl), [SendRow(1), DeleteRow(1)], ttl).dl, Order.Pair(a, b))
  {
    hide Run, ValidRun;
    var s := Next(State5(a, b, ttl), SendRow(1), ttl);
    var t := Next(s, DeleteRow(1), ttl);
    var d := Dl.Deliver(a, "x", "m");
    assert t.dl.transfers == [Dl.Transfer(1, 1, d), Dl.Transfer(1, 0, d)];
    assert Order.IsSent(t.dl, Order.Pair(a, b), 0) && Order.IsSent(t.dl, Order.Pair(a, b), 1);
    RunTwo(State5(a, b, ttl), SendRow(1), DeleteRow(1), ttl);
  }

  /** The sender's second frame is dispatched while the recipient's drain has still to send the first. */
  function Overtaking(a: string, b: string): seq<Step>
  {
    [Connect(a), GreetOk(0)] + [ReadQueue(0, []), Drained(0)] + [Dispatch(0, Frame(a, b, 0)), Connect(b)]
    + [GreetOk(1), ReadQueue(1, [0])] + [Dispatch(0, Frame(a, b, 1)), Sent(0)] + [SendRow(1), DeleteRow(1)]
  }

  /** For any two users: the second frame reaches the recipient before the first. */
  lemma FramesCanOvertake(a: string, b: string, ttl: nat)
    requires a != b
    ensures ValidRun(Init(1), Overtaking(a, b), ttl)
    ensures !Order.InOrder(Run(Init(1), Overtaking(a, b), ttl).dl, Order.Pair(a, b))
  {
    hide Run, ValidRun, Order.InOrder, State1, State2, State3, State4, State5;
    Reach1(a, ttl);
    Reach2(a, ttl);
    Reach3(a, b, ttl);
    Reach4(a, b, ttl);
    Reach5(a, b, ttl);
    Reach6(a, b, ttl);
    var x1, x2 := [Connect(a), GreetOk(0)], [ReadQueue(0, []), Drained(0)];
    var x3, x4 := [Dispatch(0, Frame(a, b, 0)), Connect(b)], [GreetOk(1), ReadQueue(1, [0])];
    var x5, x6 := [Dispatch(0, Frame(a, b, 1)), Sent(0)], [SendRow(1), DeleteRow(1)];
    RunConcat(Init(1), x1, x2, ttl);
    RunConcat(Init(1), x1 + x2, x3, ttl);
    RunConcat(Init(1), x1 + x2 + x3, x4, ttl);
    RunConcat(Init(1), x1 + x2 + x3 + x4, x5, ttl);
    RunConcat(Init(1), x1 + x2 + x3 + x4 + x5, x6, ttl);
  }
}
