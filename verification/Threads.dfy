/**
  The connection's threads: the caller (connect, disconnect), the reader and
  the pinger, interleaved at every access to shared state. The caller obeys
  the threading contract: one thread calls connect and disconnect, and never
  from inside the reader's callback.
 */
module Threads {

  /** Where the caller is. `Leave*` is disconnect(), which connect() runs first; `Enter*` is the rest of connect(). */
  datatype Caller =
    | Idle
    | Leave(connecting: bool)              // running_ cleared
    | LeaveCleared(connecting: bool)       // connected_ cleared
    | LeaveClosed(connecting: bool)        // socket closed
    | LeaveReaderJoined(connecting: bool)
    | LeavePingerJoined(connecting: bool)
    | EnterFreed                           // disconnect() has returned inside connect()
    | EnterSecured                         // ssl_ allocated, handshakes done
    | EnterConnected                       // connected_ set
    | EnterRunning                         // running_ set
    | EnterReader                          // read thread started

  /** A thread object: never started or joined, running at some point of its loop, or finished but not joined. */
  datatype Reader = NoReader | AtCheck | Reading | Failing | Notifying | ReaderDone
  datatype Pinger = NoPinger | Sleeping | Sending | PingerDone

  /**
    `notified` counts on_disconnect calls since the last start, `callerStopped`
    says that disconnect() cleared running_, and `started` that it was ever set.
   */
  datatype State = State(running: bool, connected: bool, socket: bool, ssl: bool,
                         caller: Caller, reader: Reader, pinger: Pinger, notified: nat, callerStopped: bool,
                         started: bool)

  const START := State(false, false, false, false, Idle, NoReader, NoPinger, 0, false, false)

  datatype Step =
    | Connect | Disconnect
    | ClearConnected | CloseSocket | JoinReader | JoinPinger | FreeSsl
    | Secure | HandshakeThrows(socket: bool, ssl: bool) | SetConnected | SetRunning | StartReader | StartPinger
    | ReaderChecks | ReaderGetsMessage | ReaderThrows | ReaderExchanges | ReaderNotifies
    | PingerWakes | PingSent | PingFails

  predicate ReaderAlive(r: Reader) { r != NoReader && r != ReaderDone }
  predicate PingerAlive(p: Pinger) { p != NoPinger && p != PingerDone }

  predicate Enabled(s: State, step: Step)
  {
    match step
    case Connect => s.caller == Idle
    case Disconnect => s.caller == Idle
    case ClearConnected => s.caller.Leave?
    case CloseSocket => s.caller.LeaveCleared?
    case JoinReader => s.caller.LeaveClosed? && !ReaderAlive(s.reader)
    case JoinPinger => s.caller.LeaveReaderJoined? && !PingerAlive(s.pinger)
    case FreeSsl => s.caller.LeavePingerJoined?
    case Secure => s.caller == EnterFreed
    case HandshakeThrows(_, _) => s.caller == EnterFreed
    case SetConnected => s.caller == EnterSecured
    case SetRunning => s.caller == EnterConnected
    case StartReader => s.caller == EnterRunning
    case StartPinger => s.caller == EnterReader
    case ReaderChecks => s.reader == AtCheck
    case ReaderGetsMessage => s.reader == Reading
    case ReaderThrows => s.reader == Reading
    case ReaderExchanges => s.reader == Failing
    case ReaderNotifies => s.reader == Notifying
    case PingerWakes => s.pinger == Sleeping
    case PingSent => s.pinger == Sending
    case PingFails => s.pinger == Sending
  }

  function Stopped(s: State, connecting: bool): State
  {
    s.(running := false, caller := Leave(connecting), callerStopped := s.callerStopped || s.running)
  }

  function Next(s: State, step: Step): State
    requires Enabled(s, step)
  {
    match step
    case Connect => Stopped(s, true)
    case Disconnect => Stopped(s, false)
    case ClearConnected => s.(connected := false, caller := LeaveCleared(s.caller.connecting))
    case CloseSocket => s.(socket := false, caller := LeaveClosed(s.caller.connecting))
    case JoinReader =>
      s.(reader := if ReaderAlive(s.reader) then s.reader else NoReader,
         caller := LeaveReaderJoined(s.caller.connecting))
    case JoinPinger =>
      s.(pinger := if PingerAlive(s.pinger) then s.pinger else NoPinger,
         caller := LeavePingerJoined(s.caller.connecting))
    case FreeSsl => s.(ssl := false, caller := if s.caller.connecting then EnterFreed else Idle)
    case Secure => s.(socket := true, ssl := true, caller := EnterSecured)
    case HandshakeThrows(socket, ssl) => s.(socket := socket, ssl := ssl, caller := Idle)
    case SetConnected => s.(connected := true, caller := EnterConnected)
    case SetRunning =>
      s.(running := true, caller := EnterRunning, notified := 0, callerStopped := false, started := true)
    case StartReader => s.(reader := AtCheck, caller := EnterReader)
    case StartPinger => s.(pinger := Sleeping, caller := Idle)
    case ReaderChecks => s.(reader := if s.running then Reading else ReaderDone)
    case ReaderGetsMessage => s.(reader := AtCheck)
    case ReaderThrows => s.(connected := false, reader := Failing)
    case ReaderExchanges => s.(running := false, reader := if s.running then Notifying else AtCheck)
    case ReaderNotifies => s.(notified := s.notified + 1, reader := AtCheck)
    case PingerWakes => s.(pinger := if s.running then Sending else PingerDone)
    case PingSent => s.(pinger := Sleeping)
    case PingFails => s.(socket := false, pinger := PingerDone)
  }

  ghost predicate ValidRun(s: State, steps: seq<Step>)
    decreases |steps|
  {
    steps == [] || (Enabled(s, steps[0]) && ValidRun(Next(s, steps[0]), steps[1..]))
  }

  ghost function Run(s: State, steps: seq<Step>): State
    requires ValidRun(s, steps)
    decreases |steps|
  {
    if steps == [] then s else Run(Next(s, steps[0]), steps[1..])
  }

  /** Points of the caller at which neither thread can be alive. */
  predicate BothJoined(c: Caller)
  {
    c.LeavePingerJoined? || c == EnterFreed || c == EnterSecured || c == EnterConnected || c == EnterRunning
  }

  /** Points of the caller from clearing connected_ until it is set again. */
  predicate Cleared(c: Caller)
  {
    c.LeaveCleared? || c.LeaveClosed? || c.LeaveReaderJoined? || c.LeavePingerJoined?
    || c == EnterFreed || c == EnterSecured
  }

  /** Points of the caller from closing the socket until it is opened again. */
  predicate SocketClosed(c: Caller)
  {
    c.LeaveClosed? || c.LeaveReaderJoined? || c.LeavePingerJoined? || c == EnterFreed
  }

  predicate Inv(s: State)
  {
    // a live thread has an SSL object to use
    && (ReaderAlive(s.reader) || PingerAlive(s.pinger) ==> s.ssl)
    // joins have happened
    && (s.caller.LeaveReaderJoined? || BothJoined(s.caller) ==> s.reader == NoReader)
    && (BothJoined(s.caller) || s.caller == EnterReader ==> s.pinger == NoPinger)
    && (s.caller == EnterSecured || s.caller == EnterConnected || s.caller == EnterRunning || s.caller == EnterReader
        ==> s.ssl)
    // nothing is left for the TLS handshake to overwrite
    && (s.caller == EnterFreed ==> !s.ssl)
    // running_ is set only from SetRunning until somebody clears it
    && (s.running ==> s.notified == 0 && !s.callerStopped && s.reader != Notifying && s.reader != ReaderDone)
    && (s.running ==> s.caller == Idle || s.caller == EnterRunning || s.caller == EnterReader)
    && (s.running && s.reader == NoReader ==> s.caller == EnterRunning)
    // at most one notification, by whoever cleared running_
    && (s.reader == Notifying ==> s.notified == 0 && !s.callerStopped)
    && s.notified <= 1 && (s.callerStopped ==> s.notified == 0)
    // connected_ is cleared before running_ by the reader, and after it by the caller
    && (s.reader == Failing || s.reader == Notifying ==> !s.connected)
    && (s.caller == EnterRunning ==> s.running)
    && (!s.running && (s.caller == Idle || s.caller == EnterReader) ==> !s.connected)
    && (Cleared(s.caller) ==> !s.connected)
    // whoever clears running_ first notifies, unless it is the caller
    && (s.started && !s.running && !s.callerStopped ==> s.reader == Notifying || s.notified == 1)
    // the caller closes the socket for both threads, a failing pinger for the reader
    && (SocketClosed(s.caller) ==> !s.socket)
    && (s.running && s.pinger == PingerDone ==> !s.socket)
  }

  predicate ByCaller(step: Step) { InDisconnect(step) || InConnect(step) }

  predicate InDisconnect(step: Step)
  {
    || step.Connect? || step.Disconnect? || step.ClearConnected? || step.CloseSocket? || step.JoinReader?
    || step.JoinPinger? || step.FreeSsl?
  }

  predicate InConnect(step: Step)
  {
    || step.Secure? || step.HandshakeThrows? || step.SetConnected? || step.SetRunning? || step.StartReader?
    || step.StartPinger?
  }

  lemma StopKeepsInv(s: State, connecting: bool)
    requires Inv(s) && s.caller == Idle
    ensures Inv(Stopped(s, connecting))
  {
  }

  lemma LeaveKeepsInv(s: State, step: Step)
    requires Inv(s) && Enabled(s, step) && InDisconnect(step) && !step.Connect? && !step.Disconnect?
    ensures Inv(Next(s, step))
  {
  }

  lemma ConnectKeepsInv(s: State, step: Step)
    requires Inv(s) && Enabled(s, step) && InConnect(step)
    ensures Inv(Next(s, step))
  {
  }

  predicate ByPinger(step: Step) { step.PingerWakes? || step.PingSent? || step.PingFails? }

  lemma PingerKeepsInv(s: State, step: Step)
    requires Inv(s) && Enabled(s, step) && ByPinger(step)
    ensures Inv(Next(s, step))
  {
  }

  lemma ReaderKeepsInv(s: State, step: Step)
    requires Inv(s) && Enabled(s, step) && !ByCaller(step) && !ByPinger(step)
    ensures Inv(Next(s, step))
  {
  }

  lemma NextKeepsInv(s: State, step: Step)
    requires Inv(s) && Enabled(s, step)
    ensures Inv(Next(s, step))
  {
    hide Inv, Stopped;
    if step.Connect? || step.Disconnect? {
      StopKeepsInv(s, step.Connect?);
    } else {
      hide Next;
      if InDisconnect(step) {
        LeaveKeepsInv(s, step);
      } else if InConnect(step) {
        ConnectKeepsInv(s, step);
      } else if ByPinger(step) {
        PingerKeepsInv(s, step);
      } else {
        ReaderKeepsInv(s, step);
      }
    }
  }

  /**
    Over every interleaving: on_disconnect fires at most once per connect, and
    not at all if disconnect() cleared running_ first; threads alive always
    have their SSL object.
   */
  lemma {:induction false} ThreadsAreSafe(s: State, steps: seq<Step>)
    requires Inv(s) && ValidRun(s, steps)
    ensures Inv(Run(s, steps))
    decreases |steps|
  {
    if steps != [] {
      NextKeepsInv(s, steps[0]);
      ThreadsAreSafe(Next(s, steps[0]), steps[1..]);
    }
  }

  /** From any reachable state, a step that frees the SSL object finds both threads gone. */
  lemma SslFreedAlone(steps: seq<Step>, step: Step)
    requires ValidRun(START, steps) && Enabled(Run(START, steps), step)
    requires Run(START, steps).ssl && !Next(Run(START, steps), step).ssl
    ensures !ReaderAlive(Run(START, steps).reader) && !PingerAlive(Run(START, steps).pinger)
  {
    ThreadsAreSafe(START, steps);
  }

  /** From any reachable state, a notification is the first since connect and no disconnect() had stopped it. */
  lemma NotifiedOnceAndOnlyOnDrop(steps: seq<Step>)
    requires ValidRun(START, steps) && Enabled(Run(START, steps), ReaderNotifies)
    ensures Run(START, steps).notified == 0 && !Run(START, steps).callerStopped
    ensures !Run(START, steps).running
  {
    ThreadsAreSafe(START, steps);
  }

  /** Between calls, is_connected() is true only while the connection runs: no drop or disconnect() leaves it set. */
  lemma ConnectedOnlyWhileRunning(steps: seq<Step>)
    requires ValidRun(START, steps) && Run(START, steps).caller == Idle
    ensures Run(START, steps).connected ==> Run(START, steps).running
  {
    ThreadsAreSafe(START, steps);
  }

  /** A connection that ended by itself has been reported, once; one that the caller ended has not. */
  lemma EveryDropIsNotified(steps: seq<Step>)
    requires ValidRun(START, steps)
    requires var s := Run(START, steps); s.started && !s.running && s.reader != Notifying
    ensures var s := Run(START, steps);
            (s.notified == 1 <==> !s.callerStopped) && (s.notified == 0 <==> s.callerStopped)
  {
    ThreadsAreSafe(START, steps);
  }

  /** When disconnect() returns, nothing of the connection is left. */
  lemma DisconnectLeavesNothing(steps: seq<Step>)
    requires ValidRun(START, steps) && Enabled(Run(START, steps), FreeSsl)
    ensures var s := Next(Run(START, steps), FreeSsl);
            !s.running && !s.connected && !s.socket && !s.ssl && s.reader == NoReader && s.pinger == NoPinger
  {
    ThreadsAreSafe(START, steps);
  }

  /** A pinger that gave up on a running connection has closed the socket, so the reader's next read fails. */
  lemma FailedPingClosesSocket(steps: seq<Step>)
    requires ValidRun(START, steps) && Run(START, steps).running && Run(START, steps).pinger == PingerDone
    ensures !Run(START, steps).socket
  {
    ThreadsAreSafe(START, steps);
  }

  // ----- disconnect() comes to an end

  predicate Leaving(c: Caller)
  {
    c.Leave? || c.LeaveCleared? || c.LeaveClosed? || c.LeaveReaderJoined? || c.LeavePingerJoined?
  }

  /** What a disconnect() under way can go on with: the caller's next step, or one of the thread it waits for. */
  function Onward(s: State): Step
    requires Leaving(s.caller)
  {
    match s.caller
    case Leave(_) => ClearConnected
    case LeaveCleared(_) => CloseSocket
    case LeaveClosed(_) =>
      (match s.reader
       case AtCheck => ReaderChecks
       case Reading => ReaderGetsMessage
       case Failing => ReaderExchanges
       case Notifying => ReaderNotifies
       case _ => JoinReader)
    case LeaveReaderJoined(_) =>
      (match s.pinger
       case Sleeping => PingerWakes
       case Sending => PingSent
       case _ => JoinPinger)
    case LeavePingerJoined(_) => FreeSsl
    case _ => FreeSsl
  }

  function ReaderLeft(r: Reader): nat
  {
    match r case Reading => 3 case Failing => 2 case Notifying => 2 case AtCheck => 1 case _ => 0
  }

  function PingerLeft(p: Pinger): nat { match p case Sending => 2 case Sleeping => 1 case _ => 0 }

  /** How many steps a disconnect() under way can still see. */
  function Left(s: State): (n: nat)
    ensures n <= 10
  {
    (match s.caller
     case Leave(_) => 5 case LeaveCleared(_) => 4 case LeaveClosed(_) => 3
     case LeaveReaderJoined(_) => 2 case LeavePingerJoined(_) => 1 case _ => 0)
    + ReaderLeft(s.reader) + PingerLeft(s.pinger)
  }

  /** No deadlock: something that the disconnect() waits for, or its own next step, can always happen. */
  lemma OnwardIsEnabled(s: State)
    requires Inv(s) && Leaving(s.caller)
    ensures Enabled(s, Onward(s))
  {
  }

  /** No livelock: with running_ cleared, every step of either thread or the caller uses up one of those left. */
  lemma EveryStepIsNearer(s: State, step: Step)
    requires Inv(s) && Leaving(s.caller) && Enabled(s, step)
    ensures Left(Next(s, step)) < Left(s)
  {
    LeavingIsStopped(s);
    hide Inv, Left, Next, Enabled;
    if ByCaller(step) { CallerStepIsNearer(s, step); } else { ThreadStepIsNearer(s, step); }
  }

  lemma LeavingIsStopped(s: State)
    requires Inv(s) && Leaving(s.caller)
    ensures !s.running
  {
  }

  lemma CallerStepIsNearer(s: State, step: Step)
    requires Leaving(s.caller) && Enabled(s, step) && ByCaller(step)
    ensures Left(Next(s, step)) < Left(s)
  {
  }

  lemma ThreadStepIsNearer(s: State, step: Step)
    requires !s.running && Enabled(s, step) && !ByCaller(step)
    ensures Left(Next(s, step)) < Left(s)
  {
  }

  lemma RunUnfolds(s: State, steps: seq<Step>, k: nat)
    requires ValidRun(s, steps) && 0 < k <= |steps|
    requires ValidRun(Next(s, steps[0]), steps[1..][..k - 1])
    ensures ValidRun(s, steps[..k]) && Run(s, steps[..k]) == Run(Next(s, steps[0]), steps[1..][..k - 1])
  {
    hide Enabled, Next;
    assert steps[..k][1..] == steps[1..][..k - 1];
  }

  lemma {:induction false} DisconnectReturnsIn(s: State, steps: seq<Step>) returns (k: nat)
    requires Inv(s) && Leaving(s.caller) && ValidRun(s, steps) && |steps| >= Left(s)
    ensures k <= |steps| && ValidRun(s, steps[..k]) && !Leaving(Run(s, steps[..k]).caller)
    decreases |steps|
  {
    OnwardIsEnabled(s);
    EveryStepIsNearer(s, Onward(s));
    var t := Next(s, steps[0]);
    EveryStepIsNearer(s, steps[0]);
    NextKeepsInv(s, steps[0]);
    hide Inv, Enabled, Next, Left, Onward;
    if Leaving(t.caller) {
      k := DisconnectReturnsIn(t, steps[1..]);
      k := k + 1;
    } else {
      k := 1;
      assert steps[1..][..0] == [];
    }
    RunUnfolds(s, steps, k);
  }

  /**
    However reader, pinger and caller are scheduled, and whether reads and
    sends then succeed or fail: a disconnect() under way never blocks for
    good, and has returned within ten steps of the three.
   */
  lemma DisconnectReturns(s: State, steps: seq<Step>) returns (k: nat)
    requires Inv(s) && Leaving(s.caller) && ValidRun(s, steps) && |steps| >= 10
    ensures Enabled(s, Onward(s))
    ensures k <= |steps| && ValidRun(s, steps[..k]) && !Leaving(Run(s, steps[..k]).caller)
  {
    OnwardIsEnabled(s);
    k := DisconnectReturnsIn(s, steps);
  }
}
