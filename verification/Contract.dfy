/**
  MessageIntegrity.sol: an append-only array of roots plus an event log that
  holds the leaves. The contract does not check that a root fits its leaves.
 */
module Contract {
  import opened Words

  /** A 20-byte account; 0 is the zero address. */
  type Address = nat

  const MAX_LEAVES := 4000

  predicate IsZeroHash(d: Digest) { forall i :: 0 <= i < 32 ==> d[i] == 0 }

  datatype Batch = Batch(merkleRoot: Digest, timestamp: nat)

  datatype Event =
    | OwnershipTransferred(previousOwner: Address, newOwner: Address)
    | BatchRecorded(index: nat, merkleRoot: Digest, timestamp: nat)
    | LeafRecorded(batchIndex: nat, leafIndex: nat, leafHash: Digest)

  datatype Error = NotAuthorised | EmptyBatch | BatchTooLarge | InvalidMerkleRoot | BatchDoesNotExist | InvalidAddress
  datatype Outcome = Done | Revert(error: Error)

  /** Contract storage and the log that nodes keep for it. */
  datatype Chain = Chain(owner: Address, batches: seq<Batch>, events: seq<Event>)

  datatype Call =
    | RecordBatch(sender: Address, merkleRoot: Digest, leaves: seq<Digest>, timestamp: nat)
    | TransferOwnership(sender: Address, newOwner: Address)

  function LeafEvents(idx: nat, leaves: seq<Digest>): (r: seq<Event>)
    ensures |r| == |leaves|
  {
    seq(|leaves|, i requires 0 <= i < |leaves| => LeafRecorded(idx, i, leaves[i]))
  }

  function Execute(c: Chain, call: Call): (r: (Chain, Outcome))
    ensures r.1.Revert? ==> r.0 == c
  {
    match call
    case RecordBatch(sender, root, leaves, timestamp) =>
      if sender != c.owner then (c, Revert(NotAuthorised))
      else if |leaves| == 0 then (c, Revert(EmptyBatch))
      else if |leaves| > MAX_LEAVES then (c, Revert(BatchTooLarge))
      else if IsZeroHash(root) then (c, Revert(InvalidMerkleRoot))
      else
        var idx := |c.batches|;
        (Chain(c.owner, c.batches + [Batch(root, timestamp)],
               c.events + [BatchRecorded(idx, root, timestamp)] + LeafEvents(idx, leaves)), Done)
    case TransferOwnership(sender, newOwner) =>
      if sender != c.owner then (c, Revert(NotAuthorised))
      else if newOwner == 0 then (c, Revert(InvalidAddress))
      else (Chain(newOwner, c.batches, c.events + [OwnershipTransferred(c.owner, newOwner)]), Done)
  }

  function Deployed(deployer: Address): Chain { Chain(deployer, [], []) }

  function RunCalls(c: Chain, calls: seq<Call>): Chain
    decreases |calls|
  {
    if calls == [] then c else RunCalls(Execute(c, calls[0]).0, calls[1..])
  }

  class MessageIntegrity {
    var owner: Address
    var batches: seq<Batch>
    var events: seq<Event>

    function State(): Chain
      reads this
    {
      Chain(owner, batches, events)
    }

    constructor (sender: Address)
      ensures State() == Deployed(sender)
    {
      owner, batches, events := sender, [], [];
    }

    method RecordBatch(sender: Address, merkleRoot: Digest, leaves: seq<Digest>, now: nat) returns (o: Outcome)
      modifies this
      ensures (State(), o) == Execute(old(State()), Call.RecordBatch(sender, merkleRoot, leaves, now))
    {
      if sender != owner { return Revert(NotAuthorised); }
      if |leaves| == 0 { return Revert(EmptyBatch); }
      if |leaves| > MAX_LEAVES { return Revert(BatchTooLarge); }
      if IsZeroHash(merkleRoot) { return Revert(InvalidMerkleRoot); }
      var idx := |batches|;
      batches := batches + [Batch(merkleRoot, now)];
      events := events + [BatchRecorded(idx, merkleRoot, now)];
      ghost var before := events;
      for i := 0 to |leaves|
        invariant events == before + LeafEvents(idx, leaves)[..i]
        invariant owner == old(owner) && batches == old(batches) + [Batch(merkleRoot, now)]
      {
        events := events + [LeafRecorded(idx, i, leaves[i])];
        assert LeafEvents(idx, leaves)[..i + 1] == LeafEvents(idx, leaves)[..i] + [LeafRecorded(idx, i, leaves[i])];
      }
      assert LeafEvents(idx, leaves)[..|leaves|] == LeafEvents(idx, leaves);
      return Done;
    }

    method TransferOwnership(sender: Address, newOwner: Address) returns (o: Outcome)
      modifies this
      ensures (State(), o) == Execute(old(State()), Call.TransferOwnership(sender, newOwner))
    {
      if sender != owner { return Revert(NotAuthorised); }
      if newOwner == 0 { return Revert(InvalidAddress); }
      var previousOwner := owner;
      owner := newOwner;
      events := events + [OwnershipTransferred(previousOwner, newOwner)];
      return Done;
    }

    method GetBatch(index: nat) returns (r: Result<Batch, Error>)
      ensures r == if index < |batches| then Ok(batches[index]) else Err(BatchDoesNotExist)
    {
      if index >= |batches| { return Err(BatchDoesNotExist); }
      return Ok(batches[index]);
    }
  }

  // ----- log queries, as eth_getLogs answers them

  /** All leaves logged for one batch, in log order. */
  function LeavesOf(events: seq<Event>, idx: nat): seq<Digest>
  {
    if events == [] then []
    else (if events[0].LeafRecorded? && events[0].batchIndex == idx then [events[0].leafHash] else [])
         + LeavesOf(events[1..], idx)
  }

  /** The batch of the first event that logged this leaf; -1 when there is none. */
  function FirstBatchOf(events: seq<Event>, leaf: Digest): int
  {
    if events == [] then -1
    else if events[0].LeafRecorded? && events[0].leafHash == leaf then events[0].batchIndex
    else FirstBatchOf(events[1..], leaf)
  }

  predicate Recorded(events: seq<Event>, leaf: Digest)
  {
    exists e :: e in events && e.LeafRecorded? && e.leafHash == leaf
  }

  lemma {:induction false} LeavesOfConcat(a: seq<Event>, b: seq<Event>, idx: nat)
    ensures LeavesOf(a + b, idx) == LeavesOf(a, idx) + LeavesOf(b, idx)
  {
    if a == [] {
      assert a + b == b;
    } else {
      var all := a + b;
      assert all[0] == a[0] && all[1..] == a[1..] + b;
      LeavesOfConcat(a[1..], b, idx);
      var head := if a[0].LeafRecorded? && a[0].batchIndex == idx then [a[0].leafHash] else [];
      assert LeavesOf(all, idx) == head + LeavesOf(all[1..], idx);
    }
  }

  lemma {:induction false} FirstBatchMeaning(events: seq<Event>, leaf: Digest)
    ensures FirstBatchOf(events, leaf) >= 0 <==> Recorded(events, leaf)
    ensures var i := FirstBatchOf(events, leaf); i >= 0 ==> leaf in LeavesOf(events, i)
    ensures FirstBatchOf(events, leaf) == -1 || FirstBatchOf(events, leaf) >= 0
  {
    if events != [] {
      FirstBatchMeaning(events[1..], leaf);
      assert events == [events[0]] + events[1..];
    }
  }

  /** Event `k` is the first that logged this leaf. */
  predicate FirstLogs(events: seq<Event>, leaf: Digest, k: nat)
  {
    && k < |events| && Logs(events[k], leaf)
    && forall j :: 0 <= j < k ==> !Logs(events[j], leaf)
  }

  predicate Logs(e: Event, leaf: Digest) { e.LeafRecorded? && e.leafHash == leaf }

  /** The batch found is that of the very first event that logged the leaf, if any did. */
  lemma {:induction false} FirstBatchIsFirst(events: seq<Event>, leaf: Digest)
    ensures forall k: nat :: FirstLogs(events, leaf, k) ==> FirstBatchOf(events, leaf) == events[k].batchIndex
    ensures FirstBatchOf(events, leaf) == -1 <==> forall k :: 0 <= k < |events| ==> !Logs(events[k], leaf)
    ensures FirstBatchOf(events, leaf) >= 0 ==> exists k: nat :: FirstLogs(events, leaf, k)
  {
    if events != [] && !Logs(events[0], leaf) {
      var rest := events[1..];
      FirstBatchIsFirst(rest, leaf);
      assert forall k :: 0 <= k < |rest| ==> rest[k] == events[k + 1];
      forall k: nat | FirstLogs(events, leaf, k) ensures FirstBatchOf(events, leaf) == events[k].batchIndex {
        assert FirstLogs(rest, leaf, k - 1);
      }
      if FirstBatchOf(events, leaf) >= 0 {
        var k: nat :| FirstLogs(rest, leaf, k);
        assert FirstLogs(events, leaf, k + 1);
      }
    } else if events != [] {
      assert FirstLogs(events, leaf, 0);
    }
  }

  lemma {:induction false} LeavesOfRecorded(events: seq<Event>, idx: nat, leaf: Digest)
    requires leaf in LeavesOf(events, idx)
    ensures exists e :: e in events && e.LeafRecorded? && e.batchIndex == idx && e.leafHash == leaf
  {
    if events[0].LeafRecorded? && events[0].batchIndex == idx && events[0].leafHash == leaf {
      assert events[0] in events;
    } else {
      LeavesOfRecorded(events[1..], idx, leaf);
    }
  }

  lemma {:induction false} LeavesOfLeafEvents(idx: nat, offset: nat, leaves: seq<Digest>, other: nat)
    ensures LeavesOf(seq(|leaves|, i requires 0 <= i < |leaves| => LeafRecorded(idx, offset + i, leaves[i])), other)
            == if other == idx then leaves else []
    decreases |leaves|
  {
    var es := seq(|leaves|, i requires 0 <= i < |leaves| => LeafRecorded(idx, offset + i, leaves[i]));
    if leaves != [] {
      LeavesOfLeafEvents(idx, offset + 1, leaves[1..], other);
      var rest := leaves[1..];
      assert es[1..] == seq(|rest|, i requires 0 <= i < |rest| => LeafRecorded(idx, offset + 1 + i, rest[i]));
      assert leaves == [leaves[0]] + leaves[1..];
    }
  }

  // ----- what every run of the contract keeps

  ghost predicate WellFormed(c: Chain)
  {
    && (forall e :: e in c.events && e.LeafRecorded? ==> e.batchIndex < |c.batches|)
    && (forall i :: 0 <= i < |c.batches| ==> 0 < |LeavesOf(c.events, i)| <= MAX_LEAVES)
    && (forall i :: 0 <= i < |c.batches| ==> !IsZeroHash(c.batches[i].merkleRoot))
  }

  lemma {:induction false} NoLeavesBeyond(events: seq<Event>, n: nat, idx: nat)
    requires (forall e :: e in events && e.LeafRecorded? ==> e.batchIndex < n) && idx >= n
    ensures LeavesOf(events, idx) == []
  {
    if events != [] {
      assert events[0] in events;
      assert forall e :: e in events[1..] ==> e in events;
      NoLeavesBeyond(events[1..], n, idx);
    }
  }

  /** A recorded batch is exactly the submitted leaves, in order, and no earlier batch gains or loses one. */
  lemma RecordBatchLeaves(c: Chain, sender: Address, root: Digest, leaves: seq<Digest>, now: nat, idx: nat)
    requires WellFormed(c)
    requires Execute(c, RecordBatch(sender, root, leaves, now)).1 == Done
    ensures var c' := Execute(c, RecordBatch(sender, root, leaves, now)).0;
            LeavesOf(c'.events, idx) == if idx == |c.batches| then leaves else LeavesOf(c.events, idx)
  {
    var n := |c.batches|;
    var head := [BatchRecorded(n, root, now)];
    LeavesOfConcat(c.events + head, LeafEvents(n, leaves), idx);
    LeavesOfConcat(c.events, head, idx);
    LeavesOfLeafEvents(n, 0, leaves, idx);
    assert LeafEvents(n, leaves) == seq(|leaves|, i requires 0 <= i < |leaves| => LeafRecorded(n, 0 + i, leaves[i]));
    assert LeavesOf(head, idx) == [];
    if idx == n { NoLeavesBeyond(c.events, n, n); }
  }

  lemma TransferLeaves(c: Chain, e: Event, idx: nat)
    requires !e.LeafRecorded?
    ensures LeavesOf(c.events + [e], idx) == LeavesOf(c.events, idx)
  {
    LeavesOfConcat(c.events, [e], idx);
    assert LeavesOf([e], idx) == [];
  }

  lemma ExecuteKeepsWellFormed(c: Chain, call: Call)
    requires WellFormed(c)
    ensures WellFormed(Execute(c, call).0)
  {
    var (c', o) := Execute(c, call);
    if o.Done? {
      match call
      case RecordBatch(sender, root, leaves, now) =>
        forall i | 0 <= i < |c'.batches| ensures 0 < |LeavesOf(c'.events, i)| <= MAX_LEAVES {
          RecordBatchLeaves(c, sender, root, leaves, now, i);
        }
      case TransferOwnership(_, newOwner) =>
        forall i | 0 <= i < |c'.batches| ensures LeavesOf(c'.events, i) == LeavesOf(c.events, i) {
          TransferLeaves(c, OwnershipTransferred(c.owner, newOwner), i);
        }
    }
  }

  /**
    Over every run of calls by anyone: storage and log only grow, the log stays
    well formed, and the leaves of a batch already recorded never change.
   */
  lemma {:induction false} RunsAppend(c: Chain, calls: seq<Call>)
    requires WellFormed(c)
    ensures var d := RunCalls(c, calls);
            WellFormed(d) && c.batches <= d.batches && c.events <= d.events
            && forall i :: 0 <= i < |c.batches| ==> LeavesOf(d.events, i) == LeavesOf(c.events, i)
    decreases |calls|
  {
    if calls != [] {
      var (c', o) := Execute(c, calls[0]);
      ExecuteKeepsWellFormed(c, calls[0]);
      forall i | 0 <= i < |c.batches| ensures LeavesOf(c'.events, i) == LeavesOf(c.events, i) {
        if o.Done? {
          match calls[0]
          case RecordBatch(sender, root, leaves, now) => RecordBatchLeaves(c, sender, root, leaves, now, i);
          case TransferOwnership(_, newOwner) => TransferLeaves(c, OwnershipTransferred(c.owner, newOwner), i);
        }
      }
      RunsAppend(c', calls[1..]);
    }
  }

  /** Calls by others than the owner have no effect at all, however many there are. */
  lemma {:induction false} OnlyOwnerWrites(c: Chain, calls: seq<Call>)
    requires forall k :: 0 <= k < |calls| ==> calls[k].sender != c.owner
    ensures RunCalls(c, calls) == c
  {
    if calls != [] {
      OnlyOwnerWrites(c, calls[1..]);
    }
  }

  // ----- what a run of calls leaves behind, call by call

  /** Each outcome has exactly its reason; a call goes through when there is none against it. */
  lemma OutcomeExactly(c: Chain, call: Call)
    ensures var o, own := Execute(c, call).1, call.sender == c.owner;
            && (o == Revert(NotAuthorised) <==> !own)
            && match call
               case RecordBatch(_, root, leaves, _) =>
                 var zero := forall i :: 0 <= i < 32 ==> root[i] == 0;
                 && (o == Revert(EmptyBatch) <==> own && leaves == [])
                 && (o == Revert(BatchTooLarge) <==> own && |leaves| > 4000)
                 && (o == Revert(InvalidMerkleRoot) <==> own && 1 <= |leaves| <= 4000 && zero)
                 && (o.Done? <==> own && 1 <= |leaves| <= 4000 && !zero)
               case TransferOwnership(_, newOwner) =>
                 (o == Revert(InvalidAddress) <==> own && newOwner == 0) && (o.Done? <==> own && newOwner != 0)
  {
  }

  /** The calls of a run that went through, in order. */
  function Accepted(c: Chain, calls: seq<Call>): seq<Call>
    decreases |calls|
  {
    if calls == [] then [] else
    var (c', o) := Execute(c, calls[0]);
    (if o.Done? then [calls[0]] else []) + Accepted(c', calls[1..])
  }

  function BatchOf(call: Call): seq<Batch>
  {
    if call.RecordBatch? then [Batch(call.merkleRoot, call.timestamp)] else []
  }

  function BatchesOf(calls: seq<Call>): seq<Batch>
  {
    if calls == [] then [] else BatchOf(calls[0]) + BatchesOf(calls[1..])
  }

  /** Who owns the contract after these transfers. */
  function OwnerAfter(owner: Address, calls: seq<Call>): Address
    decreases |calls|
  {
    if calls == [] then owner
    else OwnerAfter(if calls[0].TransferOwnership? then calls[0].newOwner else owner, calls[1..])
  }

  /** The hand-overs that these calls log, each from the owner before it. */
  function TransfersOf(owner: Address, calls: seq<Call>): seq<Event>
    decreases |calls|
  {
    if calls == [] then []
    else if calls[0].TransferOwnership?
    then [OwnershipTransferred(owner, calls[0].newOwner)] + TransfersOf(calls[0].newOwner, calls[1..])
    else TransfersOf(owner, calls[1..])
  }

  function Transfers(events: seq<Event>): seq<Event>
  {
    if events == [] then []
    else (if events[0].OwnershipTransferred? then [events[0]] else []) + Transfers(events[1..])
  }

  lemma {:induction false} TransfersConcat(a: seq<Event>, b: seq<Event>)
    ensures Transfers(a + b) == Transfers(a) + Transfers(b)
  {
    if a == [] {
      assert a + b == b;
    } else {
      var all := a + b;
      assert all[0] == a[0] && all[1..] == a[1..] + b;
      TransfersConcat(a[1..], b);
    }
  }

  lemma {:induction false} NoTransfers(events: seq<Event>)
    requires forall i :: 0 <= i < |events| ==> !events[i].OwnershipTransferred?
    ensures Transfers(events) == []
  {
    if events != [] { NoTransfers(events[1..]); }
  }

  lemma ExecuteTransfers(c: Chain, call: Call)
    requires Execute(c, call).1.Done?
    ensures Transfers(Execute(c, call).0.events) == Transfers(c.events) + TransfersOf(c.owner, [call])
  {
    match call
    case RecordBatch(_, root, leaves, now) =>
      var more := [BatchRecorded(|c.batches|, root, now)] + LeafEvents(|c.batches|, leaves);
      assert Execute(c, call).0.events == c.events + more;
      TransfersConcat(c.events, more);
      NoTransfers(more);
    case TransferOwnership(_, newOwner) =>
      var e := OwnershipTransferred(c.owner, newOwner);
      TransfersConcat(c.events, [e]);
      assert Transfers([e]) == [e] && TransfersOf(c.owner, [call]) == [e];
  }

  /** The hand-overs in the log after any run are those of the calls that went through. */
  lemma {:induction false} TransfersAreLogged(c: Chain, calls: seq<Call>)
    ensures Transfers(RunCalls(c, calls).events) == Transfers(c.events) + TransfersOf(c.owner, Accepted(c, calls))
    decreases |calls|
  {
    if calls != [] {
      var (c', o) := Execute(c, calls[0]);
      var more := Accepted(c', calls[1..]);
      TransfersAreLogged(c', calls[1..]);
      if o.Done? {
        ExecuteTransfers(c, calls[0]);
        var done := [calls[0]] + more;
        assert done[0] == calls[0] && done[1..] == more;
        assert TransfersOf(c.owner, done) == TransfersOf(c.owner, [calls[0]]) + TransfersOf(c'.owner, more);
      } else {
        assert Accepted(c, calls) == more;
      }
    }
  }

  /** Storage after any run is what the calls that went through say: their batches in order, and the last new owner. */
  lemma {:induction false} StorageIsTheAcceptedCalls(c: Chain, calls: seq<Call>)
    ensures var d, done := RunCalls(c, calls), Accepted(c, calls);
            d.batches == c.batches + BatchesOf(done) && d.owner == OwnerAfter(c.owner, done)
    decreases |calls|
  {
    if calls != [] {
      var (c', o) := Execute(c, calls[0]);
      var more := Accepted(c', calls[1..]);
      StorageIsTheAcceptedCalls(c', calls[1..]);
      if o.Done? {
        var done := [calls[0]] + more;
        assert done[0] == calls[0] && done[1..] == more;
        assert BatchesOf(done) == BatchOf(calls[0]) + BatchesOf(more);
      } else {
        assert Accepted(c, calls) == more;
      }
    }
  }

  /** The log tells of every batch, in order, what storage holds, and of every leaf its position in its batch. */
  ghost predicate LogMatches(c: Chain)
  {
    && BatchEvents(c.events) == seq(|c.batches|, i requires 0 <= i < |c.batches| =>
         BatchRecorded(i, c.batches[i].merkleRoot, c.batches[i].timestamp))
    && forall i, k :: 0 <= i < |c.batches| && 0 <= k < |LeavesOf(c.events, i)| ==>
         LeafRecorded(i, k, LeavesOf(c.events, i)[k]) in c.events
  }

  function BatchEvents(events: seq<Event>): seq<Event>
  {
    if events == [] then []
    else (if events[0].BatchRecorded? then [events[0]] else []) + BatchEvents(events[1..])
  }

  lemma {:induction false} BatchEventsConcat(a: seq<Event>, b: seq<Event>)
    ensures BatchEvents(a + b) == BatchEvents(a) + BatchEvents(b)
  {
    if a == [] {
      assert a + b == b;
    } else {
      var all := a + b;
      assert all[0] == a[0] && all[1..] == a[1..] + b;
      BatchEventsConcat(a[1..], b);
    }
  }

  lemma {:induction false} NoBatchEvents(events: seq<Event>)
    requires forall i :: 0 <= i < |events| ==> !events[i].BatchRecorded?
    ensures BatchEvents(events) == []
  {
    if events != [] { NoBatchEvents(events[1..]); }
  }

  lemma RecordKeepsBatchEvents(c: Chain, sender: Address, root: Digest, leaves: seq<Digest>, now: nat)
    requires Execute(c, RecordBatch(sender, root, leaves, now)).1 == Done
    ensures var c' := Execute(c, RecordBatch(sender, root, leaves, now)).0;
            BatchEvents(c'.events) == BatchEvents(c.events) + [BatchRecorded(|c.batches|, root, now)]
  {
    var e := BatchRecorded(|c.batches|, root, now);
    BatchEventsConcat(c.events + [e], LeafEvents(|c.batches|, leaves));
    BatchEventsConcat(c.events, [e]);
    NoBatchEvents(LeafEvents(|c.batches|, leaves));
    assert BatchEvents([e]) == [e];
  }

  lemma ExecuteKeepsLog(c: Chain, call: Call)
    requires WellFormed(c) && LogMatches(c)
    ensures LogMatches(Execute(c, call).0)
  {
    var (c', o) := Execute(c, call);
    if o.Done? {
      match call
      case RecordBatch(sender, root, leaves, now) =>
        RecordKeepsBatchEvents(c, sender, root, leaves, now);
        forall i, k | 0 <= i < |c'.batches| && 0 <= k < |LeavesOf(c'.events, i)|
          ensures LeafRecorded(i, k, LeavesOf(c'.events, i)[k]) in c'.events
        {
          RecordBatchLeaves(c, sender, root, leaves, now, i);
          if i == |c.batches| {
            assert LeafEvents(i, leaves)[k] == LeafRecorded(i, k, leaves[k]);
          }
        }
      case TransferOwnership(_, newOwner) =>
        var e := OwnershipTransferred(c.owner, newOwner);
        BatchEventsConcat(c.events, [e]);
        NoBatchEvents([e]);
        forall i | 0 <= i < |c'.batches| ensures LeavesOf(c'.events, i) == LeavesOf(c.events, i) {
          TransferLeaves(c, e, i);
        }
    }
  }

  /** Over every run of calls by anyone, the log keeps matching storage. */
  lemma {:induction false} RunsKeepLog(c: Chain, calls: seq<Call>)
    requires WellFormed(c) && LogMatches(c)
    ensures LogMatches(RunCalls(c, calls))
    decreases |calls|
  {
    hide LogMatches, Execute;
    if calls != [] {
      ExecuteKeepsWellFormed(c, calls[0]);
      ExecuteKeepsLog(c, calls[0]);
      RunsKeepLog(Execute(c, calls[0]).0, calls[1..]);
    }
  }
}
