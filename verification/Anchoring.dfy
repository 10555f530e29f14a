/**
  From a list of messages to the chain (the server's `_submit_batch` and
  `add_to_blockchain`) and back (the web page's `verifyMessage`).
 */
module Anchoring {
  import opened Words
  import opened Merkle
  import opened Contract
  import Server = ServerTree
  import Web = WebTree

  // ----- submission

  /** What becomes of one transaction: an unconfirmed one is on the chain although the caller saw a failure. */
  datatype Fate = Mined | Dropped | Unconfirmed

  function BatchCall(H: Keccak, account: Address, messages: seq<Bytes>, now: nat): Call
    requires messages != []
  {
    RecordBatch(account, Server.BatchRoot(H, messages), Server.SortedLeaves(H, messages), now)
  }

  /** One submission: the chain after it, and whether the caller got a confirmed batch. */
  function Submit(H: Keccak, c: Chain, account: Address, messages: seq<Bytes>, fate: Fate, now: nat): (Chain, bool)
  {
    if messages == [] || |messages| > MAX_LEAVES || fate.Dropped? then (c, false)
    else
      var (c', o) := Execute(c, BatchCall(H, account, messages, now));
      (c', o.Done? && fate.Mined?)
  }

  /** All chunks in order, stopping at the first failure. */
  function SubmitAll(H: Keccak, c: Chain, account: Address, messages: seq<Bytes>,
                     k: nat, fate: nat -> Fate, time: nat -> nat): (Chain, bool)
    decreases |messages|
  {
    if messages == [] then (c, true) else
    var n := if |messages| < MAX_LEAVES then |messages| else MAX_LEAVES;
    var (c', ok) := Submit(H, c, account, messages[..n], fate(k), time(k));
    if ok then SubmitAll(H, c', account, messages[n..], k + 1, fate, time) else (c', false)
  }

  method SubmitBatch(H: Keccak, contract: MessageIntegrity, account: Address, messages: seq<Bytes>,
                     fate: Fate, now: nat)
    returns (r: Result<nat, string>)
    modifies contract
    ensures (contract.State(), r.Ok?) == Submit(H, old(contract.State()), account, messages, fate, now)
    ensures r.Ok? ==> r.value == |old(contract.batches)|
  {
    if |messages| == 0 { return Err("Cannot submit empty batch"); }
    if |messages| > MAX_LEAVES { return Err("Batch exceeds MAX_LEAVES limit"); }
    var leaves := Map(m => Server.MakeLeaf(H, m), messages);
    var tree := Server.BuildTree(H, leaves);
    var layers := tree.value;
    var root := layers[|layers| - 1][0];
    var sortedLeaves := layers[0];
    assert leaves == Server.Leaves(H, messages);
    if fate.Dropped? { return Err("transaction not sent"); }
    var batchIndex := |contract.batches|;
    var o := contract.RecordBatch(account, root, sortedLeaves, now);
    if o.Revert? { return Err("Transaction reverted on-chain"); }
    if fate.Unconfirmed? { return Err("no receipt"); }
    return Ok(batchIndex);
  }

  lemma SubmitAllUnfold(H: Keccak, c: Chain, account: Address, messages: seq<Bytes>, i: nat, end: nat,
                        k: nat, fate: nat -> Fate, time: nat -> nat)
    requires i < |messages| && end == (if i + MAX_LEAVES < |messages| then i + MAX_LEAVES else |messages|)
    ensures SubmitAll(H, c, account, messages[i..], k, fate, time) ==
            var (c', ok) := Submit(H, c, account, messages[i..end], fate(k), time(k));
            if ok then SubmitAll(H, c', account, messages[end..], k + 1, fate, time) else (c', false)
  {
    hide Submit;
    assert messages[i..][..end - i] == messages[i..end];
    assert messages[i..][end - i..] == messages[end..];
  }

  lemma SubmitAddsOne(H: Keccak, c: Chain, account: Address, messages: seq<Bytes>, fate: Fate, now: nat)
    ensures var (c', ok) := Submit(H, c, account, messages, fate, now); ok ==> |c'.batches| == |c.batches| + 1
  {
  }

  /** The loop body: submit the chunk at `i`, leaving the rest of the work to the chunks after it. */
  method SubmitChunk(H: Keccak, contract: MessageIntegrity, account: Address, messages: seq<Bytes>, i: nat, end: nat,
                     k: nat, fate: nat -> Fate, time: nat -> nat) returns (r: Result<nat, string>)
    requires i < |messages| && end == (if i + MAX_LEAVES < |messages| then i + MAX_LEAVES else |messages|)
    modifies contract
    ensures SubmitAll(H, old(contract.State()), account, messages[i..], k, fate, time) ==
            if r.Ok? then SubmitAll(H, contract.State(), account, messages[end..], k + 1, fate, time)
            else (contract.State(), false)
    ensures r.Ok? ==> r.value == |old(contract.batches)| && |contract.batches| == r.value + 1
  {
    hide Submit;
    SubmitAddsOne(H, contract.State(), account, messages[i..end], fate(k), time(k));
    SubmitAllUnfold(H, contract.State(), account, messages, i, end, k, fate, time);
    r := SubmitBatch(H, contract, account, messages[i..end], fate(k), time(k));
  }

  method AddToBlockchain(H: Keccak, contract: MessageIntegrity, account: Address, messages: seq<Bytes>,
                         fate: nat -> Fate, time: nat -> nat) returns (r: Result<seq<nat>, string>)
    modifies contract
    ensures messages == [] ==> r.Err? && contract.State() == old(contract.State())
    ensures messages != [] ==>
              (contract.State(), r.Ok?) == SubmitAll(H, old(contract.State()), account, messages, 0, fate, time)
    ensures r.Ok? ==> |r.value| == (|messages| + MAX_LEAVES - 1) / MAX_LEAVES
    ensures r.Ok? ==> forall k :: 0 <= k < |r.value| ==> r.value[k] == |old(contract.batches)| + k
  {
    hide Submit;
    if messages == [] { return Err("Cannot push empty message list"); }
    var results: seq<nat> := [];
    var i: nat := 0;
    ghost var target := SubmitAll(H, contract.State(), account, messages, 0, fate, time);
    assert messages[0..] == messages;
    while i < |messages|
      invariant i <= |messages|
      invariant |results| == (i + MAX_LEAVES - 1) / MAX_LEAVES && (i < |messages| ==> i % MAX_LEAVES == 0)
      invariant |contract.batches| == |old(contract.batches)| + |results|
      invariant forall k :: 0 <= k < |results| ==> results[k] == |old(contract.batches)| + k
      invariant SubmitAll(H, contract.State(), account, messages[i..], |results|, fate, time) == target
    {
      var end := if i + MAX_LEAVES < |messages| then i + MAX_LEAVES else |messages|;
      var one := SubmitChunk(H, contract, account, messages, i, end, |results|, fate, time);
      if one.Err? { return Err(one.error); }
      results := results + [one.value];
      i := end;
    }
    return Ok(results);
  }

  // ----- chains built only by submission

  /** `history[i]` is the list of messages whose tree is batch `i`. */
  ghost predicate HonestHistory(H: Keccak, c: Chain, history: seq<seq<Bytes>>)
  {
    && WellFormed(c) && |history| == |c.batches|
    && forall i :: 0 <= i < |history| ==> history[i] != [] && HonestBatch(H, c, i, history[i])
  }

  ghost predicate HonestBatch(H: Keccak, c: Chain, i: nat, messages: seq<Bytes>)
    requires i < |c.batches| && messages != []
  {
    && LeavesOf(c.events, i) == Server.SortedLeaves(H, messages)
    && c.batches[i].merkleRoot == Server.BatchRoot(H, messages)
  }

  /** Did this submission put its batch on the chain, confirmed or not? */
  predicate Appends(H: Keccak, c: Chain, account: Address, messages: seq<Bytes>, fate: Fate, now: nat)
  {
    |Submit(H, c, account, messages, fate, now).0.batches| > |c.batches|
  }

  function HistoryAfter(H: Keccak, c: Chain, history: seq<seq<Bytes>>,
                        account: Address, messages: seq<Bytes>, fate: Fate, now: nat): seq<seq<Bytes>>
  {
    if Appends(H, c, account, messages, fate, now) then history + [messages] else history
  }

  /** A submission either leaves the chain alone or appends exactly its own batch. */
  lemma SubmitEffect(H: Keccak, c: Chain, account: Address, messages: seq<Bytes>, fate: Fate, now: nat)
    ensures var (c', ok) := Submit(H, c, account, messages, fate, now);
            if Appends(H, c, account, messages, fate, now)
            then messages != [] && Execute(c, BatchCall(H, account, messages, now)) == (c', Done)
                 && c'.batches == c.batches + [Batch(Server.BatchRoot(H, messages), now)] && c.events <= c'.events
            else c' == c && !ok
  {
    hide Server.BatchRoot, Server.SortedLeaves, LeafEvents;
  }

  lemma SubmitKeepsHistory(H: Keccak, c: Chain, history: seq<seq<Bytes>>,
                           account: Address, messages: seq<Bytes>, fate: Fate, now: nat)
    requires HonestHistory(H, c, history)
    ensures var (c', ok) := Submit(H, c, account, messages, fate, now);
            var history' := HistoryAfter(H, c, history, account, messages, fate, now);
            HonestHistory(H, c', history') && c.events <= c'.events
            && (history' == history + [messages] || (!ok && history' == history))
  {
    hide Submit, Execute, Appends, Server.BatchRoot, Server.SortedLeaves, WellFormed, LeavesOf;
    var (c', ok) := Submit(H, c, account, messages, fate, now);
    SubmitEffect(H, c, account, messages, fate, now);
    if Appends(H, c, account, messages, fate, now) {
      var call := BatchCall(H, account, messages, now);
      var history' := history + [messages];
      ExecuteKeepsWellFormed(c, call);
      forall i | 0 <= i < |history'| ensures HonestBatch(H, c', i, history'[i]) {
        RecordBatchLeaves(c, account, call.merkleRoot, call.leaves, now, i);
        if i < |history| { assert HonestBatch(H, c, i, history[i]); }
      }
    }
  }

  /** One message by the owner always gets through, unless its leaf is the zero hash. */
  lemma SubmitOne(H: Keccak, c: Chain, m: Bytes, now: nat)
    requires !IsZeroHash(Server.MakeLeaf(H, m))
    ensures var (c', ok) := Submit(H, c, c.owner, [m], Mined, now);
            ok && c'.owner == c.owner && Appends(H, c, c.owner, [m], Mined, now)
  {
    var leaf := Server.MakeLeaf(H, m);
    assert Server.Leaves(H, [m]) == [leaf];
    assert Server.SortedLeaves(H, [m]) == [leaf];
    assert Layers(Server.Pair(H), [leaf]) == [[leaf]];
    assert Server.BatchRoot(H, [m]) == leaf;
  }

  /**
    Whole calls of `add_to_blockchain`, chunked and possibly failing part-way:
    only the given messages reach the chain, and all of them do when it reports success.
   */
  lemma {:induction false} SubmitAllKeepsHistory(H: Keccak, c: Chain, history: seq<seq<Bytes>>, account: Address,
                                                 messages: seq<Bytes>, k: nat, fate: nat -> Fate, time: nat -> nat)
    returns (history': seq<seq<Bytes>>)
    requires HonestHistory(H, c, history)
    ensures var (c', ok) := SubmitAll(H, c, account, messages, k, fate, time);
            HonestHistory(H, c', history') && history <= history'
            && (forall i, m :: |history| <= i < |history'| && m in history'[i] ==> m in messages)
            && (ok ==> forall m :: m in messages ==> exists i :: |history| <= i < |history'| && m in history'[i])
    decreases |messages|
  {
    hide Submit, HonestHistory, HistoryAfter;
    if messages == [] {
      history' := history;
    } else {
      var n := if |messages| < MAX_LEAVES then |messages| else MAX_LEAVES;
      var chunk, rest := messages[..n], messages[n..];
      assert messages == chunk + rest;
      SubmitKeepsHistory(H, c, history, account, chunk, fate(k), time(k));
      var (c1, ok) := Submit(H, c, account, chunk, fate(k), time(k));
      var h1 := HistoryAfter(H, c, history, account, chunk, fate(k), time(k));
      if ok {
        history' := SubmitAllKeepsHistory(H, c1, h1, account, rest, k + 1, fate, time);
        var all := SubmitAll(H, c1, account, rest, k + 1, fate, time);
        if all.1 {
          forall m | m in messages ensures exists i :: |history| <= i < |history'| && m in history'[i] {
            if m in chunk { assert m in history'[|history|]; }
          }
        }
      } else {
        history' := h1;
      }
    }
  }

  /** What one submission needs to be confirmed. */
  predicate Submittable(H: Keccak, c: Chain, account: Address, messages: seq<Bytes>, fate: Fate)
  {
    && account == c.owner && fate.Mined?
    && 1 <= |messages| <= MAX_LEAVES && !IsZeroHash(Server.BatchRoot(H, messages))
  }

  lemma SubmitExactly(H: Keccak, c: Chain, account: Address, messages: seq<Bytes>, fate: Fate, now: nat)
    ensures Submit(H, c, account, messages, fate, now).1 <==> Submittable(H, c, account, messages, fate)
    ensures Submit(H, c, account, messages, fate, now).0.owner == c.owner
  {
    hide IsZeroHash, Server.BatchRoot, Server.SortedLeaves;
    if messages != [] && |messages| <= MAX_LEAVES && !fate.Dropped? {
      OutcomeExactly(c, BatchCall(H, account, messages, now));
    }
  }

  /** Chunk `k` of a call: 4000 messages, or what is left. */
  function Chunk(messages: seq<Bytes>, k: nat): seq<Bytes>
    requires k * MAX_LEAVES < |messages|
  {
    var from := k * MAX_LEAVES;
    messages[from..if |messages| < from + MAX_LEAVES then |messages| else from + MAX_LEAVES]
  }

  /** Every transaction of the call is mined, and no chunk has the zero root. */
  ghost predicate AllMined(H: Keccak, messages: seq<Bytes>, k: nat, fate: nat -> Fate)
  {
    forall j: nat :: j * MAX_LEAVES < |messages| ==>
      fate(k + j).Mined? && !IsZeroHash(Server.BatchRoot(H, Chunk(messages, j)))
  }

  lemma ChunkOfRest(messages: seq<Bytes>, j: nat)
    requires |messages| > MAX_LEAVES && j * MAX_LEAVES < |messages[MAX_LEAVES..]|
    ensures (j + 1) * MAX_LEAVES < |messages| && Chunk(messages[MAX_LEAVES..], j) == Chunk(messages, j + 1)
  {
  }

  lemma AllMinedUnfolds(H: Keccak, messages: seq<Bytes>, k: nat, fate: nat -> Fate)
    requires messages != []
    ensures var n := if |messages| < MAX_LEAVES then |messages| else MAX_LEAVES;
            AllMined(H, messages, k, fate) <==>
            fate(k).Mined? && !IsZeroHash(Server.BatchRoot(H, messages[..n])) && AllMined(H, messages[n..], k + 1, fate)
  {
    hide IsZeroHash, Server.BatchRoot;
    var n := if |messages| < MAX_LEAVES then |messages| else MAX_LEAVES;
    assert Chunk(messages, 0) == messages[..n];
    if AllMined(H, messages, k, fate) {
      assert 0 * MAX_LEAVES < |messages|;
      forall j: nat | j * MAX_LEAVES < |messages[n..]|
        ensures fate(k + 1 + j).Mined? && !IsZeroHash(Server.BatchRoot(H, Chunk(messages[n..], j)))
      {
        ChunkOfRest(messages, j);
        assert fate(k + (j + 1)).Mined?;
      }
    }
    if fate(k).Mined? && !IsZeroHash(Server.BatchRoot(H, messages[..n])) && AllMined(H, messages[n..], k + 1, fate) {
      forall j: nat | j * MAX_LEAVES < |messages|
        ensures fate(k + j).Mined? && !IsZeroHash(Server.BatchRoot(H, Chunk(messages, j)))
      {
        if j > 0 {
          ChunkOfRest(messages, j - 1);
          assert fate(k + 1 + (j - 1)).Mined?;
        }
      }
    }
  }

  /** A call with any number of messages succeeds exactly when the owner sends it and every chunk goes through. */
  lemma {:induction false} SubmitAllExactly(H: Keccak, c: Chain, account: Address, messages: seq<Bytes>,
                                            k: nat, fate: nat -> Fate, time: nat -> nat)
    requires messages != []
    ensures SubmitAll(H, c, account, messages, k, fate, time).1 <==>
            account == c.owner && AllMined(H, messages, k, fate)
    decreases |messages|
  {
    hide Submit, IsZeroHash, Server.BatchRoot, AllMined;
    var n := if |messages| < MAX_LEAVES then |messages| else MAX_LEAVES;
    SubmitExactly(H, c, account, messages[..n], fate(k), time(k));
    AllMinedUnfolds(H, messages, k, fate);
    if |messages| > MAX_LEAVES {
      var c' := Submit(H, c, account, messages[..n], fate(k), time(k)).0;
      SubmitAllExactly(H, c', account, messages[n..], k + 1, fate, time);
    } else {
      assert messages[n..] == [];
      NothingToMine(H, k + 1, fate);
    }
  }

  lemma NothingToMine(H: Keccak, k: nat, fate: nat -> Fate)
    ensures AllMined(H, [], k, fate)
  {
  }

  // ----- verification

  datatype Verdict =
    | NotFound
    | RootMismatch(batchIndex: nat)
    | ProofChecked(isValid: bool, batchIndex: nat, merkleRoot: Digest, timestamp: nat)
    | Failed

  predicate IsValid(v: Verdict) { v.ProofChecked? && v.isValid }

  /** The stored root of batch `i` is the root of the leaves logged for it. */
  predicate Consistent(H: Keccak, c: Chain, i: nat)
    requires i < |c.batches|
  {
    var leaves := LeavesOf(c.events, i);
    leaves != [] && c.batches[i].merkleRoot == Root(Server.Pair(H), Sort(Server.DigestKey, leaves))
  }

  /** What the page must answer, said without trees on the page's side or proofs. */
  function VerdictOf(H: Keccak, c: Chain, message: Bytes): Verdict
  {
    var i := FirstBatchOf(c.events, Server.MakeLeaf(H, message));
    if i < 0 then NotFound
    else if i >= |c.batches| then Failed
    else if Consistent(H, c, i) then ProofChecked(true, i, c.batches[i].merkleRoot, c.batches[i].timestamp)
    else RootMismatch(i)
  }

  lemma ToHexInjective(a: Digest, b: Digest)
    requires Web.ToHex(a) == Web.ToHex(b)
    ensures a == b
  {
    Web.GetBytesToHex(a);
    Web.GetBytesToHex(b);
  }

  /** A leaf found by the log query is in the sorted bottom layer that the page rebuilds. */
  lemma LeafInBottomLayer(leaves: seq<Digest>, leaf: Digest)
    requires leaf in leaves
    ensures Web.ToHex(leaf) in Sort(Web.HexKey, Map(Web.ToHex, leaves))
  {
    var hex := Map(Web.ToHex, leaves);
    var k :| 0 <= k < |leaves| && leaves[k] == leaf;
    assert hex[k] == Web.ToHex(leaf);
    assert Web.ToHex(leaf) in multiset(hex);
    assert Web.ToHex(leaf) in multiset(Sort(Web.HexKey, hex));
  }

  /** A root and a leaf in hand: the page's rebuilt root is the stored one exactly when the batch is consistent. */
  method RebuildAndProve(H: Keccak, inBatch: seq<Digest>, merkleRoot: Digest, leaf: Digest)
    returns (matches: bool, isValid: bool)
    requires leaf in inBatch
    ensures matches <==> merkleRoot == Root(Server.Pair(H), Sort(Server.DigestKey, inBatch))
    ensures matches ==> isValid
  {
    hide Layers, Root, Sort, Web.ToHex, Web.GetBytes, Siblings, Fold;
    var leafHash := Web.ToHex(leaf);
    var allLeaves := Map(Web.ToHex, inBatch);
    var tree := Web.BuildTree(H, allLeaves);
    ghost var sorted := Sort(Web.HexKey, allLeaves);
    RootIsLast(Web.Pair(H), sorted);
    var rebuiltRoot := tree[|tree| - 1][0];
    Web.BuildersAgree(H, inBatch);
    if rebuiltRoot != Web.ToHex(merkleRoot) { return false, false; }
    ToHexInjective(merkleRoot, Root(Server.Pair(H), Sort(Server.DigestKey, inBatch)));
    LeafInBottomLayer(inBatch, leaf);
    LayersHalve(Web.Pair(H), sorted);
    var proof := Web.GetProof(tree, leafHash);
    ghost var at :| Web.FirstAt(tree[0], leafHash, at) && proof.value == Siblings(tree, at);
    Web.PageProofCompletes(H, sorted, at);
    isValid := Web.VerifyProof(H, proof.value, leafHash, rebuiltRoot);
    matches := true;
  }

  lemma RootIsLast<T>(P: (T, T) -> T, layer: seq<T>)
    requires layer != []
    ensures var layers := Layers(P, layer);
            && layers != [] && layers[0] == layer && |layers[|layers| - 1]| == 1
            && Root(P, layer) == layers[|layers| - 1][0]
  {
  }

  /** The page's code, over any chain state whatever: a root mismatch is its only way to refuse a logged leaf. */
  method VerifyMessage(H: Keccak, c: Chain, message: Bytes) returns (v: Verdict)
    ensures v == VerdictOf(H, c, message)
  {
    hide Layers, Root, Sort, Web.ToHex, Web.GetBytes, LeavesOf, FirstBatchOf;
    var leafHash := Web.MakeLeaf(H, message);
    Web.LeavesAgree(H, message);
    var leaf := Web.GetBytes(leafHash);
    Web.GetBytesToHex(Server.MakeLeaf(H, message));
    var found := FirstBatchOf(c.events, leaf);
    if found < 0 { return NotFound; }
    var batchIndex: nat := found;
    if batchIndex >= |c.batches| { return Failed; }
    var batch := c.batches[batchIndex];
    FirstBatchMeaning(c.events, leaf);
    var matches, isValid := RebuildAndProve(H, LeavesOf(c.events, batchIndex), batch.merkleRoot, leaf);
    if !matches { return RootMismatch(batchIndex); }
    return ProofChecked(isValid, batchIndex, batch.merkleRoot, batch.timestamp);
  }

  /**
    The page judges the batch of the first event that logged the leaf, and
    answers with that batch's index, root and timestamp.
   */
  lemma VerdictNamesFirstBatch(H: Keccak, c: Chain, message: Bytes)
    ensures var v, leaf := VerdictOf(H, c, message), Server.MakeLeaf(H, message);
            && (v == NotFound <==> forall k :: 0 <= k < |c.events| ==> !Logs(c.events[k], leaf))
            && forall k: nat :: FirstLogs(c.events, leaf, k) ==>
                 var i := c.events[k].batchIndex;
                 if i >= |c.batches| then v == Failed
                 else if Consistent(H, c, i)
                 then v == ProofChecked(true, i, c.batches[i].merkleRoot, c.batches[i].timestamp)
                 else v == RootMismatch(i)
  {
    hide FirstBatchOf, Consistent;
    FirstBatchIsFirst(c.events, Server.MakeLeaf(H, message));
    FirstBatchMeaning(c.events, Server.MakeLeaf(H, message));
  }

  lemma HonestIsConsistent(H: Keccak, c: Chain, history: seq<seq<Bytes>>, i: nat)
    requires HonestHistory(H, c, history) && i < |history|
    ensures Consistent(H, c, i)
  {
    var s := Server.SortedLeaves(H, history[i]);
    assert HonestBatch(H, c, i, history[i]);
    SortSorted(Server.DigestKey, Server.Leaves(H, history[i]));
    SortSorted(Server.DigestKey, s);
    assert Injective(Server.DigestKey);
    SortUnique(Server.DigestKey, Sort(Server.DigestKey, s), s);
  }

  lemma RecordedIsInHistory(H: Keccak, c: Chain, history: seq<seq<Bytes>>, leaf: Digest)
    requires HonestHistory(H, c, history)
    ensures var i := FirstBatchOf(c.events, leaf);
            i >= 0 ==> i < |history| && leaf in Server.SortedLeaves(H, history[i])
  {
    FirstBatchMeaning(c.events, leaf);
    var i := FirstBatchOf(c.events, leaf);
    if i >= 0 {
      LeavesOfRecorded(c.events, i, leaf);
      assert HonestBatch(H, c, i, history[i]);
    }
  }

  lemma {:induction false} LeavesOfPresent(events: seq<Event>, idx: nat, leaf: Digest)
    requires leaf in LeavesOf(events, idx)
    ensures Recorded(events, leaf)
  {
    LeavesOfRecorded(events, idx, leaf);
  }

  /** On an honest chain the page accepts exactly the recorded leaves, and every message of every batch. */
  lemma HonestChainAccepts(H: Keccak, c: Chain, history: seq<seq<Bytes>>, message: Bytes)
    requires HonestHistory(H, c, history)
    ensures IsValid(VerdictOf(H, c, message)) <==> Recorded(c.events, Server.MakeLeaf(H, message))
    ensures (exists i :: 0 <= i < |history| && message in history[i]) ==> IsValid(VerdictOf(H, c, message))
  {
    var leaf := Server.MakeLeaf(H, message);
    FirstBatchMeaning(c.events, leaf);
    RecordedIsInHistory(H, c, history, leaf);
    var f := FirstBatchOf(c.events, leaf);
    if f >= 0 { HonestIsConsistent(H, c, history, f); }
    if i :| 0 <= i < |history| && message in history[i] {
      Server.SortedLeavesAreLeaves(H, history[i]);
      assert HonestBatch(H, c, i, history[i]);
      LeavesOfPresent(c.events, i, leaf);
    }
  }

  /** The strings whose hashes the page's acceptance of `message` rests on. */
  function AcceptanceInputs(H: Keccak, history: seq<seq<Bytes>>, message: Bytes, i: nat): set<Bytes>
    requires i < |history|
  {
    {message, H(message)} + Server.MessageInputs(H, history[i])
  }

  /** And only those: what the page accepts was batched, or two named strings collide. */
  lemma HonestChainRejects(H: Keccak, c: Chain, history: seq<seq<Bytes>>, message: Bytes)
    requires HonestHistory(H, c, history) && IsValid(VerdictOf(H, c, message))
    ensures var i := VerdictOf(H, c, message).batchIndex;
            i < |history|
            && (message in history[i] || Server.Collision(H, AcceptanceInputs(H, history, message, i)))
  {
    var leaf := Server.MakeLeaf(H, message);
    RecordedIsInHistory(H, c, history, leaf);
    var i := FirstBatchOf(c.events, leaf);
    var S := AcceptanceInputs(H, history, message, i);
    if !Server.Collision(H, S) { Server.LeafInBatch(H, S, message, history[i]); }
  }
}
