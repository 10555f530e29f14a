/**
  Start-ups and whole runs of the client. The query that loads a conversation
  orders by timestamp alone, so a start-up may return equal timestamps in any
  order.
 */
module ClientRuns {
  import opened Words
  import opened ClientCache

  // ----- reloading

  predicate Before(a: Message, b: Message) { a.timestamp < b.timestamp || (a.timestamp == b.timestamp && a.id < b.id) }

  predicate Arranged(s: seq<Message>) { forall i, j :: 0 <= i < j < |s| ==> Before(s[i], s[j]) }
  predicate NoneInverted(s: seq<Message>) { forall i, j :: 0 <= i < j < |s| ==> !Before(s[j], s[i]) }

  lemma SameFirst(s: seq<Message>, t: seq<Message>)
    requires s != [] && t != [] && Arranged(s) && NoneInverted(t) && s[0] in t && t[0] in s
    ensures s[0] == t[0]
  {
  }

  lemma ArrangedTail(s: seq<Message>, t: seq<Message>)
    requires s != [] && t != [] && Arranged(s) && NoneInverted(t)
    ensures Arranged(s[1..]) && NoneInverted(t[1..])
  {
    hide Before;
  }

  lemma {:induction false} ArrangementUnique(s: seq<Message>, t: seq<Message>)
    requires Arranged(s) && NoneInverted(t) && multiset(s) == multiset(t)
    ensures s == t
  {
    hide Arranged, NoneInverted;
    assert |s| == |multiset(s)| == |multiset(t)| == |t|;
    if s != [] {
      assert s[0] in multiset(t) && t[0] in multiset(s);
      SameFirst(s, t);
      TailMultiset(s);
      TailMultiset(t);
      ArrangedTail(s, t);
      ArrangementUnique(s[1..], t[1..]);
      assert s == [s[0]] + s[1..] && t == [t[0]] + t[1..];
    }
  }

  /** What the queries at start-up may return together. */
  predicate IsReload(rows: seq<Row>, loaded: Cache)
  {
    loaded.Keys == Peers(rows) && forall p :: p in loaded ==> IsLoad(rows, p, loaded[p])
  }

  lemma ReloadGets(rows: seq<Row>, loaded: Cache, p: string)
    requires IsReload(rows, loaded)
    ensures IsLoad(rows, p, Get(loaded, p))
  {
    OfPeerEmpty(rows, p);
  }

  /** Messages with equal timestamps came back in row order. */
  predicate TiesInRowOrder(ms: seq<Message>)
  {
    forall i, j :: 0 <= i < j < |ms| && ms[i].timestamp == ms[j].timestamp ==> ms[i].id < ms[j].id
  }

  /** One start-up restores what was in memory exactly when rows are in time order and the database kept ties so. */
  lemma ReloadRestoresExactly(s: State, loaded: Cache)
    requires IsReload(s.rows, loaded) && forall i, j :: 0 <= i < j < |s.rows| ==> s.rows[i].id < s.rows[j].id
    ensures Agree(Apply(s, Reload(loaded))) <==>
            forall p :: InTimeOrder(OfPeer(s.rows, p)) && TiesInRowOrder(Get(loaded, p))
  {
    hide Peers;
    forall p ensures OfPeer(s.rows, p) == Get(loaded, p) <==>
                     InTimeOrder(OfPeer(s.rows, p)) && TiesInRowOrder(Get(loaded, p))
    {
      ReloadGets(s.rows, loaded, p);
      OfPeerIds(s.rows, p);
      if InTimeOrder(OfPeer(s.rows, p)) && TiesInRowOrder(Get(loaded, p)) {
        ArrangementUnique(OfPeer(s.rows, p), Get(loaded, p));
      }
    }
  }

  predicate StrictlyInTimeOrder(s: seq<Message>)
  {
    forall i, j :: 0 <= i < j < |s| ==> s[i].timestamp < s[j].timestamp
  }

  lemma LoadOfStrict(s: seq<Message>, t: seq<Message>)
    requires StrictlyInTimeOrder(s) && InTimeOrder(t) && multiset(t) == multiset(s)
    ensures t == s
  {
    forall i, j | 0 <= i < j < |t| ensures !Before(t[j], t[i]) {
      assert t[i] in multiset(s) && t[j] in multiset(s);
    }
    ArrangementUnique(s, t);
  }

  lemma LoadExists(rows: seq<Row>, p: string) returns (ms: seq<Message>)
    ensures IsLoad(rows, p, ms)
  {
    hide OfPeer;
    var left := OfPeer(rows, p);
    ms := [];
    while left != []
      invariant Sorting(OfPeer(rows, p), ms, left)
      decreases |left|
    {
      var k := OldestExists(left);
      TakeOldest(OfPeer(rows, p), ms, left, k);
      ms, left := ms + [left[k]], left[..k] + left[k + 1..];
    }
  }

  ghost function SomeLoad(rows: seq<Row>, p: string): (ms: seq<Message>)
    ensures IsLoad(rows, p, ms)
  {
    assert exists ms :: IsLoad(rows, p, ms) by { var any := LoadExists(rows, p); }
    var ms :| IsLoad(rows, p, ms);
    ms
  }

  ghost function SomeReload(rows: seq<Row>): (loaded: Cache)
    ensures IsReload(rows, loaded)
  {
    map p | p in Peers(rows) :: SomeLoad(rows, p)
  }

  /** Two neighbours with one timestamp can come back in either order. */
  lemma SwapTied(ms: seq<Message>, k: nat)
    requires InTimeOrder(ms) && k + 1 < |ms| && ms[k].timestamp == ms[k + 1].timestamp
    ensures var t := ms[k := ms[k + 1]][k + 1 := ms[k]]; InTimeOrder(t) && multiset(t) == multiset(ms)
  {
  }

  /** A conversation not strictly in time order has an answer that differs from it. */
  lemma SomeLoadDiffers(rows: seq<Row>, p: string) returns (ms: seq<Message>)
    requires IdsAscend(OfPeer(rows, p)) && !StrictlyInTimeOrder(OfPeer(rows, p))
    ensures IsLoad(rows, p, ms) && ms != OfPeer(rows, p)
  {
    var shown := OfPeer(rows, p);
    ms := LoadExists(rows, p);
    if ms == shown {
      var k := TiedNeighbours(shown);
      SwapTied(shown, k);
      ms := shown[k := shown[k + 1]][k + 1 := shown[k]];
      assert ms[k].id != shown[k].id;
    }
  }

  lemma TiedNeighbours(ms: seq<Message>) returns (k: nat)
    requires InTimeOrder(ms) && !StrictlyInTimeOrder(ms)
    ensures k + 1 < |ms| && ms[k].timestamp == ms[k + 1].timestamp
  {
    var i, j :| 0 <= i < j < |ms| && ms[i].timestamp >= ms[j].timestamp;
    k := i;
  }

  /** Every start-up restores memory, whatever the database does with ties, exactly when no conversation has any. */
  lemma EveryReloadRestoresExactly(s: State)
    requires forall i, j :: 0 <= i < j < |s.rows| ==> s.rows[i].id < s.rows[j].id
    ensures (forall loaded :: IsReload(s.rows, loaded) ==> Agree(Apply(s, Reload(loaded))))
            <==> forall p :: StrictlyInTimeOrder(OfPeer(s.rows, p))
  {
    hide StrictlyInTimeOrder, Peers, IsLoad;
    if forall p :: StrictlyInTimeOrder(OfPeer(s.rows, p)) {
      forall loaded | IsReload(s.rows, loaded) ensures Agree(Apply(s, Reload(loaded))) {
        forall p ensures OfPeer(s.rows, p) == Get(loaded, p) { StrictReload(s.rows, loaded, p); }
      }
    } else {
      var p :| !StrictlyInTimeOrder(OfPeer(s.rows, p));
      OfPeerIds(s.rows, p);
      var ms := SomeLoadDiffers(s.rows, p);
      var loaded := SomeReload(s.rows)[p := ms];
      NotStrictIsPeer(s.rows, p);
      assert IsReload(s.rows, loaded) && Get(loaded, p) == ms;
      assert !Agree(Apply(s, Reload(loaded)));
    }
  }

  lemma StrictReload(rows: seq<Row>, loaded: Cache, p: string)
    requires IsReload(rows, loaded) && StrictlyInTimeOrder(OfPeer(rows, p))
    ensures Get(loaded, p) == OfPeer(rows, p)
  {
    ReloadGets(rows, loaded, p);
    LoadOfStrict(OfPeer(rows, p), Get(loaded, p));
  }

  lemma NotStrictIsPeer(rows: seq<Row>, p: string)
    requires !StrictlyInTimeOrder(OfPeer(rows, p))
    ensures p in Peers(rows)
  {
    OfPeerEmpty(rows, p);
  }

  lemma {:induction false} OfPeerInOrder(rows: seq<Row>, peer: string)
    requires forall i, j :: 0 <= i < j < |rows| && rows[i].peer == rows[j].peer ==>
                              rows[i].timestamp <= rows[j].timestamp
    ensures InTimeOrder(OfPeer(rows, peer))
  {
    if rows != [] {
      var rest := rows[1..];
      OfPeerInOrder(rest, peer);
      OfPeerMembers(rest, peer);
      var tail := OfPeer(rest, peer);
      if rows[0].peer == peer {
        forall k | 0 <= k < |tail| ensures rows[0].timestamp <= tail[k].timestamp {
          assert tail[k] in tail;
          var i :| 0 <= i < |rest| && rest[i].peer == peer && Decrypt(rest[i]) == tail[k];
          assert rows[i + 1] == rest[i];
        }
      }
    }
  }

  // ----- any sequence of operations

  /**
    What is asked of the inputs: a stored message has a new mid and is not
    older than its conversation, and a remote change names no mid of another
    conversation. With `ties`, start-up queries also return ties in row order.
   */
  ghost predicate Allowed(s: State, op: Op, ties: bool)
  {
    match op
    case Add(peer, mid, timestamp, _, _) =>
      forall i :: 0 <= i < |s.rows| ==>
        s.rows[i].mid != mid && (s.rows[i].peer == peer ==> s.rows[i].timestamp <= timestamp)
    case Local(_, _) => true
    case Remote(sender, mid, _) => OwnMid(s.rows, sender, mid)
    case Reload(loaded) => IsReload(s.rows, loaded) && (ties ==> forall p :: TiesInRowOrder(Get(loaded, p)))
  }

  ghost predicate AllAllowed(s: State, ops: seq<Op>, ties: bool)
    decreases |ops|
  {
    ops == [] || (Allowed(s, ops[0], ties) && AllAllowed(Apply(s, ops[0]), ops[1..], ties))
  }

  /** An update leaves ids, mids, peers and timestamps as they are. */
  lemma UpdateKeepsTable(s: State, s': State, t: Target, c: Change)
    requires TableInv(s) && s'.rows == UpdateRows(s.rows, t, c) && s'.nextId == s.nextId
    ensures TableInv(s')
  {
    assert forall i :: 0 <= i < |s.rows| ==>
             var r := s'.rows[i]; r == s.rows[i].(body := r.body, edited := r.edited, deleted := r.deleted);
    hide UpdateRows;
  }

  lemma ApplyKeepsTable(s: State, op: Op, ties: bool)
    requires TableInv(s) && Allowed(s, op, ties)
    ensures TableInv(Apply(s, op))
  {
    hide UpdateRows, UpdateFirst, IsReload, TiesInRowOrder;
    match op
    case Local(id, c) => UpdateKeepsTable(s, Apply(s, op), ById(id), c);
    case Remote(_, mid, c) => UpdateKeepsTable(s, Apply(s, op), ByMid(mid), c);
    case Add(_, _, _, _, _) =>
    case Reload(_) =>
  }

  lemma ApplyKeepsAgree(s: State, op: Op)
    requires Agree(s) && TableInv(s) && Allowed(s, op, true)
    ensures Agree(Apply(s, op))
  {
    match op
    case Add(_, _, _, _, _) => AddAgrees(s, op);
    case Local(id, c) => LocalChangeAgrees(s, id, c);
    case Remote(sender, mid, c) => RemoteByOwnerExactly(s, sender, mid, c);
    case Reload(loaded) =>
      forall p ensures InTimeOrder(OfPeer(s.rows, p)) { OfPeerInOrder(s.rows, p); }
      ReloadRestoresExactly(s, loaded);
  }

  /** Any mix of sends, receipts, local and remote changes and restarts keeps mids unique and the copies equal. */
  lemma {:induction false} CopiesStayEqual(s: State, ops: seq<Op>)
    requires Agree(s) && TableInv(s) && AllAllowed(s, ops, true)
    ensures Agree(ApplyAll(s, ops)) && TableInv(ApplyAll(s, ops))
    decreases |ops|
  {
    hide Agree, TableInv, Apply, Allowed;
    if ops != [] {
      ApplyKeepsAgree(s, ops[0]);
      ApplyKeepsTable(s, ops[0], true);
      CopiesStayEqual(Apply(s, ops[0]), ops[1..]);
    }
  }

  // ----- whatever the database does with ties

  /** Memory holds each conversation's messages in time order: as on disk, but for the order of equal timestamps. */
  ghost predicate Same(s: State) { forall p :: IsLoad(s.rows, p, Get(s.cache, p)) }

  predicate OneHit(ms: seq<Message>, t: Target)
  {
    forall i, j :: 0 <= i < j < |ms| ==> !(Hits(t, ms[i].id, ms[i].mid) && Hits(t, ms[j].id, ms[j].mid))
  }

  function Dropped(ms: seq<Message>, k: nat): seq<Message>
    requires k < |ms|
  {
    ms[..k] + ms[k + 1..]
  }

  lemma UpdateDropped(ms: seq<Message>, k: nat, t: Target, c: Change)
    requires k < |ms|
    ensures multiset(UpdateAll(ms, t, c))
            == multiset{UpdateAll(ms, t, c)[k]} + multiset(UpdateAll(Dropped(ms, k), t, c))
  {
    hide Hits, ChangeMessage;
    TakeOut(UpdateAll(ms, t, c), k);
    assert UpdateAll(Dropped(ms, k), t, c) == Dropped(UpdateAll(ms, t, c), k);
  }

  /** The first message of one arrangement, found in the other. */
  lemma FindFirst(a: seq<Message>, b: seq<Message>) returns (k: nat)
    requires a != [] && multiset(a) == multiset(b)
    ensures k < |b| && b[k] == a[0] && multiset(a[1..]) == multiset(Dropped(b, k))
  {
    assert a[0] in multiset(b);
    k :| k < |b| && b[k] == a[0];
    TailMultiset(a);
    TakeOut(b, k);
    assert multiset(Dropped(b, k)) == multiset(b) - multiset{b[k]};
  }

  /** Updating all matches does not depend on the order. */
  lemma {:induction false} UpdateAllPermutes(a: seq<Message>, b: seq<Message>, t: Target, c: Change)
    requires multiset(a) == multiset(b)
    ensures multiset(UpdateAll(a, t, c)) == multiset(UpdateAll(b, t, c))
  {
    assert |a| == |multiset(a)| == |multiset(b)| == |b|;
    if a != [] {
      var k := FindFirst(a, b);
      UpdateAllPermutes(a[1..], Dropped(b, k), t, c);
      UpdateDropped(a, 0, t, c);
      UpdateDropped(b, k, t, c);
      assert Dropped(a, 0) == a[1..];
    }
  }

  predicate NoHit(ms: seq<Message>, t: Target) { forall i :: 0 <= i < |ms| ==> !Hits(t, ms[i].id, ms[i].mid) }

  lemma NoHitPermutes(a: seq<Message>, b: seq<Message>, t: Target)
    requires multiset(a) == multiset(b) && NoHit(a, t)
    ensures NoHit(b, t)
  {
    forall i | 0 <= i < |b| ensures !Hits(t, b[i].id, b[i].mid) {
      assert b[i] in multiset(a);
    }
  }

  /** A list has one hit at most if it has without one message, and none without it when that message is a hit. */
  lemma OneHitWithout(ms: seq<Message>, k: nat, t: Target)
    requires k < |ms| && OneHit(Dropped(ms, k), t)
    requires Hits(t, ms[k].id, ms[k].mid) ==> NoHit(Dropped(ms, k), t)
    ensures OneHit(ms, t)
  {
    hide Hits;
    var rest := Dropped(ms, k);
    assert forall i :: 0 <= i < k ==> rest[i] == ms[i];
    assert forall i :: k < i < |ms| ==> rest[i - 1] == ms[i];
  }

  lemma {:induction false} OneHitPermutes(a: seq<Message>, b: seq<Message>, t: Target)
    requires multiset(a) == multiset(b) && OneHit(a, t)
    ensures OneHit(b, t)
  {
    hide Hits;
    assert |a| == |multiset(a)| == |multiset(b)| == |b|;
    if a != [] {
      var k := FindFirst(a, b);
      OneHitPermutes(a[1..], Dropped(b, k), t);
      if Hits(t, a[0].id, a[0].mid) { NoHitPermutes(a[1..], Dropped(b, k), t); }
      OneHitWithout(b, k, t);
    }
  }

  lemma LoadedFrom(rows: seq<Row>, p: string, ms: seq<Message>, i: nat) returns (j: nat)
    requires IsLoad(rows, p, ms) && i < |ms|
    ensures j < |rows| && rows[j].peer == p && Decrypt(rows[j]) == ms[i]
  {
    hide OfPeer;
    OfPeerMembers(rows, p);
    assert ms[i] in multiset(ms);
    assert ms[i] in OfPeer(rows, p);
    var k :| 0 <= k < |rows| && rows[k].peer == p && Decrypt(rows[k]) == ms[i];
    j := k;
  }

  lemma UpdatedLoad(rows: seq<Row>, p: string, ms: seq<Message>, t: Target, c: Change)
    requires IsLoad(rows, p, ms) && OneHit(OfPeer(rows, p), t)
    ensures IsLoad(UpdateRows(rows, t, c), p, UpdateFirst(ms, t, c))
  {
    hide UpdateRows, UpdateFirst, OfPeer;
    UpdateRowsShows(rows, t, c, p);
    UpdateAllPermutes(ms, OfPeer(rows, p), t, c);
    OneHitPermutes(OfPeer(rows, p), ms, t);
    AllIsFirst(ms, t, c);
  }

  lemma LocalKeepsSame(s: State, id: nat, c: Change)
    requires Same(s) && TableInv(s)
    ensures Same(Apply(s, Local(id, c)))
  {
    hide IsLoad, UpdateRows;
    var s' := Apply(s, Local(id, c));
    forall p ensures IsLoad(s'.rows, p, Get(s'.cache, p)) {
      OfPeerIds(s.rows, p);
      UpdatedLoad(s.rows, p, Get(s.cache, p), ById(id), c);
      assert Get(s'.cache, p) == UpdateFirst(Get(s.cache, p), ById(id), c);
    }
  }

  /** Nobody else's conversation holds the mid, so leaving it alone is updating it. */
  lemma OthersUntouched(rows: seq<Row>, sender: string, mid: string, p: string, ms: seq<Message>, c: Change)
    requires OwnMid(rows, sender, mid) && p != sender && IsLoad(rows, p, ms)
    ensures UpdateFirst(ms, ByMid(mid), c) == ms
  {
    hide IsLoad;
    forall i | 0 <= i < |ms| ensures ms[i].mid != mid {
      var j := LoadedFrom(rows, p, ms, i);
    }
  }

  lemma RemoteKeepsSame(s: State, sender: string, mid: string, c: Change)
    requires Same(s) && TableInv(s) && OwnMid(s.rows, sender, mid)
    ensures Same(Apply(s, Remote(sender, mid, c)))
  {
    hide IsLoad, UpdateRows, UpdateFirst, OwnMid;
    var s' := Apply(s, Remote(sender, mid, c));
    forall p ensures IsLoad(s'.rows, p, Get(s'.cache, p)) {
      OfPeerMids(s.rows, p);
      UpdatedLoad(s.rows, p, Get(s.cache, p), ByMid(mid), c);
      if p != sender { OthersUntouched(s.rows, sender, mid, p, Get(s.cache, p), c); }
    }
  }

  lemma AppendedLoad(rows: seq<Row>, r: Row, ms: seq<Message>)
    requires IsLoad(rows, r.peer, ms)
    requires forall i :: 0 <= i < |rows| && rows[i].peer == r.peer ==> rows[i].timestamp <= r.timestamp
    ensures IsLoad(rows + [r], r.peer, ms + [Decrypt(r)])
  {
    hide OfPeer;
    OfPeerSnoc(rows, r, r.peer);
    forall i | 0 <= i < |ms| ensures ms[i].timestamp <= r.timestamp {
      var j := LoadedFrom(rows, r.peer, ms, i);
    }
  }

  lemma AddKeepsSame(s: State, op: Op)
    requires Same(s) && op.Add? && Allowed(s, op, false)
    ensures Same(Apply(s, op))
  {
    hide IsLoad;
    var s' := Apply(s, op);
    var r := s'.rows[|s.rows|];
    forall p ensures IsLoad(s'.rows, p, Get(s'.cache, p)) {
      if p == r.peer { AppendedLoad(s.rows, r, Get(s.cache, p)); } else { OtherLoad(s.rows, r, p, Get(s.cache, p)); }
    }
  }

  lemma OtherLoad(rows: seq<Row>, r: Row, p: string, ms: seq<Message>)
    requires IsLoad(rows, p, ms) && r.peer != p
    ensures IsLoad(rows + [r], p, ms)
  {
    OfPeerSnoc(rows, r, p);
  }

  lemma ApplyKeepsSame(s: State, op: Op)
    requires Same(s) && TableInv(s) && Allowed(s, op, false)
    ensures Same(Apply(s, op))
  {
    hide IsLoad, TableInv;
    match op
    case Add(_, _, _, _, _) => AddKeepsSame(s, op);
    case Local(id, c) => LocalKeepsSame(s, id, c);
    case Remote(sender, mid, c) => RemoteKeepsSame(s, sender, mid, c);
    case Reload(loaded) => forall p ensures IsLoad(s.rows, p, Get(loaded, p)) { ReloadGets(s.rows, loaded, p); }
  }

  /**
    The same with no word on ties: memory always holds the messages on disk in
    time order, and exactly as on disk when no conversation has a tie.
   */
  lemma {:induction false} CopiesHoldTheSame(s: State, ops: seq<Op>)
    requires Same(s) && TableInv(s) && AllAllowed(s, ops, false)
    ensures var s' := ApplyAll(s, ops);
            && Same(s') && TableInv(s')
            && ((forall p :: StrictlyInTimeOrder(OfPeer(s'.rows, p))) ==> Agree(s'))
    decreases |ops|
  {
    hide TableInv, Apply, Allowed, StrictlyInTimeOrder, IsLoad;
    if ops != [] {
      ApplyKeepsSame(s, ops[0]);
      ApplyKeepsTable(s, ops[0], false);
      CopiesHoldTheSame(Apply(s, ops[0]), ops[1..]);
    } else if forall p :: StrictlyInTimeOrder(OfPeer(s.rows, p)) {
      forall p ensures OfPeer(s.rows, p) == Get(s.cache, p) { StrictLoad(s.rows, p, Get(s.cache, p)); }
    }
  }

  lemma StrictLoad(rows: seq<Row>, p: string, ms: seq<Message>)
    requires IsLoad(rows, p, ms) && StrictlyInTimeOrder(OfPeer(rows, p))
    ensures ms == OfPeer(rows, p)
  {
    LoadOfStrict(OfPeer(rows, p), ms);
  }
}
