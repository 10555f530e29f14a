/**
  The client keeps every conversation twice: decrypted in memory and encrypted
  in SQLite. Local edits go by row id and remote ones by mid; the SQL updates
  touch every matching row, the in-memory ones the first match of one
  conversation. Storage encryption is an ideal inverse pair.
 */
module ClientCache {
  import opened Words

  /** A stored body: sealed text, or the empty string that a deletion leaves. */
  datatype Blob = Empty | Sealed(text: string)

  function Open(b: Blob): string { match b case Empty => "" case Sealed(t) => t }

  /** `rest` stands for the columns no operation changes (sender, recipient, type, wire ciphertext). */
  datatype Row = Row(id: nat, peer: string, mid: string, timestamp: int, body: Blob,
                     edited: bool, deleted: bool, rest: string)
  datatype Message = Message(id: nat, peer: string, mid: string, timestamp: int, body: string,
                             edited: bool, deleted: bool, rest: string)

  function Decrypt(r: Row): Message
  {
    Message(r.id, r.peer, r.mid, r.timestamp, Open(r.body), r.edited, r.deleted, r.rest)
  }

  /** An edit sets the body, a deletion empties it. */
  datatype Change = Edit(text: string) | Delete

  function ChangeRow(r: Row, c: Change): Row
  {
    match c
    case Edit(text) => r.(body := Sealed(text), edited := true)
    case Delete => r.(body := Empty, deleted := true)
  }

  function ChangeMessage(m: Message, c: Change): Message
  {
    match c
    case Edit(text) => m.(body := text, edited := true)
    case Delete => m.(body := "", deleted := true)
  }

  /** How a change finds its target. */
  datatype Target = ById(id: nat) | ByMid(mid: string)

  predicate Hits(t: Target, id: nat, mid: string)
  {
    match t case ById(i) => i == id case ByMid(m) => m == mid
  }

  // ----- the two copies

  /** UPDATE ... WHERE: every matching row. */
  function UpdateRows(rows: seq<Row>, t: Target, c: Change): (r: seq<Row>)
    ensures |r| == |rows|
    ensures forall i :: 0 <= i < |rows| ==>
              r[i] == if Hits(t, rows[i].id, rows[i].mid) then ChangeRow(rows[i], c) else rows[i]
  {
    seq(|rows|, i requires 0 <= i < |rows| =>
      if Hits(t, rows[i].id, rows[i].mid) then ChangeRow(rows[i], c) else rows[i])
  }

  /** The first matching position, or the length. */
  function FirstHit(ms: seq<Message>, t: Target): (k: nat)
    ensures k <= |ms| && (k < |ms| ==> Hits(t, ms[k].id, ms[k].mid))
    ensures forall i :: 0 <= i < k ==> !Hits(t, ms[i].id, ms[i].mid)
  {
    if ms == [] || Hits(t, ms[0].id, ms[0].mid) then 0
    else
      var k := FirstHit(ms[1..], t);
      assert forall i :: 1 <= i < 1 + k ==> ms[i] == ms[1..][i - 1];
      1 + k
  }

  /** The first match only. */
  function UpdateFirst(ms: seq<Message>, t: Target, c: Change): (r: seq<Message>)
    ensures |r| == |ms|
  {
    var k := FirstHit(ms, t);
    if k < |ms| then ms[k := ChangeMessage(ms[k], c)] else ms
  }

  class Conversation {
    var messages: seq<Message>

    constructor ()
      ensures messages == []
    {
      messages := [];
    }

    method Update(t: Target, c: Change)
      modifies this
      ensures messages == UpdateFirst(old(messages), t, c)
    {
      var i := 0;
      while i < |messages|
        invariant 0 <= i <= |messages| && messages == old(messages)
        invariant forall j :: 0 <= j < i ==> !Hits(t, messages[j].id, messages[j].mid)
      {
        if Hits(t, messages[i].id, messages[i].mid) {
          messages := messages[i := ChangeMessage(messages[i], c)];
          return;
        }
        i := i + 1;
      }
    }
  }

  class MessageStore {
    var rows: seq<Row>
    var nextId: nat

    constructor ()
      ensures rows == [] && nextId == 1
    {
      rows, nextId := [], 1;
    }

    /** INSERT with a null id: SQLite assigns the next row id. */
    method SaveMessage(peer: string, mid: string, timestamp: int, body: Blob, rest: string) returns (id: nat)
      modifies this
      ensures id == old(nextId) && nextId == id + 1
      ensures rows == old(rows) + [Row(id, peer, mid, timestamp, body, false, false, rest)]
    {
      id := nextId;
      rows := rows + [Row(id, peer, mid, timestamp, body, false, false, rest)];
      nextId := nextId + 1;
    }

    /**
      The query orders by timestamp alone, so the next row is any remaining
      one with the least timestamp. None when the peer has no row.
     */
    method Load(peer: string) returns (r: Option<seq<Message>>)
      ensures r.None? <==> forall i :: 0 <= i < |rows| ==> rows[i].peer != peer
      ensures r.Some? ==> IsLoad(rows, peer, r.value)
    {
      var left, conv: seq<Message> := OfPeer(rows, peer), [];
      OfPeerEmpty(rows, peer);
      if left == [] { return None; }
      while left != []
        invariant Sorting(OfPeer(rows, peer), conv, left)
        decreases |left|
      {
        ghost var oldest := OldestExists(left);
        var k: nat :| k < |left| && forall j :: 0 <= j < |left| ==> left[k].timestamp <= left[j].timestamp;
        TakeOldest(OfPeer(rows, peer), conv, left, k);
        conv, left := conv + [left[k]], left[..k] + left[k + 1..];
      }
      return Some(conv);
    }
  }

  lemma {:induction false} OldestExists(ms: seq<Message>) returns (k: nat)
    requires ms != []
    ensures k < |ms| && forall j :: 0 <= j < |ms| ==> ms[k].timestamp <= ms[j].timestamp
  {
    k := 0;
    if |ms| > 1 {
      var i := OldestExists(ms[1..]);
      assert forall j :: 1 <= j < |ms| ==> ms[1..][j - 1] == ms[j];
      if ms[i + 1].timestamp < ms[0].timestamp { k := i + 1; }
    }
  }

  /** The messages taken so far are in order and none of those left is older. */
  ghost predicate Sorting(all: seq<Message>, conv: seq<Message>, left: seq<Message>)
  {
    && multiset(conv) + multiset(left) == multiset(all) && InTimeOrder(conv)
    && forall i, j :: 0 <= i < |conv| && 0 <= j < |left| ==> conv[i].timestamp <= left[j].timestamp
  }

  lemma TakeOut(ms: seq<Message>, k: nat)
    requires k < |ms|
    ensures multiset(ms) == multiset{ms[k]} + multiset(ms[..k] + ms[k + 1..])
  {
    assert ms == ms[..k] + ([ms[k]] + ms[k + 1..]);
  }

  lemma TakeOldest(all: seq<Message>, conv: seq<Message>, left: seq<Message>, k: nat)
    requires Sorting(all, conv, left) && k < |left|
    requires forall j :: 0 <= j < |left| ==> left[k].timestamp <= left[j].timestamp
    ensures Sorting(all, conv + [left[k]], left[..k] + left[k + 1..])
  {
    TakeOut(left, k);
  }

  /** The peer's rows in row order, decrypted. */
  function OfPeer(rows: seq<Row>, peer: string): seq<Message>
  {
    if rows == [] then [] else Shown(rows[0], peer) + OfPeer(rows[1..], peer)
  }

  function Shown(r: Row, peer: string): seq<Message> { if r.peer == peer then [Decrypt(r)] else [] }

  predicate InTimeOrder(s: seq<Message>) { forall i, j :: 0 <= i < j < |s| ==> s[i].timestamp <= s[j].timestamp }

  /** What `WHERE peer = ? ORDER BY timestamp_ms` may return; the order of equal timestamps is the database's choice. */
  predicate IsLoad(rows: seq<Row>, peer: string, ms: seq<Message>)
  {
    multiset(ms) == multiset(OfPeer(rows, peer)) && InTimeOrder(ms)
  }

  function Peers(rows: seq<Row>): set<string> { set r | r in rows :: r.peer }

  lemma {:induction false} OfPeerEmpty(rows: seq<Row>, peer: string)
    ensures OfPeer(rows, peer) == [] <==> peer !in Peers(rows)
    ensures OfPeer(rows, peer) == [] <==> forall i :: 0 <= i < |rows| ==> rows[i].peer != peer
  {
    if rows != [] {
      OfPeerEmpty(rows[1..], peer);
      assert rows == [rows[0]] + rows[1..];
    }
  }

  // ----- the client

  type Cache = map<string, seq<Message>>

  function Get(c: Cache, peer: string): seq<Message> { if peer in c then c[peer] else [] }

  datatype State = State(rows: seq<Row>, cache: Cache, nextId: nat)

  datatype Op =
    | Add(peer: string, mid: string, timestamp: int, text: string, rest: string)   // sent or received
    | Local(id: nat, change: Change)
    | Remote(sender: string, mid: string, change: Change)
    | Reload(loaded: Cache)   // what the queries at start-up returned

  function Apply(s: State, op: Op): State
  {
    match op
    case Add(peer, mid, timestamp, text, rest) =>
      var r := Row(s.nextId, peer, mid, timestamp, Sealed(text), false, false, rest);
      State(s.rows + [r], s.cache[peer := Get(s.cache, peer) + [Decrypt(r)]], s.nextId + 1)
    case Local(id, change) =>
      State(UpdateRows(s.rows, ById(id), change),
            map p | p in s.cache :: UpdateFirst(s.cache[p], ById(id), change), s.nextId)
    case Remote(sender, mid, change) =>
      State(UpdateRows(s.rows, ByMid(mid), change),
            s.cache[sender := UpdateFirst(Get(s.cache, sender), ByMid(mid), change)], s.nextId)
    case Reload(loaded) => s.(cache := loaded)
  }

  function ApplyAll(s: State, ops: seq<Op>): State
    decreases |ops|
  {
    if ops == [] then s else ApplyAll(Apply(s, ops[0]), ops[1..])
  }

  /** What is on the screen is what is on disk. */
  ghost predicate Agree(s: State)
  {
    forall p :: OfPeer(s.rows, p) == Get(s.cache, p)
  }

  predicate UniqueMids(rows: seq<Row>) { forall i, j :: 0 <= i < j < |rows| ==> rows[i].mid != rows[j].mid }

  /** Ids grow, no mid occurs twice, and each conversation's timestamps do not decrease. */
  ghost predicate TableInv(s: State)
  {
    && (forall i, j :: 0 <= i < j < |s.rows| ==> s.rows[i].id < s.rows[j].id)
    && (forall i :: 0 <= i < |s.rows| ==> s.rows[i].id < s.nextId)
    && UniqueMids(s.rows)
    && (forall i, j :: 0 <= i < j < |s.rows| && s.rows[i].peer == s.rows[j].peer ==>
                         s.rows[i].timestamp <= s.rows[j].timestamp)
  }

  // ----- updates, row by row

  /** All matches in a list of messages. */
  function UpdateAll(ms: seq<Message>, t: Target, c: Change): (r: seq<Message>)
    ensures |r| == |ms|
    ensures forall i :: 0 <= i < |ms| ==>
              r[i] == if Hits(t, ms[i].id, ms[i].mid) then ChangeMessage(ms[i], c) else ms[i]
  {
    seq(|ms|, i requires 0 <= i < |ms| => if Hits(t, ms[i].id, ms[i].mid) then ChangeMessage(ms[i], c) else ms[i])
  }

  lemma UpdateAllConcat(a: seq<Message>, b: seq<Message>, t: Target, c: Change)
    ensures UpdateAll(a + b, t, c) == UpdateAll(a, t, c) + UpdateAll(b, t, c)
  {
  }

  lemma UpdateOneShows(r: Row, t: Target, c: Change, peer: string)
    ensures var r' := if Hits(t, r.id, r.mid) then ChangeRow(r, c) else r;
            Shown(r', peer) == UpdateAll(Shown(r, peer), t, c)
  {
  }

  lemma {:induction false} UpdateRowsShows(rows: seq<Row>, t: Target, c: Change, peer: string)
    ensures OfPeer(UpdateRows(rows, t, c), peer) == UpdateAll(OfPeer(rows, peer), t, c)
  {
    hide Shown, ChangeRow, ChangeMessage, Hits;
    if rows != [] {
      UpdateRowsShows(rows[1..], t, c, peer);
      assert UpdateRows(rows, t, c)[1..] == UpdateRows(rows[1..], t, c);
      UpdateOneShows(rows[0], t, c, peer);
      UpdateAllConcat(Shown(rows[0], peer), OfPeer(rows[1..], peer), t, c);
    }
  }

  /** The first match is the only one that matters: any later match already reads as the change would leave it. */
  ghost predicate OneChange(ms: seq<Message>, t: Target, c: Change)
  {
    forall i, j :: 0 <= i < j < |ms| && Hits(t, ms[i].id, ms[i].mid) && Hits(t, ms[j].id, ms[j].mid) ==>
                     ChangeMessage(ms[j], c) == ms[j]
  }

  ghost predicate NoChange(ms: seq<Message>, t: Target, c: Change)
  {
    forall i :: 0 <= i < |ms| && Hits(t, ms[i].id, ms[i].mid) ==> ChangeMessage(ms[i], c) == ms[i]
  }

  lemma AllIsNone(ms: seq<Message>, t: Target, c: Change)
    ensures UpdateAll(ms, t, c) == ms <==> NoChange(ms, t, c)
  {
  }

  lemma AllIsFirst(ms: seq<Message>, t: Target, c: Change)
    ensures UpdateAll(ms, t, c) == UpdateFirst(ms, t, c) <==> OneChange(ms, t, c)
  {
    var all, first, k := UpdateAll(ms, t, c), UpdateFirst(ms, t, c), FirstHit(ms, t);
    if all == first {
      forall i, j | 0 <= i < j < |ms| && Hits(t, ms[i].id, ms[i].mid) && Hits(t, ms[j].id, ms[j].mid)
        ensures ChangeMessage(ms[j], c) == ms[j]
      {
        assert all[j] == first[j];
      }
    }
  }

  // ----- when a change keeps the copies in step

  /** What a remote edit or deletion must meet: no other conversation holds the mid, and later duplicates are no-ops. */
  ghost predicate RemoteFits(s: State, sender: string, mid: string, c: Change)
  {
    forall p :: if p == sender then OneChange(Get(s.cache, p), ByMid(mid), c)
                else NoChange(Get(s.cache, p), ByMid(mid), c)
  }

  /** A remote change keeps disk and memory equal exactly under that condition; SQL has no WHERE peer = ? here. */
  lemma RemoteChangeExactly(s: State, sender: string, mid: string, c: Change)
    requires Agree(s)
    ensures Agree(Apply(s, Remote(sender, mid, c))) <==> RemoteFits(s, sender, mid, c)
  {
    var s' := Apply(s, Remote(sender, mid, c));
    forall p ensures OfPeer(s'.rows, p) == Get(s'.cache, p) <==>
                     if p == sender then OneChange(Get(s.cache, p), ByMid(mid), c)
                     else NoChange(Get(s.cache, p), ByMid(mid), c)
    {
      UpdateRowsShows(s.rows, ByMid(mid), c, p);
      AllIsNone(Get(s.cache, p), ByMid(mid), c);
      AllIsFirst(Get(s.cache, p), ByMid(mid), c);
    }
  }

  // ----- what each operation does to what is shown

  /** The text and flags a change leaves, whatever else the row holds. */
  predicate Reads(r: Row, r': Row, c: Change)
  {
    && r'.id == r.id && r'.peer == r.peer && r'.mid == r.mid && r'.timestamp == r.timestamp && r'.rest == r.rest
    && (match c
        case Edit(text) => Open(r'.body) == text && r'.edited && r'.deleted == r.deleted
        case Delete => Open(r'.body) == "" && r'.edited == r.edited && r'.deleted)
  }

  /** On disk, a local change alters the row with that id, a remote one every row with that mid, and no other row. */
  lemma ChangesOnDisk(s: State, op: Op, i: nat)
    requires (op.Local? || op.Remote?) && i < |s.rows|
    ensures var rows := Apply(s, op).rows; var r := s.rows[i];
            var hit := if op.Local? then r.id == op.id else r.mid == op.mid;
            |rows| == |s.rows| && if hit then Reads(r, rows[i], op.change) else rows[i] == r
  {
  }

  predicate Matches(op: Op, m: Message)
    requires op.Local? || op.Remote?
  {
    if op.Local? then m.id == op.id else m.mid == op.mid
  }

  /** In memory, the first match of every conversation, or of the sender's only, is altered in the same way. */
  lemma ChangesInMemory(s: State, op: Op, peer: string, i: nat)
    requires (op.Local? || op.Remote?) && i < |Get(s.cache, peer)|
    ensures var before, after := Get(s.cache, peer), Get(Apply(s, op).cache, peer);
            && |after| == |before|
            && var m, m' := before[i], after[i];
            var first := (op.Local? || peer == op.sender) && Matches(op, m)
                         && forall j :: 0 <= j < i ==> !Matches(op, before[j]);
            if !first then m' == m
            else match op.change
                 case Edit(text) => m' == m.(body := text, edited := true)
                 case Delete => m' == m.(body := "", deleted := true)
  {
    var t := if op.Local? then ById(op.id) else ByMid(op.mid);
    var before := Get(s.cache, peer);
    var k := FirstHit(before, t);
    assert forall j :: 0 <= j < |before| ==> (Matches(op, before[j]) <==> Hits(t, before[j].id, before[j].mid));
  }

  /** A message sent or received comes last, on disk and in memory, with its text and under a new id. */
  lemma AddShows(s: State, peer: string, mid: string, timestamp: int, text: string, rest: string)
    ensures var t := Apply(s, Add(peer, mid, timestamp, text, rest));
            && |t.rows| == |s.rows| + 1 && t.rows[..|s.rows|] == s.rows && Open(t.rows[|s.rows|].body) == text
            && Decrypt(t.rows[|s.rows|]) == Message(s.nextId, peer, mid, timestamp, text, false, false, rest)
            && Get(t.cache, peer)
               == Get(s.cache, peer) + [Message(s.nextId, peer, mid, timestamp, text, false, false, rest)]
            && (forall p :: p != peer ==> Get(t.cache, p) == Get(s.cache, p)) && t.nextId == s.nextId + 1
  {
  }

  // ----- the same in terms of the table

  lemma {:induction false} OfPeerMembers(rows: seq<Row>, peer: string)
    ensures forall i :: 0 <= i < |rows| && rows[i].peer == peer ==> Decrypt(rows[i]) in OfPeer(rows, peer)
    ensures forall m :: m in OfPeer(rows, peer) ==>
              exists i :: 0 <= i < |rows| && rows[i].peer == peer && Decrypt(rows[i]) == m
  {
    if rows != [] {
      var rest := rows[1..];
      OfPeerMembers(rest, peer);
      forall i | 0 <= i < |rows| && rows[i].peer == peer ensures Decrypt(rows[i]) in OfPeer(rows, peer) {
        if i > 0 { assert rest[i - 1] == rows[i]; }
      }
      forall m | m in OfPeer(rows, peer)
        ensures exists i :: 0 <= i < |rows| && rows[i].peer == peer && Decrypt(rows[i]) == m
      {
        if m in OfPeer(rest, peer) {
          var i :| 0 <= i < |rest| && rest[i].peer == peer && Decrypt(rest[i]) == m;
          assert rows[i + 1] == rest[i];
        }
      }
    }
  }

  predicate MidsDiffer(ms: seq<Message>) { forall i, j :: 0 <= i < j < |ms| ==> ms[i].mid != ms[j].mid }

  lemma {:induction false} OfPeerMids(rows: seq<Row>, peer: string)
    requires UniqueMids(rows)
    ensures MidsDiffer(OfPeer(rows, peer))
  {
    if rows != [] {
      var rest := rows[1..];
      OfPeerMids(rest, peer);
      OfPeerMembers(rest, peer);
      var tail := OfPeer(rest, peer);
      forall k | 0 <= k < |tail| ensures tail[k].mid != rows[0].mid {
        assert tail[k] in tail;
        var i :| 0 <= i < |rest| && rest[i].peer == peer && Decrypt(rest[i]) == tail[k];
        assert rows[i + 1] == rest[i];
      }
    }
  }

  /** A remote change to this row would show. */
  predicate Shows(r: Row, c: Change) { ChangeMessage(Decrypt(r), c) != Decrypt(r) }

  /** With unique mids, a remote change keeps the copies equal unless it would show in somebody else's conversation. */
  lemma RemoteByOwnerExactly(s: State, sender: string, mid: string, c: Change)
    requires Agree(s) && UniqueMids(s.rows)
    ensures Agree(Apply(s, Remote(sender, mid, c))) <==>
            forall i :: 0 <= i < |s.rows| && s.rows[i].mid == mid && Shows(s.rows[i], c) ==> s.rows[i].peer == sender
  {
    hide Apply, ChangeMessage;
    RemoteChangeExactly(s, sender, mid, c);
    forall p ensures MidsDiffer(OfPeer(s.rows, p)) && OfPeer(s.rows, p) == Get(s.cache, p) {
      OfPeerMids(s.rows, p);
    }
    if RemoteFits(s, sender, mid, c) {
      forall i | 0 <= i < |s.rows| && s.rows[i].mid == mid && Shows(s.rows[i], c) ensures s.rows[i].peer == sender {
        var p := s.rows[i].peer;
        OfPeerMembers(s.rows, p);
        assert p == sender || NoChange(OfPeer(s.rows, p), ByMid(mid), c);
      }
    } else {
      var p :| !(if p == sender then OneChange(Get(s.cache, p), ByMid(mid), c)
                 else NoChange(Get(s.cache, p), ByMid(mid), c));
      OfPeerMembers(s.rows, p);
      var ms := OfPeer(s.rows, p);
      assert p != sender;
      var k :| 0 <= k < |ms| && ms[k].mid == mid && ChangeMessage(ms[k], c) != ms[k];
      assert ms[k] in ms;
      var i :| 0 <= i < |s.rows| && s.rows[i].peer == p && Decrypt(s.rows[i]) == ms[k];
    }
  }

  /** The mid is of the sender's own conversation, if it is known at all. */
  predicate OwnMid(rows: seq<Row>, sender: string, mid: string)
  {
    forall i :: 0 <= i < |rows| && rows[i].mid == mid ==> rows[i].peer == sender
  }

  const NEW := State([], map[], 1)

  lemma ApplyTwo(s: State, a: Op, b: Op)
    ensures ApplyAll(s, [a, b]) == Apply(Apply(s, a), b)
  {
    assert [a, b][1..] == [b] && [b][1..] == [];
    assert ApplyAll(Apply(s, a), [b]) == Apply(Apply(s, a), b);
  }

  /** The target of a remote edit is part of the encrypted content, so one peer can name another's mid. */
  lemma ForeignEditSplitsCopies(owner: string, other: string, mid: string, time: int, text: string, edit: string,
                                rest: string)
    requires owner != other
    ensures !Agree(ApplyAll(NEW, [Add(owner, mid, time, text, rest), Remote(other, mid, Edit(edit))]))
  {
    var ops := [Add(owner, mid, time, text, rest), Remote(other, mid, Edit(edit))];
    var s := Apply(NEW, ops[0]);
    AddAgrees(NEW, ops[0]);
    ApplyTwo(NEW, ops[0], ops[1]);
    RemoteByOwnerExactly(s, other, mid, Edit(edit));
    assert s.rows[0].mid == mid && Shows(s.rows[0], Edit(edit));
  }

  /** A mid stored twice in one conversation: SQL edits both rows, memory the first. */
  lemma DuplicateMidSplitsCopies(peer: string, mid: string, time: int, text: string, edit: string, rest: string)
    ensures var add := Add(peer, mid, time, text, rest);
            !Agree(ApplyAll(NEW, [add, add, Remote(peer, mid, Edit(edit))]))
  {
    var add := Add(peer, mid, time, text, rest);
    var ops := [add, add, Remote(peer, mid, Edit(edit))];
    var s1 := Apply(NEW, add);
    var s := Apply(s1, add);
    AddAgrees(NEW, add);
    AddAgrees(s1, add);
    assert ops[1..] == [ops[1], ops[2]];
    ApplyTwo(s1, ops[1], ops[2]);
    RemoteChangeExactly(s, peer, mid, Edit(edit));
    var ms := Get(s.cache, peer);
    assert |ms| == 2 && ChangeMessage(ms[1], Edit(edit)) != ms[1];
    assert !OneChange(ms, ByMid(mid), Edit(edit));
  }

  predicate IdsAscend(ms: seq<Message>) { forall i, j :: 0 <= i < j < |ms| ==> ms[i].id < ms[j].id }
  predicate IdsFrom(ms: seq<Message>, id: nat) { forall i :: 0 <= i < |ms| ==> id <= ms[i].id }

  lemma IdsCons(r: Row, peer: string, tail: seq<Message>)
    requires IdsAscend(tail) && IdsFrom(tail, r.id + 1)
    ensures IdsAscend(Shown(r, peer) + tail) && IdsFrom(Shown(r, peer) + tail, r.id)
  {
  }

  lemma {:induction false} OfPeerIds(rows: seq<Row>, peer: string)
    requires forall i, j :: 0 <= i < j < |rows| ==> rows[i].id < rows[j].id
    ensures IdsAscend(OfPeer(rows, peer)) && (rows != [] ==> IdsFrom(OfPeer(rows, peer), rows[0].id))
  {
    if rows != [] {
      var rest := rows[1..];
      OfPeerIds(rest, peer);
      if rest != [] { assert rest[0] == rows[1] && rows[0].id < rows[1].id; }
      IdsCons(rows[0], peer, OfPeer(rest, peer));
    }
  }

  /** Row ids are unique, so a local change always keeps the copies equal. */
  lemma LocalChangeAgrees(s: State, id: nat, c: Change)
    requires Agree(s) && TableInv(s)
    ensures Agree(Apply(s, Local(id, c)))
  {
    var s' := Apply(s, Local(id, c));
    forall p ensures OfPeer(s'.rows, p) == Get(s'.cache, p) {
      UpdateRowsShows(s.rows, ById(id), c, p);
      OfPeerIds(s.rows, p);
      AllIsFirst(Get(s.cache, p), ById(id), c);
    }
  }

  lemma {:induction false} OfPeerSnoc(rows: seq<Row>, r: Row, peer: string)
    ensures OfPeer(rows + [r], peer) == OfPeer(rows, peer) + if r.peer == peer then [Decrypt(r)] else []
  {
    if rows == [] {
      assert rows + [r] == [r];
    } else {
      assert (rows + [r])[1..] == rows[1..] + [r];
      OfPeerSnoc(rows[1..], r, peer);
    }
  }

  lemma AddAgrees(s: State, op: Op)
    requires Agree(s) && op.Add?
    ensures Agree(Apply(s, op))
  {
    var s' := Apply(s, op);
    forall p ensures OfPeer(s'.rows, p) == Get(s'.cache, p) {
      OfPeerSnoc(s.rows, s'.rows[|s.rows|], p);
    }
  }
}
