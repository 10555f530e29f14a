/**
  The client's hand-written WebSocket framing (RFC 6455, sections 5.1 to 5.5):
  `ws_encode_frame` for masked client frames, and `ws_decode_frame`, which
  reassembles one message from a server byte stream and answers pings.
 */
module WebSocket {
  import opened Words
  import opened Numbers

  const MAX_PAYLOAD := 16384
  const TWO_64 := 0x1_0000_0000_0000_0000

  // ----- shifted lengths

  /** `n >> (8 * i)` */
  function ShiftRight(n: nat, i: nat): nat
  {
    if i == 0 then n else ShiftRight(n / 256, i - 1)
  }

  lemma {:induction false} ShiftOneMore(n: nat, i: nat)
    ensures ShiftRight(n, i + 1) == ShiftRight(n, i) / 256
    decreases i
  {
    if i > 0 { ShiftOneMore(n / 256, i - 1); }
  }

  lemma Pow256Values()
    ensures Pow256(2) == 0x1_0000 && Pow256(8) == TWO_64
  {
    assert Pow256(4) == 0x1_0000_0000;
    assert Pow256(6) == 0x1_0000_0000_0000;
  }

  // ----- payload lengths

  /** The three ways section 5.2 writes a length; a receiver reads all of them, whatever the length. */
  datatype Form = Short | Medium | Long

  predicate Fits(form: Form, n: nat)
  {
    match form
    case Short => n < 126
    case Medium => n < 0x1_0000
    case Long => n < TWO_64
  }

  /** The least form that fits, which section 5.2 demands of a sender. */
  function Minimal(n: nat): Form { if n < 126 then Short else if n < 0x1_0000 then Medium else Long }

  function LengthBytes(mask: bool, form: Form, n: nat): (b: Bytes)
    requires Fits(form, n)
    ensures |b| == (match form case Short => 1 case Medium => 3 case Long => 9)
  {
    var bit := if mask then 128 else 0;
    match form
    case Short => [bit + n]
    case Medium => [bit + 126] + BigEndian(n, 2)
    case Long => [bit + 127] + BigEndian(n, 8)
  }

  /** No other form that fits writes the length in fewer bytes. */
  lemma MinimalIsLeast(mask: bool, form: Form, n: nat)
    requires Fits(form, n)
    ensures Fits(Minimal(n), n) && |LengthBytes(mask, Minimal(n), n)| <= |LengthBytes(mask, form, n)|
  {
  }

  // ----- masking, section 5.3

  function Pow2(k: nat): (p: nat)
    ensures p >= 1
  {
    if k == 0 then 1 else 2 * Pow2(k - 1)
  }

  /** Bitwise exclusive or of the low `k` bits. */
  function XorBits(a: nat, b: nat, k: nat): (r: nat)
    ensures r < Pow2(k)
  {
    if k == 0 then 0 else 2 * XorBits(a / 2, b / 2, k - 1) + (a + b) % 2
  }

  lemma XorHead(a: nat, b: nat, k: nat)
    requires k > 0
    ensures XorBits(a, b, k) / 2 == XorBits(a / 2, b / 2, k - 1) && XorBits(a, b, k) % 2 == (a + b) % 2
  {
  }

  lemma ParityTwice(a: nat, b: nat, x: nat)
    requires x % 2 == (a + b) % 2
    ensures (x + b) % 2 == a % 2
  {
  }

  lemma {:induction false} XorTwice(a: nat, b: nat, k: nat)
    requires a < Pow2(k)
    ensures XorBits(XorBits(a, b, k), b, k) == a
  {
    hide XorBits;
    if k == 0 {
      XorNothing(XorBits(a, b, k), b);
    } else {
      var x := XorBits(a, b, k);
      XorHead(a, b, k);
      XorHead(x, b, k);
      XorTwice(a / 2, b / 2, k - 1);
      ParityTwice(a, b, x);
    }
  }

  lemma XorNothing(a: nat, b: nat)
    ensures XorBits(a, b, 0) == 0
  {
  }

  function Xor(a: byte, b: byte): byte
  {
    assert Pow2(8) == 256 by { assert Pow2(4) == 16; }
    XorBits(a, b, 8)
  }

  type MaskKey = m: Bytes | |m| == 4 witness [0, 0, 0, 0]

  function Masked(payload: Bytes, mask: MaskKey): (r: Bytes)
    ensures |r| == |payload|
  {
    seq(|payload|, i requires 0 <= i < |payload| => Xor(payload[i], mask[i % 4]))
  }

  lemma MaskedTwice(payload: Bytes, mask: MaskKey)
    ensures Masked(Masked(payload, mask), mask) == payload
  {
    forall i | 0 <= i < |payload| ensures Masked(Masked(payload, mask), mask)[i] == payload[i] {
      assert Pow2(8) == 256 by { assert Pow2(4) == 16; }
      XorTwice(payload[i], mask[i % 4], 8);
    }
  }

  // ----- the same bit by bit

  function Bit(a: nat, k: nat): nat { a / Pow2(k) % 2 }

  lemma Steps(p: int, q: int, d: nat)
    ensures p < q ==> p * d + d <= q * d
  {
    if p < q { Scaled(p, q, d); }
  }

  lemma DivUnique(a: nat, d: nat, q: nat, r: nat)
    requires a == q * d + r && r < d
    ensures a / d == q
  {
    var p := a / d;
    assert a == p * d + a % d;
    Steps(p, q, d);
    Steps(q, p, d);
  }

  lemma DivTwice(a: nat, p: nat)
    requires p > 0
    ensures a / (2 * p) == a / 2 / p
  {
    var h := a / 2;
    var q, r := h / p, h % p;
    assert h == q * p + r;
    assert a == q * (2 * p) + (2 * r + a % 2);
    DivUnique(a, 2 * p, q, 2 * r + a % 2);
  }

  lemma LowestBit(a: nat)
    ensures Bit(a, 0) == a % 2
  {
  }

  lemma HigherBit(a: nat, k: nat)
    requires k > 0
    ensures Bit(a, k) == Bit(a / 2, k - 1)
  {
    DivTwice(a, Pow2(k - 1));
  }

  lemma OddSum(x: nat, y: nat)
    ensures (x + y) % 2 == 1 <==> x % 2 != y % 2
  {
  }

  lemma {:induction false} XorBit(a: nat, b: nat, n: nat, k: nat)
    requires k < n
    ensures Bit(XorBits(a, b, n), k) == 1 <==> Bit(a, k) != Bit(b, k)
    decreases k
  {
    hide XorBits, Bit;
    var x := XorBits(a, b, n);
    XorHead(a, b, n);
    if k == 0 {
      LowestBit(x);
      LowestBit(a);
      LowestBit(b);
      OddSum(a, b);
    } else {
      HigherBit(x, k);
      HigherBit(a, k);
      HigherBit(b, k);
      XorBit(a / 2, b / 2, n - 1, k - 1);
    }
  }

  /** Every bit of byte `i` is flipped exactly where key byte `i % 4` has a one. */
  lemma MaskedBits(payload: Bytes, mask: MaskKey, i: nat, k: nat)
    requires i < |payload| && k < 8
    ensures Bit(Masked(payload, mask)[i], k) == 1 <==> Bit(payload[i], k) != Bit(mask[i % 4], k)
  {
    hide XorBits, Bit;
    XorBit(payload[i], mask[i % 4], 8, k);
  }

  /** A receiver's own unmasking: the bits in which data and key differ, from the lowest up. */
  function Differing(a: nat, b: nat, k: nat): (r: nat)
    ensures r < Pow2(k)
  {
    if k == 0 then 0
    else Differing(a, b, k - 1) + (if Bit(a, k - 1) != Bit(b, k - 1) then Pow2(k - 1) else 0)
  }

  lemma XorUnfolds(a: nat, b: nat, k: nat)
    requires k > 0
    ensures XorBits(a, b, k) == 2 * XorBits(a / 2, b / 2, k - 1) + XorBits(a, b, 1) && Pow2(k) == 2 * Pow2(k - 1)
  {
    XorOne(a, b);
  }

  lemma XorOne(a: nat, b: nat)
    ensures XorBits(a, b, 1) == (if Bit(a, 0) != Bit(b, 0) then 1 else 0)
  {
    LowestBit(a);
    LowestBit(b);
    OddSum(a, b);
    XorNothing(a / 2, b / 2);
  }

  /** The low `k` bits and the next one. */
  lemma {:induction false} XorTop(a: nat, b: nat, k: nat)
    ensures XorBits(a, b, k + 1) == XorBits(a, b, k) + (if Bit(a, k) != Bit(b, k) then Pow2(k) else 0)
    decreases k
  {
    assert Pow2(0) == 1;
    hide XorBits, Bit, Pow2;
    if k == 0 {
      XorNothing(a, b);
      XorOne(a, b);
    } else {
      XorUnfolds(a, b, k + 1);
      XorUnfolds(a, b, k);
      XorTop(a / 2, b / 2, k - 1);
      HigherBit(a, k);
      HigherBit(b, k);
    }
  }

  lemma {:induction false} DifferingIsXor(a: nat, b: nat, k: nat)
    ensures Differing(a, b, k) == XorBits(a, b, k)
    decreases k
  {
    hide XorBits;
    if k == 0 {
      XorNothing(a, b);
    } else {
      DifferingIsXor(a, b, k - 1);
      XorTop(a, b, k - 1);
    }
  }

  function Unmask(a: byte, b: byte): byte
  {
    assert Pow2(8) == 256 by { assert Pow2(4) == 16; }
    Differing(a, b, 8)
  }

  function Unmasked(data: Bytes, key: MaskKey): (r: Bytes)
    ensures |r| == |data|
  {
    seq(|data|, i requires 0 <= i < |data| => Unmask(data[i], key[i % 4]))
  }

  lemma UnmaskedMasked(payload: Bytes, mask: MaskKey)
    ensures Unmasked(Masked(payload, mask), mask) == payload
  {
    var data := Masked(payload, mask);
    forall i | 0 <= i < |payload| ensures Unmasked(data, mask)[i] == payload[i] {
      DifferingIsXor(data[i], mask[i % 4], 8);
      assert Unmasked(data, mask)[i] == Masked(data, mask)[i];
      MaskedTwice(payload, mask);
    }
  }

  // ----- the encoder

  function ClientFrame(opcode: byte, payload: Bytes, mask: MaskKey): Bytes
    requires |payload| < TWO_64
  {
    [128 + opcode % 16] + LengthBytes(true, Minimal(|payload|), |payload|) + mask + Masked(payload, mask)
  }

  /** The eight-byte form: most significant byte first. */
  method EncodeLong(len: nat) returns (b: Bytes)
    ensures b == BigEndian(len, 8)
  {
    b := [];
    for i := 8 downto 0
      invariant b == BigEndian(ShiftRight(len, i), 8 - i)
    {
      ShiftOneMore(len, i);
      b := b + [ShiftRight(len, i) % 256];
    }
  }

  method EncodeLength(len: nat) returns (b: Bytes)
    requires len < TWO_64
    ensures b == LengthBytes(true, Minimal(len), len)
  {
    if len < 126 {
      b := [128 + len];
    } else if len < 65536 {
      b := [128 + 126, len / 256, len % 256];
      assert BigEndian(len / 256, 1) == [len / 256];
      assert BigEndian(len, 2) == [len / 256, len % 256];
    } else {
      b := EncodeLong(len);
      b := [128 + 127] + b;
    }
  }

  /** A std::string is never longer than a 64-bit size. */
  method EncodeFrame(opcode: byte, payload: Bytes, mask: MaskKey) returns (frame: Bytes)
    requires |payload| < TWO_64
    ensures frame == ClientFrame(opcode, payload, mask)
    ensures |frame| >= |payload|
    ensures forall i, k :: 0 <= i < |payload| && 0 <= k < 8 ==>
              (Bit(frame[|frame| - |payload| + i], k) == 1 <==> Bit(payload[i], k) != Bit(mask[i % 4], k))
  {
    frame := [128 + opcode % 16];
    var length := EncodeLength(|payload|);
    frame := frame + length + mask;
    ghost var head, all := frame, Masked(payload, mask);
    for i := 0 to |payload|
      invariant frame == head + all[..i]
    {
      frame := frame + [Xor(payload[i], mask[i % 4])];
      assert all[..i + 1] == all[..i] + [all[i]];
    }
    assert all[..|payload|] == all;
    forall i, k | 0 <= i < |payload| && 0 <= k < 8
      ensures Bit(frame[|frame| - |payload| + i], k) == 1 <==> Bit(payload[i], k) != Bit(mask[i % 4], k)
    {
      MaskedBits(payload, mask, i, k);
    }
  }

  // ----- a receiver written from section 5.2

  datatype Header = Header(fin: bool, rsv: nat, opcode: nat, masked: bool, form: Form, len: nat, size: nat)

  /** The first two bytes and the extended length; `size` is how many bytes that took. */
  function ReadHeader(s: Bytes): (r: Option<Header>)
    ensures r.Some? ==> r.value.size <= |s| && r.value.size >= 2 && r.value.opcode < 16 && r.value.rsv < 8
  {
    if |s| < 2 then None
    else
      var fin, rsv, opcode := s[0] >= 128, s[0] / 16 % 8, s[0] % 16;
      var masked, n := s[1] >= 128, s[1] % 128;
      if n < 126 then Some(Header(fin, rsv, opcode, masked, Short, n, 2))
      else if n == 126 then
        if |s| < 4 then None else Some(Header(fin, rsv, opcode, masked, Medium, FromBigEndian(s[2..4]), 4))
      else
        if |s| < 10 then None else Some(Header(fin, rsv, opcode, masked, Long, FromBigEndian(s[2..10]), 10))
  }

  datatype Received = Received(fin: bool, rsv: nat, opcode: nat, form: Form, payload: Bytes, rest: Bytes)

  /** The server's side: read one masked frame and unmask it. */
  function Receive(s: Bytes): Option<Received>
  {
    match ReadHeader(s)
    case None => None
    case Some(h) =>
      if !h.masked || |s| < h.size + 4 + h.len then None
      else
        var mask: MaskKey := s[h.size..h.size + 4];
        var data := s[h.size + 4..h.size + 4 + h.len];
        Some(Received(h.fin, h.rsv, h.opcode, h.form, Unmasked(data, mask), s[h.size + 4 + h.len..]))
  }

  /** Printing a header and reading it back, whatever follows. */
  lemma ReadPrintedHeader(first: byte, mask: bool, form: Form, n: nat, rest: Bytes)
    requires Fits(form, n)
    ensures var s := [first] + LengthBytes(mask, form, n) + rest;
            ReadHeader(s) == Some(Header(first >= 128, first / 16 % 8, first % 16, mask, form, n,
                                         1 + |LengthBytes(mask, form, n)|))
  {
    hide BigEndian, FromBigEndian, Pow256;
    var s := [first] + LengthBytes(mask, form, n) + rest;
    Pow256Values();
    match form
    case Short =>
    case Medium =>
      BigEndianRoundTrip(n, 2);
      assert s[2..4] == BigEndian(n, 2);
    case Long =>
      BigEndianRoundTrip(n, 8);
      assert s[2..10] == BigEndian(n, 8);
  }

  /** Round trip: the server recovers opcode and payload, in the minimal form, and is left exactly at the next frame. */
  lemma EncodedFrameIsReceived(opcode: byte, payload: Bytes, mask: MaskKey, rest: Bytes)
    requires |payload| < TWO_64
    ensures Receive(ClientFrame(opcode, payload, mask) + rest)
            == Some(Received(true, 0, opcode % 16, Minimal(|payload|), payload, rest))
  {
    var n, form := |payload|, Minimal(|payload|);
    var first: byte := 128 + opcode % 16;
    var lb := LengthBytes(true, form, n);
    var data := Masked(payload, mask);
    var s := ClientFrame(opcode, payload, mask) + rest;
    assert s == [first] + lb + (mask + data + rest);
    ReadPrintedHeader(first, true, form, n, mask + data + rest);
    var k := 1 + |lb|;
    assert s[k..k + 4] == mask && s[k + 4..k + 4 + n] == data && s[k + 4 + n..] == rest;
    UnmaskedMasked(payload, mask);
  }

  datatype Outgoing = Outgoing(opcode: byte, payload: Bytes, mask: MaskKey)

  function WireBytes(frames: seq<Outgoing>): Bytes
    requires forall i :: 0 <= i < |frames| ==> |frames[i].payload| < TWO_64
  {
    if frames == [] then []
    else ClientFrame(frames[0].opcode, frames[0].payload, frames[0].mask) + WireBytes(frames[1..])
  }

  function Sent(frames: seq<Outgoing>): seq<(nat, Bytes)>
  {
    seq(|frames|, i requires 0 <= i < |frames| => (frames[i].opcode % 16, frames[i].payload))
  }

  function ReceiveAll(s: Bytes, count: nat): Option<seq<(nat, Bytes)>>
    decreases count
  {
    if count == 0 then if s == [] then Some([]) else None
    else
      match Receive(s)
      case None => None
      case Some(r) =>
        match ReceiveAll(r.rest, count - 1)
        case None => None
        case Some(more) => Some([(r.opcode, r.payload)] + more)
  }

  /** Frames written back to back split again at the same places. */
  lemma {:induction false} FramesSplitBack(frames: seq<Outgoing>)
    requires forall i :: 0 <= i < |frames| ==> |frames[i].payload| < TWO_64
    ensures ReceiveAll(WireBytes(frames), |frames|) == Some(Sent(frames))
  {
    hide ClientFrame, Receive;
    if frames != [] {
      FramesSplitBack(frames[1..]);
      EncodedFrameIsReceived(frames[0].opcode, frames[0].payload, frames[0].mask, WireBytes(frames[1..]));
      assert Sent(frames) == [(frames[0].opcode % 16, frames[0].payload)] + Sent(frames[1..]);
    }
  }
}
