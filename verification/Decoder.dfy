/**
  `ws_decode_frame`: which byte streams yield a message, exactly.

  The reference is a grammar of frame lists, printed by section 5.2 and
  ordered by section 5.4. The decoder never looks at the three RSV bits, so
  the grammar leaves them free although section 5.2 has a receiver refuse
  them; it also accepts lengths written longer than needed.
 */
module Decoder {
  import opened Words
  import opened Numbers
  import opened WebSocket

  datatype Reason =
    | EndOfStream | PayloadTooLarge | MaskedByServer | MalformedControl | Closed
    | DataDuringFragments | OrphanContinuation | MessageTooLarge | UnknownOpcode

  /** `pongs` are the payloads answered so far, in order, whether or not a message follows. */
  datatype Outcome =
    | Message(payload: Bytes, rest: Bytes, pongs: seq<Bytes>)
    | Failed(reason: Reason, pongs: seq<Bytes>)

  /** Everything one frame can be refused for before its opcode is acted on. */
  function Refusal(s: Bytes, h: Header): Option<Reason>
  {
    if h.len > MAX_PAYLOAD then Some(PayloadTooLarge)
    else if h.masked then Some(MaskedByServer)
    else if h.opcode >= 8 && (!h.fin || h.len > 125) then Some(MalformedControl)
    else if |s| < h.size + h.len then Some(EndOfStream)
    else None
  }

  function Decode(s: Bytes, message: Bytes, assembling: bool, pongs: seq<Bytes>): Outcome
    decreases |s|
  {
    match ReadHeader(s)
    case None => Failed(EndOfStream, pongs)
    case Some(h) =>
      if Refusal(s, h).Some? then Failed(Refusal(s, h).value, pongs) else
      var payload, rest := s[h.size..h.size + h.len], s[h.size + h.len..];
      if h.opcode == 8 then Failed(Closed, pongs)
      else if h.opcode == 9 then Decode(rest, message, assembling, pongs + [payload])
      else if h.opcode == 10 then Decode(rest, message, assembling, pongs)
      else if h.opcode == 1 || h.opcode == 2 then
        if assembling then Failed(DataDuringFragments, pongs)
        else if h.fin then Message(payload, rest, pongs)
        else Decode(rest, payload, true, pongs)
      else if h.opcode == 0 then
        if !assembling then Failed(OrphanContinuation, pongs)
        else if |message| + h.len > MAX_PAYLOAD then Failed(MessageTooLarge, pongs)
        else if h.fin then Message(message + payload, rest, pongs)
        else Decode(rest, message + payload, true, pongs)
      else Failed(UnknownOpcode, pongs)
  }

  method DecodeFrame(stream: Bytes) returns (o: Outcome)
    ensures o == Decode(stream, [], false, [])
  {
    var s := stream;
    var message: Bytes := [];
    var assembling := false;
    var pongs: seq<Bytes> := [];
    while true
      invariant Decode(s, message, assembling, pongs) == Decode(stream, [], false, [])
      decreases |s|
    {
      var header := ReadHeader(s);
      if header.None? { return Failed(EndOfStream, pongs); }
      var h := header.value;
      if h.len > MAX_PAYLOAD { return Failed(PayloadTooLarge, pongs); }
      if h.masked { return Failed(MaskedByServer, pongs); }
      if h.opcode >= 8 && (!h.fin || h.len > 125) { return Failed(MalformedControl, pongs); }
      if |s| < h.size + h.len { return Failed(EndOfStream, pongs); }
      var payload := s[h.size..h.size + h.len];
      s := s[h.size + h.len..];
      if h.opcode == 8 { return Failed(Closed, pongs); }
      if h.opcode == 9 { pongs := pongs + [payload]; continue; }
      if h.opcode == 10 { continue; }
      if h.opcode == 1 || h.opcode == 2 {
        if assembling { return Failed(DataDuringFragments, pongs); }
        if h.fin { return Message(payload, s, pongs); }
        message := payload;
        assembling := true;
      } else if h.opcode == 0 {
        if !assembling { return Failed(OrphanContinuation, pongs); }
        if |message| + |payload| > MAX_PAYLOAD { return Failed(MessageTooLarge, pongs); }
        message := message + payload;
        if h.fin { return Message(message, s, pongs); }
      } else {
        return Failed(UnknownOpcode, pongs);
      }
    }
  }

  // ----- the grammar

  datatype Frame = Frame(fin: bool, rsv: nat, opcode: nat, form: Form, payload: Bytes)

  predicate Printable(f: Frame)
  {
    f.rsv < 8 && f.opcode < 16 && Fits(f.form, |f.payload|)
  }

  function FirstByte(f: Frame): byte
    requires Printable(f)
  {
    (if f.fin then 128 else 0) + 16 * f.rsv + f.opcode
  }

  function Print(f: Frame): Bytes
    requires Printable(f)
  {
    [FirstByte(f)] + LengthBytes(false, f.form, |f.payload|) + f.payload
  }

  function PrintAll(frames: seq<Frame>): Bytes
    requires forall i :: 0 <= i < |frames| ==> Printable(frames[i])
  {
    if frames == [] then [] else Print(frames[0]) + PrintAll(frames[1..])
  }

  predicate IsControl(f: Frame) { f.opcode == 9 || f.opcode == 10 }

  /**
    One whole message: a text or binary frame, then continuations up to the one
    with FIN, with pings and pongs of at most 125 bytes anywhere before the end,
    and never more than the limit in all. `have` is `None` before the first data
    frame and the bytes gathered so far after it.
   */
  predicate Complete(frames: seq<Frame>, have: Option<nat>)
    decreases |frames|
  {
    frames != [] &&
    var f := frames[0];
    Printable(f) &&
    if IsControl(f) then f.fin && |f.payload| <= 125 && Complete(frames[1..], have)
    else
      var total := (if have.Some? then have.value else 0) + |f.payload|;
      && (if have.None? then f.opcode == 1 || f.opcode == 2 else f.opcode == 0)
      && total <= MAX_PAYLOAD
      && (if f.fin then |frames| == 1 else Complete(frames[1..], Some(total)))
  }

  function Body(frames: seq<Frame>): Bytes
  {
    if frames == [] then [] else (if IsControl(frames[0]) then [] else frames[0].payload) + Body(frames[1..])
  }

  function Pings(frames: seq<Frame>): seq<Bytes>
  {
    if frames == [] then [] else (if frames[0].opcode == 9 then [frames[0].payload] else []) + Pings(frames[1..])
  }

  lemma {:induction false} CompleteIsPrintable(frames: seq<Frame>, have: Option<nat>)
    requires Complete(frames, have)
    ensures forall i :: 0 <= i < |frames| ==> Printable(frames[i])
    ensures |Body(frames)| + (if have.Some? then have.value else 0) <= MAX_PAYLOAD
    decreases |frames|
  {
    var f := frames[0];
    if |frames| > 1 {
      var total := (if have.Some? then have.value else 0) + |f.payload|;
      CompleteIsPrintable(frames[1..], if IsControl(f) then have else Some(total));
    } else {
      assert frames == [f] && frames[1..] == [];
    }
  }

  // ----- every legal stream is decoded

  lemma ReadPrinted(f: Frame, rest: Bytes)
    requires Printable(f)
    ensures var s := Print(f) + rest; var n := |f.payload|; var size := 1 + |LengthBytes(false, f.form, n)|;
            && ReadHeader(s) == Some(Header(f.fin, f.rsv, f.opcode, false, f.form, n, size))
            && size + n <= |s| && s[size..size + n] == f.payload && s[size + n..] == rest
  {
    hide LengthBytes, Fits, ReadHeader;
    var s, lb := Print(f) + rest, LengthBytes(false, f.form, |f.payload|);
    assert s == [FirstByte(f)] + lb + (f.payload + rest);
    ReadPrintedHeader(FirstByte(f), false, f.form, |f.payload|, f.payload + rest);
    var size := 1 + |lb|;
    assert s[size..size + |f.payload|] == f.payload && s[size + |f.payload|..] == rest;
  }

  /** One turn of the loop on a legal frame. */
  lemma DecodesOne(f: Frame, rest: Bytes, have: Option<nat>, message: Bytes, pongs: seq<Bytes>)
    requires Printable(f) && (if have.Some? then |message| == have.value else message == [])
    requires if IsControl(f) then f.fin && |f.payload| <= 125
             else (if have.None? then f.opcode == 1 || f.opcode == 2 else f.opcode == 0)
                  && |message| + |f.payload| <= MAX_PAYLOAD
    ensures Decode(Print(f) + rest, message, have.Some?, pongs) ==
            if f.opcode == 9 then Decode(rest, message, have.Some?, pongs + [f.payload])
            else if f.opcode == 10 then Decode(rest, message, have.Some?, pongs)
            else if f.fin then Message(message + f.payload, rest, pongs)
            else Decode(rest, message + f.payload, true, pongs)
  {
    hide Print, LengthBytes, Fits, ReadHeader;
    ReadPrinted(f, rest);
    if have.None? { assert message + f.payload == f.payload; }
  }

  lemma UnfoldFrames(frames: seq<Frame>)
    requires frames != [] && forall i :: 0 <= i < |frames| ==> Printable(frames[i])
    ensures forall i :: 0 <= i < |frames[1..]| ==> Printable(frames[1..][i])
    ensures PrintAll(frames) == Print(frames[0]) + PrintAll(frames[1..])
    ensures Body(frames) == (if IsControl(frames[0]) then [] else frames[0].payload) + Body(frames[1..])
    ensures Pings(frames) == (if frames[0].opcode == 9 then [frames[0].payload] else []) + Pings(frames[1..])
    ensures |frames| == 1 ==> PrintAll(frames[1..]) == [] && Body(frames[1..]) == [] && Pings(frames[1..]) == []
  {
  }

  /** The decoder returns the gathered bytes, answers each ping in order, and stops exactly at the end. */
  lemma {:induction false} DecodesPrinted(frames: seq<Frame>, have: Option<nat>, message: Bytes,
                                          pongs: seq<Bytes>, rest: Bytes)
    requires Complete(frames, have)
    requires if have.Some? then |message| == have.value else message == []
    ensures (forall i :: 0 <= i < |frames| ==> Printable(frames[i]))
            && Decode(PrintAll(frames) + rest, message, have.Some?, pongs)
               == Message(message + Body(frames), rest, pongs + Pings(frames))
    decreases |frames|
  {
    hide Print, Decode, Printable, PrintAll, Body, Pings;
    CompleteIsPrintable(frames, have);
    UnfoldFrames(frames);
    var f, more := frames[0], frames[1..];
    assert PrintAll(frames) + rest == Print(f) + (PrintAll(more) + rest);
    DecodesOne(f, PrintAll(more) + rest, have, message, pongs);
    if IsControl(f) {
      var pongs' := if f.opcode == 9 then pongs + [f.payload] else pongs;
      DecodesPrinted(more, have, message, pongs', rest);
      assert pongs' + Pings(more) == pongs + Pings(frames);
      assert message + Body(more) == message + Body(frames);
    } else if f.fin {
      assert PrintAll(more) + rest == rest;
      assert message + Body(frames) == message + f.payload && pongs + Pings(frames) == pongs;
    } else {
      DecodesPrinted(more, Some(|message| + |f.payload|), message + f.payload, pongs, rest);
      assert message + f.payload + Body(more) == message + Body(frames);
      assert pongs + Pings(more) == pongs + Pings(frames);
    }
  }

  // ----- and nothing else is

  lemma FirstByteParts(b: byte)
    ensures b == (if b >= 128 then 128 else 0) + 16 * (b / 16 % 8) + b % 16
  {
  }

  lemma ThreeParts(s: Bytes, i: nat, j: nat)
    requires i <= j <= |s|
    ensures s == s[..i] + s[i..j] + s[j..]
  {
  }

  /** The header bytes are the ones a printer would have written. */
  lemma HeaderBytesWerePrinted(s: Bytes)
    requires ReadHeader(s).Some? && !ReadHeader(s).value.masked
    ensures var h := ReadHeader(s).value;
            Fits(h.form, h.len)
            && s[..h.size] == [(if h.fin then 128 else 0) + 16 * h.rsv + h.opcode] + LengthBytes(false, h.form, h.len)
  {
    hide BigEndian, FromBigEndian, Pow256;
    var h := ReadHeader(s).value;
    FirstByteParts(s[0]);
    Pow256Values();
    match h.form
    case Short => assert s[..2] == [s[0], s[1]];
    case Medium =>
      FromBigEndianRoundTrip(s[2..4]);
      assert s[..4] == [s[0], s[1]] + s[2..4];
    case Long =>
      FromBigEndianRoundTrip(s[2..10]);
      assert s[..10] == [s[0], s[1]] + s[2..10];
  }

  /** Any frame the decoder reads is the print of the frame it makes of it. */
  lemma HeaderWasPrinted(s: Bytes)
    requires ReadHeader(s).Some? && !ReadHeader(s).value.masked
    requires ReadHeader(s).value.size + ReadHeader(s).value.len <= |s|
    ensures var h := ReadHeader(s).value;
            var f := Frame(h.fin, h.rsv, h.opcode, h.form, s[h.size..h.size + h.len]);
            Printable(f) && s == Print(f) + s[h.size + h.len..]
  {
    hide ReadHeader, LengthBytes, Fits;
    var h := ReadHeader(s).value;
    HeaderBytesWerePrinted(s);
    ThreeParts(s, h.size, h.size + h.len);
  }

  ghost predicate Explains(frames: seq<Frame>, have: Option<nat>, s: Bytes, message: Bytes,
                           pongs: seq<Bytes>, o: Outcome)
    requires o.Message?
  {
    && Complete(frames, have)
    && (forall i :: 0 <= i < |frames| ==> Printable(frames[i]))
    && s == PrintAll(frames) + o.rest && o.payload == message + Body(frames) && o.pongs == pongs + Pings(frames)
  }

  lemma ExplainsCons(f: Frame, frames: seq<Frame>, have: Option<nat>, have': Option<nat>, s: Bytes, s': Bytes,
                     message: Bytes, message': Bytes, pongs: seq<Bytes>, pongs': seq<Bytes>, o: Outcome)
    requires o.Message? && Explains(frames, have', s', message', pongs', o)
    requires Printable(f) && s == Print(f) + s'
    requires if IsControl(f)
             then f.fin && |f.payload| <= 125 && have' == have && message' == message
                  && pongs' == (if f.opcode == 9 then pongs + [f.payload] else pongs)
             else !f.fin && (if have.None? then f.opcode == 1 || f.opcode == 2 else f.opcode == 0)
                  && message' == message + f.payload && pongs' == pongs && f.opcode != 9
                  && have' == Some((if have.Some? then have.value else 0) + |f.payload|) && have'.value <= MAX_PAYLOAD
    ensures Explains([f] + frames, have, s, message, pongs, o)
  {
    hide Print, PrintAll, Body, Pings;
    var all := [f] + frames;
    assert all[0] == f && all[1..] == frames;
    UnfoldFrames(all);
    assert PrintAll(all) + o.rest == Print(f) + (PrintAll(frames) + o.rest);
    assert message + Body(all) == message' + Body(frames);
    assert pongs + Pings(all) == pongs' + Pings(frames);
  }

  lemma ExplainsLast(f: Frame, have: Option<nat>, s: Bytes, message: Bytes, pongs: seq<Bytes>, o: Outcome)
    requires o.Message? && Printable(f) && s == Print(f) + o.rest && f.fin && !IsControl(f)
    requires if have.None? then f.opcode == 1 || f.opcode == 2 else f.opcode == 0
    requires (if have.Some? then have.value else 0) + |f.payload| <= MAX_PAYLOAD
    requires o.payload == message + f.payload && o.pongs == pongs
    ensures Explains([f], have, s, message, pongs, o)
  {
    hide Print;
    var all := [f];
    UnfoldFrames(all);
    assert all[1..] == [];
    assert Print(f) + [] == Print(f) && f.payload + [] == f.payload;
    assert pongs + Pings(all) == pongs;
  }

  lemma {:induction false} DecodedWasPrinted(s: Bytes, have: Option<nat>, message: Bytes, pongs: seq<Bytes>)
    returns (frames: seq<Frame>)
    requires if have.Some? then |message| == have.value else message == []
    requires Decode(s, message, have.Some?, pongs).Message?
    ensures Explains(frames, have, s, message, pongs, Decode(s, message, have.Some?, pongs))
    decreases |s|
  {
    hide Explains, Print, LengthBytes, Fits, Complete, ReadHeader;
    var o := Decode(s, message, have.Some?, pongs);
    var h := ReadHeader(s).value;
    var payload, rest := s[h.size..h.size + h.len], s[h.size + h.len..];
    var f := Frame(h.fin, h.rsv, h.opcode, h.form, payload);
    HeaderWasPrinted(s);
    assert message + payload == if have.None? then payload else message + payload;
    if IsControl(f) {
      var pongs' := if f.opcode == 9 then pongs + [payload] else pongs;
      var more := DecodedWasPrinted(rest, have, message, pongs');
      ExplainsCons(f, more, have, have, s, rest, message, message, pongs, pongs', o);
      frames := [f] + more;
    } else if f.fin {
      ExplainsLast(f, have, s, message, pongs, o);
      frames := [f];
    } else {
      var have' := Some(|message| + h.len);
      var more := DecodedWasPrinted(rest, have', message + payload, pongs);
      ExplainsCons(f, more, have, have', s, rest, message, message + payload, pongs, pongs, o);
      frames := [f] + more;
    }
  }

  /**
    Exactly: over every byte stream, the decoder returns a message if and only
    if the stream starts with a complete frame list carrying that message, and
    then it has consumed those frames and ponged those pings, no more.
   */
  lemma DecodesExactly(s: Bytes, payload: Bytes, rest: Bytes, pongs: seq<Bytes>)
    ensures Decode(s, [], false, []) == Message(payload, rest, pongs) <==>
            exists frames :: Explains(frames, None, s, [], [], Message(payload, rest, pongs))
  {
    var o := Message(payload, rest, pongs);
    if Decode(s, [], false, []) == o {
      var frames := DecodedWasPrinted(s, None, [], []);
    }
    if frames :| Explains(frames, None, s, [], [], o) {
      DecodesPrinted(frames, None, [], [], rest);
      assert [] + Body(frames) == payload && [] + Pings(frames) == pongs;
    }
  }

  /** Whatever the server sends, no message handed to the client exceeds the limit. */
  lemma MessagesAreBounded(s: Bytes)
    requires Decode(s, [], false, []).Message?
    ensures |Decode(s, [], false, []).payload| <= MAX_PAYLOAD
  {
    var frames := DecodedWasPrinted(s, None, [], []);
    CompleteIsPrintable(frames, None);
  }
}
