/**
  The streams `ws_decode_frame` gives up on: which reason it gives, and what
  it has answered by then. With the streams it decodes, this is every stream.
 */
module Refusals {
  import opened Words
  import opened WebSocket
  import opened Decoder

  /** Legal frames that leave the message unfinished; `have` bytes before them, `have'` after. */
  predicate Unfinished(frames: seq<Frame>, have: Option<nat>, have': Option<nat>)
    decreases |frames|
  {
    if frames == [] then have' == have
    else
      var f := frames[0];
      Printable(f) &&
      if IsControl(f) then f.fin && |f.payload| <= 125 && Unfinished(frames[1..], have, have')
      else
        var total := (if have.Some? then have.value else 0) + |f.payload|;
        && (if have.None? then f.opcode == 1 || f.opcode == 2 else f.opcode == 0)
        && !f.fin && total <= MAX_PAYLOAD && Unfinished(frames[1..], Some(total), have')
  }

  lemma {:induction false} UnfinishedIsPrintable(frames: seq<Frame>, have: Option<nat>, have': Option<nat>)
    requires Unfinished(frames, have, have')
    ensures forall i :: 0 <= i < |frames| ==> Printable(frames[i])
    decreases |frames|
  {
    if frames != [] {
      var f := frames[0];
      var total := (if have.Some? then have.value else 0) + |f.payload|;
      UnfinishedIsPrintable(frames[1..], if IsControl(f) then have else Some(total), have');
    }
  }

  /** A header that sections 5.1 and 5.5 and the size limit let pass. */
  predicate Acceptable(h: Header)
  {
    h.len <= 16384 && !h.masked && (h.opcode < 8 || (h.fin && h.len <= 125))
  }

  /** The next frame is all there, and its header passes. */
  predicate Whole(s: Bytes)
  {
    ReadHeader(s).Some? && var h := ReadHeader(s).value; Acceptable(h) && h.size + h.len <= |s|
  }

  /** Why the stream cannot go on from here, with `have` bytes of a message gathered. */
  predicate FailsAt(s: Bytes, have: Option<nat>, reason: Reason)
  {
    if ReadHeader(s).None? then reason == EndOfStream
    else
      var h := ReadHeader(s).value;
      match reason
      case PayloadTooLarge => h.len > 16384
      case MaskedByServer => h.len <= 16384 && h.masked
      case MalformedControl => h.len <= 16384 && !h.masked && h.opcode >= 8 && !(h.fin && h.len <= 125)
      case EndOfStream => Acceptable(h) && |s| < h.size + h.len
      case Closed => Whole(s) && h.opcode == 8
      case DataDuringFragments => Whole(s) && (h.opcode == 1 || h.opcode == 2) && have.Some?
      case OrphanContinuation => Whole(s) && h.opcode == 0 && have.None?
      case MessageTooLarge => Whole(s) && h.opcode == 0 && have.Some? && have.value + h.len > 16384
      case UnknownOpcode => Whole(s) && (3 <= h.opcode <= 7 || 11 <= h.opcode)
  }

  lemma FailsHere(s: Bytes, have: Option<nat>, message: Bytes, pongs: seq<Bytes>, reason: Reason)
    requires if have.Some? then |message| == have.value else message == []
    requires FailsAt(s, have, reason)
    ensures Decode(s, message, have.Some?, pongs) == Failed(reason, pongs)
  {
    hide ReadHeader;
  }

  /** Legal unfinished frames are gathered and answered, and the decoder is left at what follows them. */
  lemma {:induction false} DecodesThrough(frames: seq<Frame>, have: Option<nat>, have': Option<nat>, message: Bytes,
                                          pongs: seq<Bytes>, rest: Bytes) returns (message': Bytes)
    requires Unfinished(frames, have, have')
    requires if have.Some? then |message| == have.value else message == []
    ensures if have'.Some? then |message'| == have'.value else message' == []
    ensures (forall i :: 0 <= i < |frames| ==> Printable(frames[i]))
            && Decode(PrintAll(frames) + rest, message, have.Some?, pongs)
               == Decode(rest, message', have'.Some?, pongs + Pings(frames))
    decreases |frames|
  {
    hide Print, Decode, Printable, PrintAll, Pings, IsControl;
    UnfinishedIsPrintable(frames, have, have');
    if frames == [] {
      NoFrames();
      assert PrintAll(frames) + rest == rest && pongs + Pings(frames) == pongs;
      message' := message;
    } else {
      UnfoldFrames(frames);
      var f, more := frames[0], frames[1..];
      assert PrintAll(frames) + rest == Print(f) + (PrintAll(more) + rest);
      ControlIs(f);
      DecodesOne(f, PrintAll(more) + rest, have, message, pongs);
      if IsControl(f) {
        var pongs' := if f.opcode == 9 then pongs + [f.payload] else pongs;
        message' := DecodesThrough(more, have, have', message, pongs', rest);
        assert pongs' + Pings(more) == pongs + Pings(frames);
      } else {
        message' := DecodesThrough(more, Some(|message| + |f.payload|), have', message + f.payload, pongs, rest);
        assert pongs + Pings(more) == pongs + Pings(frames);
      }
    }
  }

  lemma NoFrames()
    ensures PrintAll([]) == [] && Pings([]) == []
  {
  }

  lemma ControlIs(f: Frame)
    ensures IsControl(f) <==> f.opcode == 9 || f.opcode == 10
  {
  }

  lemma UnfinishedCons(f: Frame, frames: seq<Frame>, have: Option<nat>, mid: Option<nat>, have': Option<nat>)
    requires Unfinished(frames, mid, have') && Printable(f)
    requires if IsControl(f) then f.fin && |f.payload| <= 125 && mid == have
             else !f.fin && (if have.None? then f.opcode == 1 || f.opcode == 2 else f.opcode == 0)
                  && mid == Some((if have.Some? then have.value else 0) + |f.payload|) && mid.value <= MAX_PAYLOAD
    ensures Unfinished([f] + frames, have, have')
    ensures (forall i :: 0 <= i < |frames| ==> Printable(frames[i]))
            && PrintAll([f] + frames) == Print(f) + PrintAll(frames)
            && Pings([f] + frames) == (if f.opcode == 9 then [f.payload] else []) + Pings(frames)
  {
    UnfinishedIsPrintable(frames, mid, have');
    var all := [f] + frames;
    assert all[0] == f && all[1..] == frames;
    UnfoldFrames(all);
  }

  ghost predicate ExplainsFailure(frames: seq<Frame>, have: Option<nat>, have': Option<nat>, s: Bytes, tail: Bytes,
                                  pongs: seq<Bytes>, o: Outcome)
    requires o.Failed?
  {
    && Unfinished(frames, have, have') && (forall i :: 0 <= i < |frames| ==> Printable(frames[i]))
    && s == PrintAll(frames) + tail && o.pongs == pongs + Pings(frames) && FailsAt(tail, have', o.reason)
  }

  /** One more legal frame in front. */
  lemma ExplainsMore(f: Frame, frames: seq<Frame>, have: Option<nat>, mid: Option<nat>, have': Option<nat>, s: Bytes,
                     rest: Bytes, tail: Bytes, pongs: seq<Bytes>, pongs': seq<Bytes>, o: Outcome)
    requires o.Failed? && ExplainsFailure(frames, mid, have', rest, tail, pongs', o)
    requires Printable(f) && s == Print(f) + rest
    requires pongs' == (if f.opcode == 9 then pongs + [f.payload] else pongs)
    requires if IsControl(f) then f.fin && |f.payload| <= 125 && mid == have
             else !f.fin && (if have.None? then f.opcode == 1 || f.opcode == 2 else f.opcode == 0)
                  && mid == Some((if have.Some? then have.value else 0) + |f.payload|) && mid.value <= MAX_PAYLOAD
    ensures ExplainsFailure([f] + frames, have, have', s, tail, pongs, o)
  {
    hide Print, PrintAll, Pings, FailsAt;
    UnfinishedCons(f, frames, have, mid, have');
    UnfinishedIsPrintable([f] + frames, have, have');
    assert PrintAll([f] + frames) + tail == Print(f) + (PrintAll(frames) + tail);
    assert pongs + Pings([f] + frames) == pongs' + Pings(frames);
  }

  /** A stream that does not fail at its first frame goes on past a legal one. */
  lemma {:induction false} FailedWasExplained(s: Bytes, have: Option<nat>, message: Bytes, pongs: seq<Bytes>)
    returns (frames: seq<Frame>, have': Option<nat>, tail: Bytes)
    requires if have.Some? then |message| == have.value else message == []
    requires Decode(s, message, have.Some?, pongs).Failed?
    ensures ExplainsFailure(frames, have, have', s, tail, pongs, Decode(s, message, have.Some?, pongs))
    decreases |s|
  {
    hide ExplainsFailure, Print, LengthBytes, Fits, ReadHeader;
    var o := Decode(s, message, have.Some?, pongs);
    if FailsAt(s, have, o.reason) && o.pongs == pongs {
      frames, have', tail := [], have, s;
      FailsAtOnce(s, have, pongs, o);
    } else {
      var h := ReadHeader(s).value;
      var payload, rest := s[h.size..h.size + h.len], s[h.size + h.len..];
      var f := Frame(h.fin, h.rsv, h.opcode, h.form, payload);
      HeaderWasPrinted(s);
      var pongs' := if f.opcode == 9 then pongs + [payload] else pongs;
      if IsControl(f) {
        frames, have', tail := FailedWasExplained(rest, have, message, pongs');
        ExplainsMore(f, frames, have, have, have', s, rest, tail, pongs, pongs', o);
      } else {
        assert message + payload == if have.None? then payload else message + payload;
        var mid := Some(|message| + h.len);
        frames, have', tail := FailedWasExplained(rest, mid, message + payload, pongs);
        ExplainsMore(f, frames, have, mid, have', s, rest, tail, pongs, pongs, o);
      }
      frames := [f] + frames;
    }
  }

  lemma FailsAtOnce(s: Bytes, have: Option<nat>, pongs: seq<Bytes>, o: Outcome)
    requires o.Failed? && FailsAt(s, have, o.reason) && o.pongs == pongs
    ensures ExplainsFailure([], have, have, s, s, pongs, o)
  {
    hide FailsAt;
    NoFrames();
    assert PrintAll([]) + s == s && pongs + Pings([]) == pongs;
  }

  /**
    Over every stream: the decoder fails with this reason, having answered
    these pings, if and only if the stream is legal unfinished frames holding
    those pings, followed by something that gives that reason.
   */
  lemma FailsExactly(s: Bytes, reason: Reason, pongs: seq<Bytes>)
    ensures Decode(s, [], false, []) == Failed(reason, pongs) <==>
            exists frames, have, tail :: ExplainsFailure(frames, None, have, s, tail, [], Failed(reason, pongs))
  {
    var o := Failed(reason, pongs);
    hide ReadHeader, FailsAt;
    if Decode(s, [], false, []) == o {
      var frames, have, tail := FailedWasExplained(s, None, [], []);
      assert ExplainsFailure(frames, None, have, s, tail, [], o);
    }
    if frames, have, tail :| ExplainsFailure(frames, None, have, s, tail, [], o) {
      var message := DecodesThrough(frames, None, have, [], [], tail);
      FailsHere(tail, have, message, [] + Pings(frames), reason);
    }
  }
}
