/**
  The line protocol with the crypto subprocess. A pipe hands bytes over in
  chunks of its own choosing; interrupted reads deliver nothing.
 */
module Lines {
  import opened Words

  const NEWLINE: byte := 10

  /** What is left to come out of the pipe, and whether it then breaks (a read error) or ends. */
  datatype Pipe = Pipe(chunks: seq<Option<Bytes>>, broken: bool)

  /** A read that delivers data delivers at least one byte; none at all is end of file. */
  predicate ValidPipe(p: Pipe)
  {
    forall i :: 0 <= i < |p.chunks| && p.chunks[i].Some? ==> p.chunks[i].value != []
  }

  function Concat(chunks: seq<Option<Bytes>>): Bytes
  {
    if chunks == [] then [] else (if chunks[0].Some? then chunks[0].value else []) + Concat(chunks[1..])
  }

  lemma LongerLine(s: Bytes, line: Bytes, rest: Bytes)
    requires s != [] && s[0] != NEWLINE && s[1..] == line + [NEWLINE] + rest && NEWLINE !in line
    ensures s == [s[0]] + line + [NEWLINE] + rest && NEWLINE !in [s[0]] + line
  {
    assert s == [s[0]] + s[1..];
  }

  /** The bytes up to the first newline, and those after it; None when there is no newline. */
  function SplitLine(s: Bytes): (r: Option<(Bytes, Bytes)>)
    ensures r.None? <==> NEWLINE !in s
    ensures r.Some? ==> s == r.value.0 + [NEWLINE] + r.value.1 && NEWLINE !in r.value.0
  {
    if s == [] then None
    else if s[0] == NEWLINE then
      assert s == [] + [NEWLINE] + s[1..];
      Some(([], s[1..]))
    else
      match SplitLine(s[1..])
      case None =>
        assert s == [s[0]] + s[1..];
        None
      case Some((line, rest)) =>
        LongerLine(s, line, rest);
        Some(([s[0]] + line, rest))
  }

  datatype Failure = ReadFailed | PipeClosed

  /** What a reader of the whole stream would get next, and what would be left. */
  function NextLine(stream: Bytes, broken: bool): (Result<Bytes, Failure>, Bytes)
  {
    match SplitLine(stream)
    case Some((line, rest)) => (Ok(line), rest)
    case None =>
      if broken then (Err(ReadFailed), stream)
      else if stream != [] then (Ok(stream), [])
      else (Err(PipeClosed), [])
  }

  class LineReader {
    var buf: Bytes
    var pipe: Pipe

    constructor (pipe: Pipe)
      ensures buf == [] && this.pipe == pipe
    {
      buf, this.pipe := [], pipe;
    }

    function Stream(): Bytes
      reads this
    {
      buf + Concat(pipe.chunks)
    }

    /** However the pipe cuts the bytes up, the line read and the bytes left are those of the uncut stream. */
    method ReadLine() returns (r: Result<Bytes, Failure>)
      requires ValidPipe(pipe)
      modifies this
      ensures ValidPipe(pipe) && pipe.broken == old(pipe.broken)
      ensures (r, Stream()) == NextLine(old(Stream()), pipe.broken)
    {
      while true
        invariant ValidPipe(pipe) && pipe.broken == old(pipe.broken)
        invariant Stream() == old(Stream())
        decreases |pipe.chunks|
      {
        var found := SplitLine(buf);
        if found.Some? {
          SplitLineExtends(buf, Concat(pipe.chunks));
          buf := found.value.1;
          return Ok(found.value.0);
        }
        if pipe.chunks == [] {
          assert Stream() == buf;
          if pipe.broken { return Err(ReadFailed); }
          if buf != [] {
            r := Ok(buf);
            buf := [];
            assert Stream() == [];
            return;
          }
          return Err(PipeClosed);
        }
        var next := pipe.chunks[0];
        assert Concat(pipe.chunks) == (if next.Some? then next.value else []) + Concat(pipe.chunks[1..]);
        pipe := pipe.(chunks := pipe.chunks[1..]);
        if next.Some? { buf := buf + next.value; }
      }
    }

    /** Successive calls, each reading its line from the same pipe. */
    method ReadLines(n: nat) returns (rs: seq<Result<Bytes, Failure>>)
      requires ValidPipe(pipe)
      modifies this
      ensures ValidPipe(pipe) && pipe.broken == old(pipe.broken)
      ensures (rs, Stream()) == ReadMany(old(Stream()), pipe.broken, n)
    {
      hide NextLine, SplitLine;
      rs := [];
      ghost var all := ReadMany(Stream(), pipe.broken, n);
      for i := 0 to n
        invariant ValidPipe(pipe) && pipe.broken == old(pipe.broken)
        invariant var (rest, left) := ReadMany(Stream(), pipe.broken, n - i); all.0 == rs + rest && all.1 == left
      {
        ghost var before := ReadMany(Stream(), pipe.broken, n - i).0;
        var r := ReadLine();
        assert rs + before == rs + [r] + before[1..];
        rs := rs + [r];
      }
      assert rs + [] == rs;
    }

    /** When the subprocess writes one newline-free response per request, every call gets its own. */
    method ReadResponses(n: nat, ghost responses: seq<Bytes>, ghost later: Bytes)
      returns (rs: seq<Result<Bytes, Failure>>)
      requires ValidPipe(pipe) && |responses| == n && Stream() == Written(responses) + later
      requires forall i :: 0 <= i < n ==> NEWLINE !in responses[i]
      modifies this
      ensures ValidPipe(pipe) && rs == Oks(responses) && Stream() == later
    {
      hide ReadMany, Written, Oks;
      CallsGetTheirResponses(responses, later, pipe.broken);
      rs := ReadLines(n);
    }
  }

  lemma {:induction false} SplitLineExtends(s: Bytes, more: Bytes)
    requires SplitLine(s).Some?
    ensures SplitLine(s + more) == Some((SplitLine(s).value.0, SplitLine(s).value.1 + more))
  {
    assert (s + more)[1..] == s[1..] + more;
    if s[0] != NEWLINE { SplitLineExtends(s[1..], more); }
  }

  lemma {:induction false} SplitLineAt(line: Bytes, rest: Bytes)
    requires NEWLINE !in line
    ensures SplitLine(line + [NEWLINE] + rest) == Some((line, rest))
  {
    var s := line + [NEWLINE] + rest;
    if line == [] {
      assert s == [NEWLINE] + rest;
    } else {
      assert s[1..] == line[1..] + [NEWLINE] + rest;
      SplitLineAt(line[1..], rest);
      assert line == [line[0]] + line[1..];
    }
  }

  function Written(responses: seq<Bytes>): Bytes
  {
    if responses == [] then [] else responses[0] + [NEWLINE] + Written(responses[1..])
  }

  /** `n` reads in a row of the uncut stream. */
  function ReadMany(stream: Bytes, broken: bool, n: nat): (seq<Result<Bytes, Failure>>, Bytes)
    decreases n
  {
    if n == 0 then ([], stream) else
    var (r, rest) := NextLine(stream, broken);
    var (more, left) := ReadMany(rest, broken, n - 1);
    ([r] + more, left)
  }

  function Oks(responses: seq<Bytes>): seq<Result<Bytes, Failure>>
  {
    seq(|responses|, i requires 0 <= i < |responses| => Ok(responses[i]))
  }

  /** One newline-free response per request: the k-th read gets the k-th response and leaves the later ones. */
  lemma {:induction false} CallsGetTheirResponses(responses: seq<Bytes>, later: Bytes, broken: bool)
    requires forall i :: 0 <= i < |responses| ==> NEWLINE !in responses[i]
    ensures ReadMany(Written(responses) + later, broken, |responses|) == (Oks(responses), later)
  {
    hide SplitLine;
    if responses == [] {
      assert Written(responses) + later == later;
    } else {
      var rest := Written(responses[1..]) + later;
      assert Written(responses) + later == responses[0] + [NEWLINE] + rest;
      SplitLineAt(responses[0], rest);
      CallsGetTheirResponses(responses[1..], later, broken);
      assert Oks(responses) == [Ok(responses[0])] + Oks(responses[1..]);
    }
  }

  // ----- to the end of any stream

  function Errs(f: Failure, k: nat): seq<Result<Bytes, Failure>> { seq(k, _ => Err(f)) }

  /** What `k` reads return once only bytes without a newline are left, and what they leave. */
  function Ending(tail: Bytes, broken: bool, k: nat): (seq<Result<Bytes, Failure>>, Bytes)
  {
    if broken then (Errs(ReadFailed, k), tail)
    else if tail == [] || k == 0 then (Errs(PipeClosed, k), tail)
    else ([Ok(tail)] + Errs(PipeClosed, k - 1), [])
  }

  lemma {:induction false} EndReads(tail: Bytes, broken: bool, k: nat)
    requires NEWLINE !in tail
    ensures ReadMany(tail, broken, k) == Ending(tail, broken, k)
    decreases k
  {
    if k > 0 {
      EndReads(if broken then tail else [], broken, k - 1);
      var e := if broken then ReadFailed else PipeClosed;
      assert [Err(e)] + Errs(e, k - 1) == Errs(e, k);
    }
  }

  lemma {:induction false} ReadManyAdds(stream: Bytes, broken: bool, m: nat, k: nat)
    ensures var (rs, rest) := ReadMany(stream, broken, m); var (more, left) := ReadMany(rest, broken, k);
            ReadMany(stream, broken, m + k) == (rs + more, left)
    decreases m
  {
    hide NextLine;
    if m == 0 {
      assert [] + ReadMany(stream, broken, k).0 == ReadMany(stream, broken, k).0;
    } else {
      var (r, next) := NextLine(stream, broken);
      ReadManyAdds(next, broken, m - 1, k);
      var (rs, rest) := ReadMany(next, broken, m - 1);
      assert m + k - 1 == m - 1 + k;
      assert [r] + (rs + ReadMany(rest, broken, k).0) == [r] + rs + ReadMany(rest, broken, k).0;
    }
  }

  /**
    Any stream is lines and a last piece without a newline. Reading on and on
    returns the lines, then the last piece once if the pipe ended, and then
    the error for a broken or a closed pipe for ever.
   */
  lemma EveryStreamIsRead(lines: seq<Bytes>, tail: Bytes, broken: bool, k: nat)
    requires NEWLINE !in tail && forall i :: 0 <= i < |lines| ==> NEWLINE !in lines[i]
    ensures var (end, left) := Ending(tail, broken, k);
            ReadMany(Written(lines) + tail, broken, |lines| + k) == (Oks(lines) + end, left)
  {
    hide ReadMany, Ending, Written, Oks;
    CallsGetTheirResponses(lines, tail, broken);
    EndReads(tail, broken, k);
    ReadManyAdds(Written(lines) + tail, broken, |lines|, k);
  }

  lemma {:induction false} EveryStreamHasLines(s: Bytes) returns (lines: seq<Bytes>, tail: Bytes)
    ensures s == Written(lines) + tail && NEWLINE !in tail && forall i :: 0 <= i < |lines| ==> NEWLINE !in lines[i]
    decreases |s|
  {
    var found := SplitLine(s);
    if found.None? {
      lines, tail := [], s;
      assert Written(lines) + tail == s;
    } else {
      var (line, rest) := found.value;
      var more;
      more, tail := EveryStreamHasLines(rest);
      lines := [line] + more;
      assert lines[1..] == more;
      assert Written(lines) + tail == line + [NEWLINE] + (Written(more) + tail);
    }
  }
}
