/** Chunked responses: streamed while the handler runs, or buffered until it returns. */
module ResponseStream {
  import opened Text
  import opened HttpParser
  import opened ChunkCodec
  import opened SocketWrite
  import opened BufferedBody
  import opened ResponseReader
  import opened ResponseHead

  const CHUNKED_LINE := "Transfer-Encoding: chunked" + CRLFCRLF

  /** The streaming state of a response, and the bytes that have reached the client. `lines` is the status
      line with the header and cookie lines. */
  datatype Stream = Stream(
    lines: string,
    chunkBuf: string,
    live: bool,
    headerSent: bool,
    streamed: bool,
    bytes: nat,
    wire: string
  )

  const FRESH_STREAM := Stream("", "", true, false, false, 0, "")

  /** What a handler does: header lines; `chunk`, `end_chunks` and `trailer`; flushes, which come with the socket's
      answers. */
  datatype Op = SetLines(lines: string) | Do(call: Call) | Flush(calls: seq<Sys>) | Finish(calls: seq<Sys>)

  /** What the next flush sends: the header once, then the pending frames. */
  function Pending(s: Stream): string {
    (if s.headerSent then "" else s.lines + CHUNKED_LINE) + s.chunkBuf
  }

  /** Sends `out`; the socket counts as dead if it did not take all of it. */
  function Send(s: Stream, out: string, calls: seq<Sys>): Stream {
    var sent := Delivered(Awaiting, out, calls);
    var t := s.(chunkBuf := "", headerSent := true, streamed := true, wire := s.wire + sent);
    if |sent| == |out| then t.(bytes := s.bytes + |out|) else t.(live := false)
  }

  function Apply(s: Stream, op: Op): Stream {
    match op
    case SetLines(lines) => s.(lines := lines)
    case Do(call) => s.(chunkBuf := s.chunkBuf + Bytes(call))
    case Flush(calls) => if s.live then Send(s, Pending(s), calls) else s
    case Finish(calls) => if s.live then Send(s, Pending(s) + LAST, calls).(live := false) else s
  }

  function Run(ops: seq<Op>): Stream {
    if ops == [] then FRESH_STREAM else Apply(Run(ops[..|ops| - 1]), ops[|ops| - 1])
  }

  // ---------- The ideal stream ----------

  /** What should reach the client, were the socket never to fail: the header as it stood at the first flush,
      what the calls up to the end leave, and the last chunk. */
  datatype Plan = Plan(lines: string, header: Option<string>, calls: seq<Call>, ended: bool)

  function Next(plan: Plan, op: Op): Plan {
    match op
    case SetLines(lines) => plan.(lines := lines)
    case Do(call) => if plan.ended then plan else plan.(calls := plan.calls + [call])
    case Flush(_) => if plan.header.None? then plan.(header := Some(plan.lines + CHUNKED_LINE)) else plan
    case Finish(_) => plan.(ended := true, header := if plan.header.None? then Some(plan.lines + CHUNKED_LINE) else plan.header)
  }

  function Planned(ops: seq<Op>): Plan {
    if ops == [] then Plan("", None, [], false) else Next(Planned(ops[..|ops| - 1]), ops[|ops| - 1])
  }

  function Ideal(plan: Plan): string {
    (if plan.header.Some? then plan.header.value else "") + Added(plan.calls) + (if plan.ended then LAST else "")
  }

  lemma {:induction false} AddedAppend(calls: seq<Call>, call: Call)
    ensures Added(calls + [call]) == Added(calls) + Bytes(call)
  {
    if calls != [] {
      assert (calls + [call])[1..] == calls[1..] + [call];
      AddedAppend(calls[1..], call);
      Assoc(Bytes(calls[0]), Added(calls[1..]), Bytes(call));
    } else {
      assert calls + [call] == [call] && [call][1..] == [];
    }
  }

  /** A live stream has sent or holds everything planned; a dead one has sent a beginning of it. */
  ghost predicate Tracks(s: Stream, plan: Plan) {
    && s.lines == plan.lines
    && s.wire <= Ideal(plan)
    && s.bytes <= |s.wire|
    && (s.live || plan.header.Some?)
    && (s.live ==>
          && !plan.ended
          && s.headerSent == plan.header.Some?
          && s.wire + s.chunkBuf == Ideal(plan)
          && s.bytes == |s.wire|
          && (!s.headerSent ==> s.wire == ""))
  }

  /** A call before the end adds its bytes to what is planned. */
  lemma IdealCall(plan: Plan, call: Call)
    requires !plan.ended
    ensures Ideal(Next(plan, Do(call))) == Ideal(plan) + Bytes(call)
  {
    AddedAppend(plan.calls, call);
    AppendBehind(if plan.header.Some? then plan.header.value else "", Added(plan.calls), Bytes(call));
  }

  lemma AppendBehind(h: string, a: string, b: string)
    ensures h + (a + b) + "" == h + a + "" + b
  {
    Assoc(h, a, b);
    NothingBehind(h + a);
    NothingBehind(h + (a + b));
  }

  lemma CallTracks(s: Stream, plan: Plan, call: Call, bytes: string)
    requires Tracks(s, plan) && bytes == Bytes(call)
    ensures Tracks(Apply(s, Do(call)), Next(plan, Do(call)))
  {
    if !plan.ended {
      IdealCall(plan, call);
      Assoc(s.wire, s.chunkBuf, bytes);
    }
  }

  /** What a live stream sends completes what is planned once the header is fixed. */
  lemma PendingCompletes(s: Stream, plan: Plan, calls: seq<Sys>)
    requires Tracks(s, plan) && s.live
    ensures s.wire + Pending(s) == Ideal(Next(plan, Flush(calls)))
    ensures s.wire + (Pending(s) + LAST) == Ideal(Next(plan, Finish(calls)))
  {
    if !s.headerSent {
      assert s.chunkBuf == Ideal(plan) == Added(plan.calls);
    }
    assert s.wire + (Pending(s) + LAST) == s.wire + Pending(s) + LAST;
  }

  lemma SendPrefix(s: Stream, out: string, calls: seq<Sys>)
    ensures var t := Send(s, out, calls);
            && s.wire <= t.wire <= s.wire + out
            && t.headerSent && t.chunkBuf == "" && t.lines == s.lines
            && (t.live ==> t.wire == s.wire + out)
            && (t.bytes == s.bytes || (t.bytes == s.bytes + |out| && t.wire == s.wire + out))
            && (t.wire == s.wire + out ==> t.bytes == s.bytes + |out| && t.live == s.live)
  {
  }

  lemma FlushTracks(s: Stream, plan: Plan, calls: seq<Sys>)
    requires Tracks(s, plan)
    ensures Tracks(Apply(s, Flush(calls)), Next(plan, Flush(calls)))
  {
    if s.live {
      PendingCompletes(s, plan, calls);
      SendPrefix(s, Pending(s), calls);
      var t := Apply(s, Flush(calls));
      assert t.wire + "" == t.wire;
    }
  }

  lemma FinishTracks(s: Stream, plan: Plan, calls: seq<Sys>)
    requires Tracks(s, plan)
    ensures Tracks(Apply(s, Finish(calls)), Next(plan, Finish(calls)))
  {
    if s.live {
      PendingCompletes(s, plan, calls);
      SendPrefix(s, Pending(s) + LAST, calls);
    }
  }

  /** Whatever the handler does and the socket answers, the client has received a beginning of the ideal stream. */
  lemma {:induction false} RunTracks(ops: seq<Op>)
    ensures Tracks(Run(ops), Planned(ops))
  {
    if ops != [] {
      var s, plan := Run(ops[..|ops| - 1]), Planned(ops[..|ops| - 1]);
      RunTracks(ops[..|ops| - 1]);
      match ops[|ops| - 1]
      case SetLines(_) =>
      case Do(call) => CallTracks(s, plan, call, Bytes(call));
      case Flush(calls) => FlushTracks(s, plan, calls);
      case Finish(calls) => FinishTracks(s, plan, calls);
    }
  }

  /** The socket takes everything this step sends. */
  predicate AllSent(s: Stream, op: Op) {
    match op
    case Flush(calls) => s.live ==> Delivered(Awaiting, Pending(s), calls) == Pending(s)
    case Finish(calls) => s.live ==> Delivered(Awaiting, Pending(s) + LAST, calls) == Pending(s) + LAST
    case _ => true
  }

  predicate Clean(ops: seq<Op>) {
    ops == [] || (Clean(ops[..|ops| - 1]) && AllSent(Run(ops[..|ops| - 1]), ops[|ops| - 1]))
  }

  /** Where nothing failed, the stream lives until it is finished, and then the client has the ideal stream,
      every byte of it counted. The flushes leave no trace in it. */
  lemma {:induction false} CleanRun(ops: seq<Op>)
    requires Clean(ops)
    ensures var s, plan := Run(ops), Planned(ops);
            if plan.ended then s.wire == Ideal(plan) && s.bytes == |s.wire| && !s.live else s.live
  {
    if ops != [] {
      var before, op := ops[..|ops| - 1], ops[|ops| - 1];
      var s, plan := Run(before), Planned(before);
      CleanRun(before);
      RunTracks(before);
      if op.Flush? && s.live {
        SendPrefix(s, Pending(s), op.calls);
      } else if op.Finish? && s.live {
        PendingCompletes(s, plan, op.calls);
        SendPrefix(s, Pending(s) + LAST, op.calls);
      }
    }
  }

  /** Two handlers that fix the same header and make the same calls, flushing where they like, send the same bytes. */
  lemma FlushesLeaveNoTrace(a: seq<Op>, b: seq<Op>)
    requires Clean(a) && Clean(b) && Planned(a).ended && Planned(b).ended
    requires Planned(a).header == Planned(b).header && Planned(a).calls == Planned(b).calls
    ensures Run(a).wire == Run(b).wire && Run(a).bytes == Run(b).bytes
  {
    CleanRun(a);
    CleanRun(b);
  }

  lemma BehindHeader(wire: string, h: string, body: string)
    requires wire == h + body
    ensures Matches(wire, body, |h|) && |h| + |body| == |wire|
  {}

  lemma WireYields(wire: string, h: string, chunks: seq<string>, p: Parser, out: Outcome)
    requires wire == h + (Frames(chunks) + LAST) && p.state == ChunkSize && |p.chunkBody| + |Concat(chunks)| <= MAX_BODY_SIZE
    requires out == Decoded(p, Concat(chunks), |wire|)
    ensures Yields(wire, p, |h|, out)
  {
    BehindHeader(wire, h, Frames(chunks) + LAST);
    FramesYield(wire, p, |h|, chunks, out);
  }

  lemma {:induction false} AddedIsFrames(calls: seq<Call>)
    requires NoEnd(calls)
    ensures Added(calls) == Frames(Writes(calls))
  {
    if calls != [] {
      FramesOf(calls);
      AddedIsFrames(calls[1..]);
    }
  }

  lemma FinishedWire(ops: seq<Op>)
    requires Clean(ops) && Planned(ops).ended
    ensures Planned(ops).header.Some? && Run(ops).wire == Planned(ops).header.value + Added(Planned(ops).calls) + LAST
  {
    CleanRun(ops);
    RunTracks(ops);
  }

  /** The server's own chunk loop reads a finished stream back, if nothing but the end has closed it. */
  lemma StreamDecodes(ops: seq<Op>, p: Parser)
    requires Clean(ops) && Planned(ops).ended && NoEnd(Planned(ops).calls)
    requires p.state == ChunkSize && |p.chunkBody| + |Concat(Writes(Planned(ops).calls))| <= MAX_BODY_SIZE
    ensures Planned(ops).header.Some?
    ensures var wire, text := Run(ops).wire, Concat(Writes(Planned(ops).calls));
            |Planned(ops).header.value| <= |wire| && HttpParser.Chunks(wire, p, |Planned(ops).header.value|) == Decoded(p, text, |wire|)
  {
    FinishedWire(ops);
    var calls, h := Planned(ops).calls, Planned(ops).header.value;
    AddedIsFrames(calls);
    Assoc(h, Frames(Writes(calls)), LAST);
    WireYields(Run(ops).wire, h, Writes(calls), p, Decoded(p, Concat(Writes(calls)), |Run(ops).wire|));
    assert Unfold(true);
  }

  // ---------- What a client makes of a stream ----------

  /** Behind the header, frames, a size line of zero, and a rest from `pos` on. */
  ghost predicate Parts(wire: string, at: nat, f: string, pos: nat, tail: string) {
    Matches(wire, f, at) && Matches(wire, "0" + CRLF, at + |f|) && pos == at + |f| + 3 <= |wire| && wire[pos..] == tail
  }

  lemma LastParts(wire: string, h: string, f: string, tail: string)
    requires wire == h + (f + (("0" + CRLF) + tail))
    ensures Parts(wire, |h|, f, |h| + |f| + 3, tail)
  {
    BehindHeader(wire, h, f + (("0" + CRLF) + tail));
    SplitMatch(wire, f, ("0" + CRLF) + tail, |h|);
    SplitMatch(wire, "0" + CRLF, tail, |h| + |f|);
    assert wire[|h| + |f| + 3..|wire|] == tail;
  }

  lemma ThenRead(wire: string, at: nat, chunks: seq<string>, f: string, text: string, pos: nat, tail: string, out: Reading)
    requires Parts(wire, at, f, pos, tail) && f == Frames(chunks) && text == Concat(chunks) && Tail(wire, pos, text, out)
    ensures ResponseReader.Chunks(wire, at, "", out)
  {
    FramesThenZero(wire, at, chunks, f, text, out);
  }

  /** The empty line. */
  lemma LastTail(wire: string, pos: nat, text: string)
    requires pos <= |wire| && wire[pos..] == CRLF
    ensures Tail(wire, pos, text, Done(text, |wire|))
  {
    assert wire[pos..pos + 2] == CRLF;
    EmptyTurn(wire, pos, text);
    TailStop(wire, pos, text, Done(text, |wire|));
  }

  lemma TailRefused(wire: string, pos: nat, text: string, after: seq<Call>)
    requires pos <= |wire| && wire[pos..] == Added(after) + LAST
    ensures Tail(wire, pos, text, Malformed)
  {
    if OnlyTrailers(after) {
      AddsNothing(after);
      assert Hex(0) == "0";
      HexIsSized(0);
      assert "" + LAST == "0" + CRLF + CRLF + "";
      NumeralRead(wire, pos, text, "0", 0, CRLF, "");
    } else {
      var s, n, more := AddsNumeral(after);
      NumeralRead(wire, pos, text, s, n, more, LAST);
    }
  }

  /** The calls before the first `end_chunks`, and those behind it. */
  lemma {:induction false} SplitAtEnd(calls: seq<Call>) returns (before: seq<Call>, after: seq<Call>)
    requires !NoEnd(calls)
    ensures NoEnd(before) && calls == before + [End] + after
  {
    if calls[0].End? {
      before, after := [], calls[1..];
      assert calls == [] + [End] + calls[1..];
    } else {
      var b, a := SplitAtEnd(calls[1..]);
      before, after := [calls[0]] + b, a;
    }
  }

  lemma {:induction false} AddedAround(before: seq<Call>, after: seq<Call>)
    ensures Added(before + [End] + after) == Added(before) + (("0" + CRLF) + Added(after))
  {
    if before == [] {
      assert [] + [End] + after == [End] + after && ([End] + after)[1..] == after;
    } else {
      assert (before + [End] + after)[1..] == before[1..] + [End] + after;
      AddedAround(before[1..], after);
      Assoc(Bytes(before[0]), Added(before[1..]), ("0" + CRLF) + Added(after));
    }
  }

  /** A client reads a finished stream as everything written, with nothing left over, exactly if the handler did not call
      `end_chunks` as well; if it did, the stream is malformed. */
  lemma StreamReadsIff(ops: seq<Op>)
    requires Clean(ops) && Planned(ops).ended
    ensures Planned(ops).header.Some? && |Planned(ops).header.value| <= |Run(ops).wire|
    ensures var wire, calls := Run(ops).wire, Planned(ops).calls;
            ReadChunked(wire, |Planned(ops).header.value|, "") ==
            if NoEnd(calls) then Done(Concat(Writes(calls)), |wire|) else Malformed
  {
    FinishedWire(ops);
    var wire, calls, h := Run(ops).wire, Planned(ops).calls, Planned(ops).header.value;
    if NoEnd(calls) { OpenRead(wire, h, calls); } else { ClosedRead(wire, h, calls); }
    assert Turned(true, |h|);
  }

  /** The same for a client that begins with the head, on lines that leave the framing to the response. */
  lemma StreamResponse(ops: seq<Op>, lines: string)
    requires Clean(ops) && Planned(ops).ended && Planned(ops).header == Some(lines + CHUNKED_LINE) && Plain(lines)
    ensures var wire, calls := Run(ops).wire, Planned(ops).calls;
            ReadResponse(wire) == if NoEnd(calls) then Done(Concat(Writes(calls)), |wire|) else Malformed
  {
    FinishedWire(ops);
    StreamReadsIff(ops);
    var wire, h, rest := Run(ops).wire, lines + CHUNKED_LINE, Added(Planned(ops).calls);
    Assoc(h, rest, LAST);
    ChunkedWire(lines, h, rest + LAST, wire);
  }

  lemma ChunkedWire(lines: string, h: string, rest: string, wire: string)
    requires Plain(lines) && h == lines + CHUNKED_LINE && wire == h + rest
    ensures |h| <= |wire| && ReadResponse(wire) == ReadChunked(wire, |h|, "")
  {
    var line := "Transfer-Encoding" + ": " + "chunked";
    Regroup(lines, line, CRLFCRLF, rest, h, wire);
    ChunkedHead(lines, rest, wire);
  }

  lemma Regroup(lines: string, line: string, end: string, rest: string, h: string, wire: string)
    requires h == lines + (line + end) && wire == h + rest
    ensures wire == lines + line + (end + rest)
  {
    Assoc(lines, line, end);
    Assoc(lines + line, end, rest);
  }

  lemma OpenRead(wire: string, h: string, calls: seq<Call>)
    requires NoEnd(calls) && wire == h + Added(calls) + LAST
    ensures ResponseReader.Chunks(wire, |h|, "", Done(Concat(Writes(calls)), |wire|))
  {
    var f, text := Frames(Writes(calls)), Concat(Writes(calls));
    var pos := |h| + |f| + 3;
    AddedIsFrames(calls);
    OpenParts(wire, h, f);
    LastTail(wire, pos, text);
    ThenRead(wire, |h|, Writes(calls), f, text, pos, CRLF, Done(text, |wire|));
  }

  lemma OpenParts(wire: string, h: string, f: string)
    requires wire == h + f + LAST
    ensures Parts(wire, |h|, f, |h| + |f| + 3, CRLF)
  {
    assert LAST == ("0" + CRLF) + CRLF;
    Assoc(h, f, LAST);
    LastParts(wire, h, f, CRLF);
  }

  /** Behind a first end, the next size line stands where a field should be. */
  lemma ClosedRead(wire: string, h: string, calls: seq<Call>)
    requires !NoEnd(calls) && wire == h + Added(calls) + LAST
    ensures ResponseReader.Chunks(wire, |h|, "", Malformed)
  {
    var before, after := SplitAtEnd(calls);
    var f, text, tail := Frames(Writes(before)), Concat(Writes(before)), Added(after) + LAST;
    var pos := |h| + |f| + 3;
    EndedWire(wire, h, before, after);
    LastParts(wire, h, f, tail);
    TailRefused(wire, pos, text, after);
    ThenRead(wire, |h|, Writes(before), f, text, pos, tail, Malformed);
  }

  lemma EndedWire(wire: string, h: string, before: seq<Call>, after: seq<Call>)
    requires NoEnd(before) && wire == h + Added(before + [End] + after) + LAST
    ensures wire == h + (Frames(Writes(before)) + (("0" + CRLF) + (Added(after) + LAST)))
  {
    AddedAround(before, after);
    AddedIsFrames(before);
    var f, z, t := Frames(Writes(before)), "0" + CRLF, Added(after);
    calc {
      h + (f + (z + t)) + LAST;
      { Assoc(h, f + (z + t), LAST); }
      h + ((f + (z + t)) + LAST);
      { Assoc(f, z + t, LAST); }
      h + (f + ((z + t) + LAST));
      { Assoc(z, t, LAST); }
      h + (f + (z + (t + LAST)));
    }
  }

  lemma LateStep(s: Stream, t: Stream, op: Op)
    requires s.headerSent && t == s.(lines := t.lines)
    ensures Apply(s, op).headerSent && Apply(t, op) == Apply(s, op).(lines := Apply(t, op).lines)
  {}

  lemma RunOn(ops: seq<Op>, op: Op)
    ensures Run(ops + [op]) == Apply(Run(ops), op)
  {
    assert (ops + [op])[..|ops|] == ops;
  }

  /** A response counts as streamed, and its header as sent, exactly from the first flush on. */
  lemma {:induction false} StreamedIff(ops: seq<Op>)
    ensures Run(ops).streamed == Run(ops).headerSent
    ensures Run(ops).streamed <==> exists i :: 0 <= i < |ops| && (ops[i].Flush? || ops[i].Finish?)
    ensures !Run(ops).streamed ==> Run(ops).live && Run(ops).wire == ""
  {
    if ops != [] {
      var rest, op := ops[..|ops| - 1], ops[|ops| - 1];
      assert ops == rest + [op];
      StreamedIff(rest);
      if i :| 0 <= i < |rest| && (rest[i].Flush? || rest[i].Finish?) { assert ops[i] == rest[i]; }
      assert ops[|ops| - 1] == op;
    }
  }

  /** Header lines set once the header is out are too late: whatever follows, no byte on the wire changes. */
  lemma {:induction false} LateHeader(ops: seq<Op>, text: string, more: seq<Op>)
    requires Run(ops).headerSent
    ensures var s, t := Run(ops + more), Run(ops + [SetLines(text)] + more);
            s.headerSent && t == s.(lines := t.lines) && t.wire == s.wire
  {
    if more == [] {
      assert ops + more == ops && ops + [SetLines(text)] + more == ops + [SetLines(text)];
      RunOn(ops, SetLines(text));
    } else {
      var rest, op := more[..|more| - 1], more[|more| - 1];
      LateHeader(ops, text, rest);
      assert more == rest + [op];
      assert ops + more == (ops + rest) + [op] && ops + [SetLines(text)] + more == (ops + [SetLines(text)] + rest) + [op];
      RunOn(ops + rest, op);
      RunOn(ops + [SetLines(text)] + rest, op);
      LateStep(Run(ops + rest), Run(ops + [SetLines(text)] + rest), op);
    }
  }

  // ---------- The header ----------

  function Decimal(n: nat): (s: string)
    ensures s != ""
  {
    if n < 10 then ['0' + n as char] else Decimal(n / 10) + ['0' + (n % 10) as char]
  }

  /** A reader takes the printed length for what it is. */
  lemma {:induction false} DecimalRoundTrip(n: nat)
    ensures AllDigits(Decimal(n)) && DecimalValue(Decimal(n)) == n
  {
    var s := Decimal(n);
    if n >= 10 {
      DecimalRoundTrip(n / 10);
      assert s[..|s| - 1] == Decimal(n / 10);
    } else {
      assert s[..0] == "" && DecimalValue("") == 0;
    }
  }

  /** `serialize_header`: the framing line depends on whether the response counts as chunked. */
  function HeaderOf(lines: string, chunked: bool, body: string): string {
    lines + if chunked then CHUNKED_LINE else "Content-Length: " + Decimal(|body|) + CRLFCRLF
  }

  lemma SizedWire(lines: string, digits: string, body: string, h: string, wire: string)
    requires Plain(lines) && digits != "" && AllDigits(digits) && DecimalValue(digits) == |body|
    requires h == lines + ("Content-Length: " + digits + CRLFCRLF) && wire == h + body
    ensures ReadResponse(wire) == Done(body, |wire|)
  {
    assert "Content-Length: " == "Content-Length" + ": ";
    Regroup(lines, "Content-Length" + ": " + digits, CRLFCRLF, body, h, wire);
    SizedRead(lines, digits, body, wire);
  }

  /** Where no `end_chunks` was called, the client has the body as it was set, and nothing is left over. */
  lemma PlainResponse(lines: string, handler: seq<Call>, body: string)
    requires Plain(lines) && NoEnd(handler)
    ensures var h := Perform(NOTHING, handler);
            var wire := HeaderOf(lines, h.chunked, body) + BodySent(h, body);
            ReadResponse(wire) == Done(body, |wire|)
  {
    NeverSent(handler, body);
    DecimalRoundTrip(|body|);
    SizedWire(lines, Decimal(|body|), body, HeaderOf(lines, false, body), HeaderOf(lines, false, body) + body);
  }

  /** Where it was, what follows the first decides, as it does behind the head. */
  lemma ChunkedResponse(lines: string, before: seq<Call>, after: seq<Call>, body: string)
    requires Plain(lines) && NoEnd(before)
    ensures var h := Perform(NOTHING, before + [End] + after);
            var wire := HeaderOf(lines, h.chunked, body) + BodySent(h, body);
            Expected(ReadResponse(wire), after, Concat(Writes(before)), |wire|)
  {
    var h := Perform(NOTHING, before + [End] + after);
    EndsChunked(before, after);
    BufferedReadingAt(lines + CHUNKED_LINE, before, after, body);
    ChunkedWire(lines, lines + CHUNKED_LINE, BodySent(h, body), lines + CHUNKED_LINE + BodySent(h, body));
  }

  lemma EndsChunked(before: seq<Call>, after: seq<Call>)
    ensures Perform(NOTHING, before + [End] + after).chunked
  {
    PerformAppend(NOTHING, before + [End], after);
    PerformAppend(NOTHING, before, [End]);
    StaysChunked(Perform(NOTHING, before + [End]), after);
  }

  lemma {:induction false} StaysChunked(h: Held, calls: seq<Call>)
    requires h.chunked
    ensures Perform(h, calls).chunked
    decreases |calls|
  {
    if calls != [] { StaysChunked(Obey(h, calls[0]), calls[1..]); }
  }

  // ---------- The send after the handler ----------

  /** What the socket takes of header and body, then of the trailer block. */
  function OnWire(hdr: string, h: Held, body: string, calls: seq<Sys>, more: seq<Sys>): string {
    Delivered(Blocking, hdr + (if h.chunked then h.chunkBuf else body), calls)
    + (if h.chunked && |h.trailers| > 0 then Delivered(Blocking, EncodeTrailers(h.trailers), more) else "")
  }

  /** The socket takes all of it. */
  predicate AllTaken(hdr: string, h: Held, body: string, calls: seq<Sys>, more: seq<Sys>) {
    var n, m := |hdr| + (if h.chunked then |h.chunkBuf| else |body|), |EncodeTrailers(h.trailers)|;
    Flow(Blocking, n, calls) == n && (h.chunked && |h.trailers| > 0 ==> Flow(Blocking, m, more) == m)
  }

  lemma WholeOnWire(hdr: string, h: Held, body: string, calls: seq<Sys>, more: seq<Sys>)
    requires AllTaken(hdr, h, body, calls, more)
    ensures OnWire(hdr, h, body, calls, more) == hdr + BodySent(h, body)
  {
    var out := hdr + (if h.chunked then h.chunkBuf else body);
    assert out[..|out|] == out;
    assert out + "" == out;
    if h.chunked { Assoc(hdr, h.chunkBuf, if |h.trailers| == 0 then "" else EncodeTrailers(h.trailers)); }
  }

  // ---------- The object ----------

  class Response {
    var lines: string
    var body: string
    var chunkBuf: string
    var chunked: bool
    var streamOpen: bool
    var headerSent: bool
    var streamed: bool
    var streamedBytes: nat
    var trailers: Trailers
    /** What the client has received. */
    var wire: string

    function View(): Stream reads this {
      Stream(lines, chunkBuf, streamOpen, headerSent, streamed, streamedBytes, wire)
    }

    /** What is held for the send after the handler. */
    function Kept(): Held reads this { Held(chunkBuf, chunked, trailers) }

    constructor (open: bool)
      ensures View() == FRESH_STREAM.(live := open) && Kept() == NOTHING && body == ""
    {
      body := "";
      lines, chunkBuf, chunked, trailers, wire := "", "", false, [], "";
      streamOpen, headerSent, streamed, streamedBytes := open, false, false, 0;
    }

    method SetHeader(text: string)
      modifies `lines
      ensures View() == Apply(old(View()), SetLines(text))
    {
      lines := text;
    }

    method SetBody(text: string)
      modifies `body
      ensures body == text
    {
      body := text;
    }

    method Chunk(data: string)
      modifies `chunkBuf
      ensures View() == Apply(old(View()), Do(Piece(data))) && Kept() == Obey(old(Kept()), Piece(data))
    {
      if data == "" {
        assert chunkBuf + "" == chunkBuf;
        return;
      }
      var size := Hex(|data|) + CRLF;
      chunkBuf := chunkBuf + size;
      chunkBuf := chunkBuf + data;
      chunkBuf := chunkBuf + CRLF;
    }

    /** The header once, then the frames. */
    method Drain() returns (out: string)
      modifies `chunkBuf, `chunked, `headerSent, `streamed
      ensures out == Pending(old(View())) && chunkBuf == "" && headerSent && streamed == (old(streamed) || !old(headerSent))
    {
      out := "";
      if !headerSent {
        chunked := true;
        out := SerializeHeader();
        headerSent := true;
        streamed := true;
      }
      out := out + chunkBuf;
      chunkBuf := "";
    }

    method SerializeHeader() returns (hdr: string)
      ensures hdr == HeaderOf(lines, chunked, body)
    {
      if chunked {
        hdr := lines + ("Transfer-Encoding: chunked" + CRLFCRLF);
      } else {
        hdr := lines + ("Content-Length: " + Decimal(|body|) + CRLFCRLF);
      }
    }

    method FlushNow(calls: seq<Sys>)
      requires headerSent ==> streamed
      modifies this
      ensures View() == Apply(old(View()), Flush(calls))
    {
      if !streamOpen {
        return;
      }
      var out := Drain();
      var sent := WriteAll(Awaiting, out, calls);
      wire := wire + sent;
      if |sent| == |out| {
        streamedBytes := streamedBytes + |out|;
      } else {
        streamOpen := false;
      }
    }

    method FlushEnd(calls: seq<Sys>)
      requires headerSent ==> streamed
      modifies this
      ensures View() == Apply(old(View()), Finish(calls))
    {
      if !streamOpen {
        return;
      }
      var out := Drain();
      out := out + LAST;
      var sent := WriteAll(Awaiting, out, calls);
      wire := wire + sent;
      if |sent| == |out| {
        streamedBytes := streamedBytes + |out|;
      }
      streamOpen := false;
    }

    /** `end_chunks`: the size line of the last chunk, without the empty line. */
    method EndChunks()
      modifies `chunkBuf, `chunked
      ensures chunkBuf == old(chunkBuf) + "0" + CRLF && chunked
      ensures Kept() == Obey(old(Kept()), End) && View() == Apply(old(View()), Do(End))
    {
      chunkBuf := chunkBuf + ("0" + CRLF);
      chunked := true;
    }

    /** `trailer`: only once the response is chunked. */
    method AddTrailer(key: string, value: string)
      modifies `trailers
      ensures trailers == if chunked then old(trailers) + [(key, value)] else old(trailers)
      ensures Kept() == Obey(old(Kept()), Trail(key, value)) && View() == Apply(old(View()), Do(Trail(key, value)))
    {
      assert chunkBuf + "" == chunkBuf;
      if !chunked {
        return;
      }
      trailers := trailers + [(key, value)];
    }

    /** The send after the handler: what the socket takes of header and body, then of the trailer block. */
    method SendBuffered(calls: seq<Sys>, more: seq<Sys>)
      modifies `wire
      ensures wire == old(wire) + OnWire(HeaderOf(lines, chunked, body), Kept(), body, calls, more)
    {
      var hdr := SerializeHeader();
      var sent := WritevResponse(hdr, if chunked then chunkBuf else body, calls);
      wire := wire + sent;
      if chunked && |trailers| > 0 {
        var tail := WriteAll(Blocking, EncodeTrailers(trailers), more);
        wire := wire + tail;
      }
    }

    /** A handler's calls on a new response. */
    method Serve(handler: seq<Call>)
      requires Kept() == NOTHING
      modifies `chunkBuf, `chunked, `trailers
      ensures Kept() == Perform(NOTHING, handler)
    {
      for i := 0 to |handler|
        invariant Perform(Kept(), handler[i..]) == Perform(NOTHING, handler)
      {
        assert handler[i..][1..] == handler[i + 1..];
        match handler[i]
        case Piece(data) => Chunk(data);
        case End => EndChunks();
        case Trail(key, value) => AddTrailer(key, value);
      }
    }
  }

  /** A buffered response from the first call to the last byte. Where the socket takes everything, the client has the
      header, framed by what the calls were, and the body that the calls amount to. */
  method Respond(lines: string, body: string, handler: seq<Call>, calls: seq<Sys>, more: seq<Sys>) returns (wire: string)
    ensures var h := Perform(NOTHING, handler);
            && wire == OnWire(HeaderOf(lines, h.chunked, body), h, body, calls, more)
            && (AllTaken(HeaderOf(lines, h.chunked, body), h, body, calls, more) ==>
                  && wire == HeaderOf(lines, h.chunked, body) + BodySent(h, body)
                  && (Plain(lines) && NoEnd(handler) ==> ReadResponse(wire) == Done(body, |wire|)))
  {
    var r := new Response(false);
    r.SetHeader(lines);
    r.SetBody(body);
    r.Serve(handler);
    r.SendBuffered(calls, more);
    wire := r.wire;
    if AllTaken(HeaderOf(lines, r.chunked, body), r.Kept(), body, calls, more) {
      WholeOnWire(HeaderOf(lines, r.chunked, body), r.Kept(), body, calls, more);
      if Plain(lines) && NoEnd(handler) { PlainResponse(lines, handler, body); }
    }
  }
}
