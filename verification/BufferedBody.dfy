/** Chunked responses that are held until the handler returns: what the calls of a handler put on the wire,
    and what a reader makes of it. */
module BufferedBody {
  import opened Text
  import opened HttpParser
  import opened ChunkCodec
  import opened ResponseReader

  type Trailers = seq<(string, string)>

  /** `chunk`, `end_chunks`, `trailer`. */
  datatype Call = Piece(data: string) | End | Trail(key: string, value: string)

  datatype Held = Held(chunkBuf: string, chunked: bool, trailers: Trailers)

  const NOTHING := Held("", false, [])

  function Obey(h: Held, call: Call): Held {
    match call
    case Piece(data) => if data == "" then h else h.(chunkBuf := h.chunkBuf + Frame(data))
    case End => h.(chunkBuf := h.chunkBuf + ("0" + CRLF), chunked := true)
    case Trail(key, value) => if h.chunked then h.(trailers := h.trailers + [(key, value)]) else h
  }

  function Perform(h: Held, calls: seq<Call>): Held
    decreases |calls|
  {
    if calls == [] then h else Perform(Obey(h, calls[0]), calls[1..])
  }

  /** `encode_trailers`. */
  function EncodeTrailers(trailers: Trailers): string {
    if |trailers| == 0 then CRLF else trailers[0].0 + ": " + trailers[0].1 + CRLF + EncodeTrailers(trailers[1..])
  }

  /** The body sent: the buffer if the response counts as chunked, and a trailer block only if there are trailers. */
  function BodySent(h: Held, body: string): string {
    if !h.chunked then body
    else h.chunkBuf + (if |h.trailers| == 0 then "" else EncodeTrailers(h.trailers))
  }

  // ---------- What the calls leave ----------

  function Writes(calls: seq<Call>): seq<string> {
    if calls == [] then []
    else if calls[0].Piece? then [calls[0].data] + Writes(calls[1..])
    else Writes(calls[1..])
  }

  function Trailing(call: Call): Trailers {
    if call.Trail? then [(call.key, call.value)] else []
  }

  function TrailersOf(calls: seq<Call>): Trailers {
    if calls == [] then [] else Trailing(calls[0]) + TrailersOf(calls[1..])
  }

  /** The bytes that a call adds to the buffer. */
  function Bytes(call: Call): string {
    match call
    case Piece(data) => if |data| == 0 then "" else Frame(data)
    case End => "0" + CRLF
    case Trail(_, _) => ""
  }

  function Added(calls: seq<Call>): string {
    if calls == [] then "" else Bytes(calls[0]) + Added(calls[1..])
  }

  predicate NoEnd(calls: seq<Call>) { forall i :: 0 <= i < |calls| ==> !calls[i].End? }

  lemma {:induction false} PerformAppend(h: Held, a: seq<Call>, b: seq<Call>)
    ensures Perform(h, a + b) == Perform(Perform(h, a), b)
    decreases |a|
  {
    if a == [] {
      assert a + b == b;
    } else {
      assert (a + b)[1..] == a[1..] + b;
      PerformAppend(Obey(h, a[0]), a[1..], b);
    }
  }

  lemma ObeyBytes(h: Held, call: Call)
    ensures Obey(h, call).chunkBuf == h.chunkBuf + Bytes(call)
    ensures Obey(h, call).chunked == (h.chunked || call.End?)
    ensures Obey(h, call).trailers == if h.chunked then h.trailers + Trailing(call) else h.trailers
  {
    assert h.chunkBuf + "" == h.chunkBuf;
    assert h.trailers + [] == h.trailers;
  }

  lemma FramesOf(calls: seq<Call>)
    requires calls != [] && !calls[0].End?
    ensures Frames(Writes(calls)) == Bytes(calls[0]) + Frames(Writes(calls[1..]))
  {
    if calls[0].Piece? { assert Writes(calls)[1..] == Writes(calls[1..]); }
  }

  /** Before `end_chunks`: the frames of the writes; trailers are dropped. */
  lemma {:induction false} BeforeEnd(h: Held, calls: seq<Call>)
    requires !h.chunked && NoEnd(calls)
    ensures Perform(h, calls) == Held(h.chunkBuf + Frames(Writes(calls)), false, h.trailers)
    decreases |calls|
  {
    if calls == [] {
      assert h.chunkBuf + "" == h.chunkBuf;
    } else {
      ObeyBytes(h, calls[0]);
      BeforeEnd(Obey(h, calls[0]), calls[1..]);
      FramesOf(calls);
      Assoc(h.chunkBuf, Bytes(calls[0]), Frames(Writes(calls[1..])));
    }
  }

  /** Behind it: everything that is called is added. */
  lemma {:induction false} BehindEnd(h: Held, calls: seq<Call>)
    requires h.chunked
    ensures Perform(h, calls) == Held(h.chunkBuf + Added(calls), true, h.trailers + TrailersOf(calls))
    decreases |calls|
  {
    if calls == [] {
      assert h.chunkBuf + "" == h.chunkBuf && h.trailers + [] == h.trailers;
    } else {
      ObeyBytes(h, calls[0]);
      BehindEnd(Obey(h, calls[0]), calls[1..]);
      Assoc(h.chunkBuf, Bytes(calls[0]), Added(calls[1..]));
      Assoc(h.trailers, Trailing(calls[0]), TrailersOf(calls[1..]));
    }
  }

  /** Without `end_chunks` the response does not count as chunked, and none of what was written is sent. */
  lemma NeverSent(calls: seq<Call>, body: string)
    requires NoEnd(calls)
    ensures BodySent(Perform(NOTHING, calls), body) == body && !Perform(NOTHING, calls).chunked
  {
    BeforeEnd(NOTHING, calls);
  }

  /** What stands behind the first size line of zero. */
  function Rest(after: seq<Call>): string {
    Added(after) + (if |TrailersOf(after)| == 0 then "" else EncodeTrailers(TrailersOf(after)))
  }

  lemma PerformEnd(h: Held, after: seq<Call>)
    requires !h.chunked && h.trailers == []
    ensures Perform(h, [End] + after) == Held(h.chunkBuf + ("0" + CRLF) + Added(after), true, TrailersOf(after))
  {
    assert ([End] + after)[1..] == after;
    BehindEnd(Obey(h, End), after);
    assert [] + TrailersOf(after) == TrailersOf(after);
  }

  lemma SentForm(before: seq<Call>, after: seq<Call>, body: string)
    requires NoEnd(before)
    ensures BodySent(Perform(NOTHING, before + [End] + after), body) == Frames(Writes(before)) + ("0" + CRLF) + Rest(after)
  {
    var a, f := Perform(NOTHING, before), Frames(Writes(before));
    BeforeEnd(NOTHING, before);
    assert "" + f == f;
    assert before + [End] + after == before + ([End] + after);
    PerformAppend(NOTHING, before, [End] + after);
    PerformEnd(a, after);
    var tail := if |TrailersOf(after)| == 0 then "" else EncodeTrailers(TrailersOf(after));
    Assoc(f + ("0" + CRLF), Added(after), tail);
  }

  // ---------- What follows the first end ----------

  predicate IsEmpty(call: Call) { call.Piece? && |call.data| == 0 }

  /** Trailers and empty writes: calls that leave nothing in the buffer. */
  predicate OnlyTrailers(calls: seq<Call>) {
    calls == [] || ((calls[0].Trail? || IsEmpty(calls[0])) && OnlyTrailers(calls[1..]))
  }

  /** The trailers are fields, as they are if their names are tokens and their values have one line. */
  predicate Proper(trailers: Trailers) {
    forall k :: 0 <= k < |trailers| ==> AreFields(trailers[k].0 + ": " + trailers[k].1)
  }

  lemma TrailersProper(trailers: Trailers)
    requires forall k :: 0 <= k < |trailers| ==> IsTrailer(trailers[k].0, trailers[k].1)
    ensures Proper(trailers)
  {
    forall k | 0 <= k < |trailers| ensures AreFields(trailers[k].0 + ": " + trailers[k].1) { FieldsAre(trailers[k].0, trailers[k].1); }
  }

  lemma {:induction false} AddsNothing(calls: seq<Call>)
    requires OnlyTrailers(calls)
    ensures Added(calls) == "" && Concat(Writes(calls)) == ""
  {
    if calls != [] {
      AddsNothing(calls[1..]);
      if calls[0].Piece? { assert Writes(calls)[1..] == Writes(calls[1..]); }
    }
  }

  /** Anything else begins with a size line. */
  lemma {:induction false} AddsNumeral(calls: seq<Call>) returns (s: string, n: nat, more: string)
    requires !OnlyTrailers(calls)
    ensures Sized(s, n) && Added(calls) == s + CRLF + more
  {
    var rest := Added(calls[1..]);
    if calls[0].Trail? || IsEmpty(calls[0]) {
      s, n, more := AddsNumeral(calls[1..]);
      assert "" + rest == rest;
    } else if calls[0].End? {
      s, n, more := "0", 0, rest;
      assert Hex(0) == "0";
      HexIsSized(0);
    } else {
      var data := calls[0].data;
      s, n, more := Hex(|data|), |data|, data + CRLF + rest;
      HexIsSized(|data|);
      FrameText(Hex(|data|), data, rest);
    }
  }

  lemma FrameText(s: string, data: string, rest: string)
    ensures s + CRLF + data + CRLF + rest == s + CRLF + (data + CRLF + rest)
  {
  }

  // ---------- What a reader makes of it ----------

  lemma FirstTrailer(data: string, pos: nat, trailers: Trailers, line: string)
    requires |trailers| > 0 && Matches(data, EncodeTrailers(trailers), pos) && line == trailers[0].0 + ": " + trailers[0].1
    ensures Matches(data, line + CRLF, pos) && Matches(data, EncodeTrailers(trailers[1..]), pos + |line| + 2)
    ensures |EncodeTrailers(trailers)| == |line| + 2 + |EncodeTrailers(trailers[1..])|
  {
    SplitMatch(data, line + CRLF, EncodeTrailers(trailers[1..]), pos);
  }

  /** Whether trailers are fields, used only where the key is turned. */
  ghost predicate ProperOrNot(trailers: Trailers, yes: bool) {
    forall key {:trigger Unfold(key)} :: Unfold(key) ==> (Proper(trailers) <==> yes)
  }

  lemma ProperFirst(trailers: Trailers, yes: bool) returns (first: bool, others: bool)
    requires ProperOrNot(trailers, yes) && |trailers| > 0
    ensures FieldsOrNot(trailers[0].0 + ": " + trailers[0].1, first) && ProperOrNot(trailers[1..], others) && (yes <==> first && others)
  {
    assert Unfold(true);
    first, others := AreFields(trailers[0].0 + ": " + trailers[0].1), Proper(trailers[1..]);
    if first && others {
      forall k | 0 <= k < |trailers| ensures AreFields(trailers[k].0 + ": " + trailers[k].1) {
        if k > 0 { assert trailers[k] == trailers[1..][k - 1]; }
      }
    }
    assert forall k :: 0 <= k < |trailers[1..]| ==> trailers[1..][k] == trailers[k + 1];
  }

  /** A trailer block is read to its end exactly if the trailers are fields. */
  lemma {:induction false} TrailersRead(data: string, pos: nat, body: string, trailers: Trailers, end: nat, yes: bool)
      returns (out: Reading)
    requires Matches(data, EncodeTrailers(trailers), pos) && end == pos + |EncodeTrailers(trailers)| && ProperOrNot(trailers, yes)
    ensures Tail(data, pos, body, out) && (out == Done(body, end) <==> yes)
    decreases |trailers|
  {
    if |trailers| == 0 {
      assert Unfold(true);
      EmptyTurn(data, pos, body);
      out := Done(body, end);
      TailStop(data, pos, body, out);
    } else {
      var line := trailers[0].0 + ": " + trailers[0].1;
      var next := pos + |line| + 2;
      FirstTrailer(data, pos, trailers, line);
      var first, others := ProperFirst(trailers, yes);
      if first {
        out := TrailersRead(data, next, body, trailers[1..], end, others);
        FieldsRead(data, pos, body, line, next, out);
      } else {
        out := OthersRead(data, pos, body, line, next);
        SomethingBehind(trailers[1..]);
      }
    }
  }

  lemma SomethingBehind(trailers: Trailers)
    ensures EncodeTrailers(trailers) != ""
  {
  }

  lemma NothingMore(data: string, body: string)
    ensures Tail(data, |data|, body, Waiting)
  {
    TailStop(data, |data|, body, Waiting);
  }

  /** What a reader of section 4.1 of RFC 7230 makes of the body. */
  predicate Expected(out: Reading, after: seq<Call>, text: string, end: nat) {
    if !OnlyTrailers(after) then out == Malformed
    else if |TrailersOf(after)| == 0 then out == Waiting
    else out == Done(text, end) <==> Proper(TrailersOf(after))
  }

  lemma NumeralRead(data: string, pos: nat, text: string, s: string, n: nat, more: string, block: string)
    requires pos <= |data| && Sized(s, n) && data[pos..] == s + CRLF + more + block
    ensures Tail(data, pos, text, Malformed)
  {
    Assoc(s + CRLF, more, block);
    StartsAt(data, pos, s + CRLF, more + block);
    NumeralTurn(data, pos, text, n, s);
    TailStop(data, pos, text, Malformed);
  }

  lemma BlockRead(data: string, pos: nat, text: string, trailers: Trailers, block: string) returns (out: Reading)
    requires pos <= |data| && block == EncodeTrailers(trailers) && data[pos..] == block
    ensures Tail(data, pos, text, out) && (out == Done(text, |data|) <==> Proper(trailers))
  {
    assert block + "" == block;
    StartsAt(data, pos, block, "");
    out := TrailersRead(data, pos, text, trailers, |data|, Proper(trailers));
  }

  lemma RestRead(data: string, pos: nat, text: string, after: seq<Call>) returns (out: Reading)
    requires pos <= |data| && data[pos..] == Rest(after)
    ensures Tail(data, pos, text, out) && Expected(out, after, text, |data|)
  {
    var block := if |TrailersOf(after)| == 0 then "" else EncodeTrailers(TrailersOf(after));
    if !OnlyTrailers(after) {
      var s, n, more := AddsNumeral(after);
      NumeralRead(data, pos, text, s, n, more, block);
      out := Malformed;
    } else {
      AddsNothing(after);
      assert "" + block == block;
      if |TrailersOf(after)| == 0 {
        NothingMore(data, text);
        out := Waiting;
      } else {
        out := BlockRead(data, pos, text, TrailersOf(after), block);
      }
    }
  }

  lemma StartsAt(data: string, pos: nat, front: string, more: string)
    requires pos <= |data| && data[pos..] == front + more
    ensures Matches(data, front, pos) && |data| == pos + |front| + |more|
  {
    assert data[pos..pos + |front|] == data[pos..][..|front|] == front;
  }

  /** Frames, a last chunk and a rest stand there, to the end; used only where the key is turned. */
  ghost predicate Laid(data: string, pos: nat, f: string, rest: string) {
    forall key {:trigger Unfold(key)} :: Unfold(key) ==>
      Matches(data, f, pos) && Matches(data, "0" + CRLF, pos + |f|) && pos + |f| + 3 <= |data| && data[pos + |f| + 3..] == rest
  }

  lemma HeldParts(data: string, hdr: string, f: string, rest: string, sent: string)
    requires sent == f + ("0" + CRLF) + rest && data == hdr + sent
    ensures Laid(data, |hdr|, f, rest)
  {
    var z := "0" + CRLF;
    Assoc(hdr, f + z, rest);
    Assoc(hdr, f, z);
    assert data == hdr + f + z + rest;
  }

  lemma IsLaid(data: string, pos: nat, f: string, rest: string)
    requires Laid(data, pos, f, rest)
    ensures Matches(data, f, pos) && Matches(data, "0" + CRLF, pos + |f|) && pos + |f| + 3 <= |data| && data[pos + |f| + 3..] == rest
  {
    assert Unfold(true);
  }

  /** The same behind a header. */
  lemma BufferedReadingAt(hdr: string, before: seq<Call>, after: seq<Call>, body: string)
    requires NoEnd(before)
    ensures var data := hdr + BodySent(Perform(NOTHING, before + [End] + after), body);
            Expected(ReadChunked(data, |hdr|, ""), after, Concat(Writes(before)), |data|)
  {
    var sent := BodySent(Perform(NOTHING, before + [End] + after), body);
    SentForm(before, after, body);
    HeldParts(hdr + sent, hdr, Frames(Writes(before)), Rest(after), sent);
    PartsRead(hdr + sent, |hdr|, Writes(before), Frames(Writes(before)), Concat(Writes(before)), after);
  }

  lemma PartsRead(data: string, pos: nat, chunks: seq<string>, f: string, text: string, after: seq<Call>)
    requires f == Frames(chunks) && text == Concat(chunks) && Laid(data, pos, f, Rest(after)) && pos <= |data|
    ensures Expected(ReadChunked(data, pos, ""), after, text, |data|)
  {
    IsLaid(data, pos, f, Rest(after));
    var out := RestRead(data, pos + |f| + 3, text, after);
    FramesThenZero(data, pos, chunks, f, text, out);
    IsOut(data, pos, out);
  }

  lemma IsOut(data: string, pos: nat, out: Reading)
    requires ResponseReader.Chunks(data, pos, "", out)
    ensures ReadChunked(data, pos, "") == out
  {
    assert Turned(true, pos);
  }

  /** For every sequence of calls with an `end_chunks` in it, `before` being what precedes the first, the reader's
      verdict is fixed by what follows it: malformed if that is anything but trailers and empty writes; otherwise
      waiting for an empty line that never comes if there is no trailer; otherwise complete, with nothing left over,
      exactly if the trailers are fields. */
  lemma BufferedReading(before: seq<Call>, after: seq<Call>, body: string)
    requires NoEnd(before)
    ensures var data := BodySent(Perform(NOTHING, before + [End] + after), body);
            Expected(ReadChunked(data, 0, ""), after, Concat(Writes(before)), |data|)
  {
    BufferedReadingAt("", before, after, body);
    NothingBefore(BodySent(Perform(NOTHING, before + [End] + after), body));
  }

  lemma {:induction false} WritesAppend(a: seq<Call>, b: seq<Call>)
    ensures Concat(Writes(a + b)) == Concat(Writes(a)) + Concat(Writes(b))
  {
    if a == [] {
      assert a + b == b;
    } else {
      assert (a + b)[1..] == a[1..] + b;
      WritesAppend(a[1..], b);
    }
  }

  lemma WholeIff(out: Reading, after: seq<Call>, text: string, all: string, end: nat)
    requires Expected(out, after, text, end) && (OnlyTrailers(after) ==> all == text)
    ensures out == Done(all, end) <==> OnlyTrailers(after) && |TrailersOf(after)| > 0 && Proper(TrailersOf(after))
  {
  }

  lemma AllWritten(before: seq<Call>, after: seq<Call>)
    requires OnlyTrailers(after)
    ensures Concat(Writes(before + [End] + after)) == Concat(Writes(before))
  {
    WritesAppend(before + [End], after);
    WritesAppend(before, [End]);
    AddsNothing(after);
  }

  /** Everything that was written reaches the reader, complete and with nothing left over, exactly if what follows the
      first `end_chunks` are trailers, at least one and all of them fields, and empty writes. */
  lemma WholeResponseIff(before: seq<Call>, after: seq<Call>, body: string)
    requires NoEnd(before)
    ensures var calls := before + [End] + after;
            var data := BodySent(Perform(NOTHING, calls), body);
            var whole := ReadChunked(data, 0, "") == Done(Concat(Writes(calls)), |data|);
            whole <==> OnlyTrailers(after) && |TrailersOf(after)| > 0 && Proper(TrailersOf(after))
  {
    var calls := before + [End] + after;
    var data := BodySent(Perform(NOTHING, calls), body);
    BufferedReading(before, after, body);
    if OnlyTrailers(after) { AllWritten(before, after); }
    WholeIff(ReadChunked(data, 0, ""), after, Concat(Writes(before)), Concat(Writes(calls)), |data|);
  }

  /** The documented use without trailers: the reader waits for ever. */
  lemma NoTrailerWaits(before: seq<Call>, body: string)
    requires NoEnd(before)
    ensures ReadChunked(BodySent(Perform(NOTHING, before + [End]), body), 0, "") == Waiting
  {
    assert before + [End] + [] == before + [End];
    BufferedReading(before, [], body);
  }
}
