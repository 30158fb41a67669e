/** Chunked framing: what the response encoder writes, the parser's chunk loop reads back. */
module ChunkCodec {
  import opened Text
  import opened HttpParser
  import opened ParserProperties

  const HEX_DIGITS := "0123456789abcdef"

  /** The numeral that the conversion `%zx` prints. */
  function Hex(n: nat): (s: string)
    ensures s != ""
  {
    if n < 16 then [HEX_DIGITS[n]] else Hex(n / 16) + [HEX_DIGITS[n % 16]]
  }

  function Frame(data: string): string {
    Hex(|data|) + CRLF + data + CRLF
  }

  /** The frames of a sequence of writes; an empty write leaves no frame. */
  function Frames(chunks: seq<string>): string {
    if chunks == [] then ""
    else if chunks[0] == "" then Frames(chunks[1..])
    else Frame(chunks[0]) + Frames(chunks[1..])
  }

  const LAST := "0" + CRLF + CRLF

  lemma {:induction false} HexRoundTrip(n: nat)
    ensures IsHex(Hex(n)) && HexValue(Hex(n)) == n
    ensures forall i :: 0 <= i < |Hex(n)| ==> Hex(n)[i] in HEX_DIGITS
  {
    DigitValue(n % 16);
    var s := Hex(n);
    if n < 16 {
      assert s[..0] == "";
    } else {
      HexRoundTrip(n / 16);
      assert s[..|s| - 1] == Hex(n / 16);
    }
  }

  lemma DigitValue(d: nat)
    requires d < 16
    ensures HexDigit(HEX_DIGITS[d]) == d
  {
  }

  // ---------- Locating text in a buffer ----------

  lemma SplitMatch(s: string, a: string, b: string, k: nat)
    ensures Matches(s, a + b, k) <==> Matches(s, a, k) && Matches(s, b, k + |a|)
  {
    if k + |a| + |b| <= |s| {
      var m := s[k..k + |a| + |b|];
      assert m[..|a|] == s[k..k + |a|] && m[|a|..] == s[k + |a|..k + |a| + |b|];
      assert m == m[..|a|] + m[|a|..];
      assert (a + b)[..|a|] == a && (a + b)[|a|..] == b;
    }
  }

  lemma MatchAt(s: string, p: string, k: nat, i: nat)
    requires Matches(s, p, k) && i < |p|
    ensures s[k + i] == p[i]
  {
    assert s[k..k + |p|][i] == s[k + i];
  }

  /** The first line break after a text that has no carriage return. */
  lemma FirstCrlf(data: string, line: string, pos: nat)
    requires Matches(data, line + CRLF, pos) && '\r' !in line
    ensures IndexOf(data, CRLF, pos) == Some(pos + |line|)
  {
    SplitMatch(data, line, CRLF, pos);
    forall k: nat | pos <= k < pos + |line| ensures !Matches(data, CRLF, k) {
      MatchAt(data, line, pos, k - pos);
      if Matches(data, CRLF, k) { MatchAt(data, CRLF, k, 0); }
    }
    IndexOfIs(data, CRLF, pos, pos + |line|);
  }

  // ---------- Decoding ----------

  ghost predicate Numeral(s: string, n: nat) {
    forall key {:trigger Unfold(key)} :: Unfold(key) ==> '\r' !in s && SizeToken(s) == s && ReadSize(s, 0) == Size(n)
  }

  /** The chunk loop, from this state and position, ends with this outcome. */
  ghost predicate Yields(data: string, p: Parser, pos: nat, out: Outcome) {
    && p.state in {ChunkSize, ChunkData, ChunkDataEnd}
    && pos <= |data|
    && forall key {:trigger Unfold(key)} :: Unfold(key) ==> Chunks(data, p, pos) == out
  }

  lemma HexIsNumeral(n: nat)
    requires n <= MAX_BODY_SIZE
    ensures Numeral(Hex(n), n)
  {
    HexRoundTrip(n);
    var s := Hex(n);
    SizeIsHexValue(s, n);
    NoSemicolon(s);
  }

  lemma NoSemicolon(s: string)
    requires forall i :: 0 <= i < |s| ==> s[i] in HEX_DIGITS
    ensures SizeToken(s) == s
  {
    forall k: nat ensures !Matches(s, ";", k) {
      if k < |s| { assert s[k..k + 1] == [s[k]]; }
    }
  }

  lemma YieldsMore(data: string, p: Parser, pos: nat, q: Parser, next: nat, out: Outcome)
    requires p.state in {ChunkSize, ChunkData, ChunkDataEnd} && pos <= |data|
    requires StepChunk(data, p, pos) == More(q, next) && Yields(data, q, next, out)
    ensures Yields(data, p, pos, out)
  {
    assert Unfold(true);
  }

  /** The size line of a frame. */
  lemma ReadsSize(data: string, p: Parser, pos: nat, s: string, q: Parser, next: nat, out: Outcome)
    requires p.state == ChunkSize && 0 < q.chunkRemaining && |p.chunkBody| + q.chunkRemaining <= MAX_BODY_SIZE
    requires Matches(data, s + CRLF, pos) && Numeral(s, q.chunkRemaining)
    requires q == p.(chunkRemaining := q.chunkRemaining, state := ChunkData) && next == pos + |s| + 2 && Yields(data, q, next, out)
    ensures Yields(data, p, pos, out)
  {
    assert Unfold(true);
    FirstCrlf(data, s, pos);
    SplitMatch(data, s, CRLF, pos);
    assert data[pos..pos + |s|] == s;
  }

  lemma ReadsData(data: string, p: Parser, pos: nat, chunk: string, out: Outcome)
    requires p.state == ChunkData && p.chunkRemaining == |chunk| && Matches(data, chunk, pos)
    requires Yields(data, p.(chunkBody := p.chunkBody + chunk, chunkRemaining := 0, state := ChunkDataEnd), pos + |chunk|, out)
    ensures Yields(data, p, pos, out)
  {
    YieldsMore(data, p, pos, p.(chunkBody := p.chunkBody + chunk, chunkRemaining := 0, state := ChunkDataEnd), pos + |chunk|, out);
  }

  lemma ReadsEnd(data: string, p: Parser, pos: nat, out: Outcome)
    requires p.state == ChunkDataEnd && Matches(data, CRLF, pos)
    requires Yields(data, p.(state := ChunkSize), pos + 2, out)
    ensures Yields(data, p, pos, out)
  {
    YieldsMore(data, p, pos, p.(state := ChunkSize), pos + 2, out);
  }

  lemma FrameParts(data: string, pos: nat, s: string, chunk: string)
    requires Matches(data, s + CRLF + chunk + CRLF, pos)
    ensures Matches(data, s + CRLF, pos) && Matches(data, chunk, pos + |s| + 2) && Matches(data, CRLF, pos + |s| + 2 + |chunk|)
  {
    assert s + CRLF + chunk + CRLF == (s + CRLF) + (chunk + CRLF);
    SplitMatch(data, s + CRLF, chunk + CRLF, pos);
    SplitMatch(data, chunk, CRLF, pos + |s| + 2);
  }

  /** The data of a chunk and the line break after it. */
  lemma ReadsRest(data: string, p: Parser, pos: nat, chunk: string, q: Parser, next: nat, out: Outcome)
    requires p.state == ChunkData && p.chunkRemaining == |chunk|
    requires Matches(data, chunk, pos) && Matches(data, CRLF, pos + |chunk|)
    requires q == p.(chunkBody := p.chunkBody + chunk, chunkRemaining := 0, state := ChunkSize)
    requires next == pos + |chunk| + 2 && Yields(data, q, next, out)
    ensures Yields(data, p, pos, out)
  {
    ReadsEnd(data, q.(state := ChunkDataEnd), pos + |chunk|, out);
    ReadsData(data, p, pos, chunk, out);
  }

  /** A whole frame adds its data to the body. */
  lemma ReadsFrame(data: string, p: Parser, pos: nat, s: string, chunk: string, q: Parser, next: nat, out: Outcome)
    requires p.state == ChunkSize && chunk != "" && |p.chunkBody| + |chunk| <= MAX_BODY_SIZE
    requires Numeral(s, |chunk|) && Matches(data, s + CRLF + chunk + CRLF, pos)
    requires q == p.(chunkBody := p.chunkBody + chunk, chunkRemaining := 0)
    requires next == pos + |s| + 2 + |chunk| + 2 && Yields(data, q, next, out)
    ensures Yields(data, p, pos, out)
  {
    FrameParts(data, pos, s, chunk);
    var p1, at := p.(chunkRemaining := |chunk|, state := ChunkData), pos + |s| + 2;
    ReadsRest(data, p1, at, chunk, q, next, out);
    ReadsSize(data, p, pos, s, p1, at, out);
  }

  /** A size line of zero: what follows it decides. */
  lemma ReadsZero(data: string, p: Parser, pos: nat, s: string, out: Outcome)
    requires p.state == ChunkSize && Matches(data, s + CRLF, pos) && Numeral(s, 0)
    requires pos + |s| + 2 <= |data| && out == LastChunk(data, p.(chunkRemaining := 0), pos + |s| + 2)
    ensures Yields(data, p, pos, out)
  {
    assert Unfold(true);
    FirstCrlf(data, s, pos);
    SplitMatch(data, s, CRLF, pos);
    assert data[pos..pos + |s|] == s;
  }

  lemma ZeroLine(data: string, pos: nat)
    requires Matches(data, "0" + CRLF, pos)
    ensures Numeral("0", 0) && pos + 3 <= |data|
  {
    assert Hex(0) == "0";
    HexIsNumeral(0);
  }

  lemma ReadsLast(data: string, p: Parser, pos: nat)
    requires p.state == ChunkSize && Matches(data, LAST, pos)
    ensures Yields(data, p, pos, Decoded(p, "", pos + |LAST|))
  {
    assert LAST == ("0" + CRLF) + ("" + CRLF);
    SplitMatch(data, "0" + CRLF, "" + CRLF, pos);
    FirstCrlf(data, "", pos + 3);
    ZeroLine(data, pos);
    assert p.chunkBody + "" == p.chunkBody;
    ReadsZero(data, p, pos, "0", Decoded(p, "", pos + 5));
  }

  /** The completed parser after `text` has been added to the body. */
  function Decoded(p: Parser, text: string, end: nat): Outcome {
    var body := p.chunkBody + text;
    Outcome(p.(chunkRemaining := 0, chunkBody := body, req := p.req.(body := body), state := Complete), Some(end))
  }

  /** The parser once the frames of these writes have been read. */
  function After(p: Parser, chunks: seq<string>): Parser
    decreases |chunks|
  {
    if chunks == [] then p
    else if chunks[0] == "" then After(p, chunks[1..])
    else After(p.(chunkBody := p.chunkBody + chunks[0], chunkRemaining := 0), chunks[1..])
  }

  lemma {:induction false} AfterBody(p: Parser, chunks: seq<string>)
    ensures var q := After(p, chunks); q == p.(chunkBody := p.chunkBody + Concat(chunks), chunkRemaining := q.chunkRemaining)
    decreases |chunks|
  {
    if chunks == [] {
      assert p.chunkBody + "" == p.chunkBody;
    } else {
      var q := if chunks[0] == "" then p else p.(chunkBody := p.chunkBody + chunks[0], chunkRemaining := 0);
      AfterBody(q, chunks[1..]);
      assert p.chunkBody + chunks[0] + Concat(chunks[1..]) == p.chunkBody + Concat(chunks);
    }
  }

  /** The first frame and what the frames behind it start from. */
  lemma FirstFrame(data: string, p: Parser, pos: nat, chunks: seq<string>) returns (s: string, q: Parser, next: nat)
    requires chunks != [] && chunks[0] != "" && |p.chunkBody| + |Concat(chunks)| <= MAX_BODY_SIZE && Matches(data, Frames(chunks), pos)
    ensures Numeral(s, |chunks[0]|) && Matches(data, s + CRLF + chunks[0] + CRLF, pos)
    ensures q == p.(chunkBody := p.chunkBody + chunks[0], chunkRemaining := 0) && next == pos + |s| + 2 + |chunks[0]| + 2
    ensures Matches(data, Frames(chunks[1..]), next) && |q.chunkBody| + |Concat(chunks[1..])| <= MAX_BODY_SIZE
    ensures After(p, chunks) == After(q, chunks[1..]) && pos + |Frames(chunks)| == next + |Frames(chunks[1..])|
  {
    var c := chunks[0];
    s := Hex(|c|);
    q := p.(chunkBody := p.chunkBody + c, chunkRemaining := 0);
    next := pos + |s| + 2 + |c| + 2;
    HexIsNumeral(|c|);
    SplitMatch(data, Frame(c), Frames(chunks[1..]), pos);
  }

  /** Frames add up to the concatenation of what was written, whatever stands behind them. */
  lemma {:induction false} ReadsFrames(data: string, p: Parser, pos: nat, chunks: seq<string>, end: nat, out: Outcome)
    requires p.state == ChunkSize && |p.chunkBody| + |Concat(chunks)| <= MAX_BODY_SIZE
    requires Matches(data, Frames(chunks), pos) && end == pos + |Frames(chunks)| && Yields(data, After(p, chunks), end, out)
    ensures Yields(data, p, pos, out)
    decreases |chunks|
  {
    if chunks == [] {
    } else if chunks[0] == "" {
      ReadsFrames(data, p, pos, chunks[1..], end, out);
    } else {
      var s, q, next := FirstFrame(data, p, pos, chunks);
      ReadsFrames(data, q, next, chunks[1..], end, out);
      ReadsFrame(data, p, pos, s, chunks[0], q, next, out);
    }
  }

  lemma EndsWithLast(data: string, p: Parser, q: Parser, text: string, end: nat, out: Outcome)
    requires q == p.(chunkBody := p.chunkBody + text, chunkRemaining := q.chunkRemaining)
    requires p.state == ChunkSize && Matches(data, LAST, end) && out == Decoded(p, text, end + |LAST|)
    ensures Yields(data, q, end, out)
  {
    assert q.chunkBody + "" == q.chunkBody;
    ReadsLast(data, q, end);
  }

  lemma FramesYield(data: string, p: Parser, pos: nat, chunks: seq<string>, out: Outcome)
    requires p.state == ChunkSize && |p.chunkBody| + |Concat(chunks)| <= MAX_BODY_SIZE
    requires Matches(data, Frames(chunks) + LAST, pos)
    requires out == Decoded(p, Concat(chunks), pos + |Frames(chunks)| + |LAST|)
    ensures Yields(data, p, pos, out)
  {
    var end := pos + |Frames(chunks)|;
    SplitMatch(data, Frames(chunks), LAST, pos);
    AfterBody(p, chunks);
    EndsWithLast(data, p, After(p, chunks), Concat(chunks), end, out);
    ReadsFrames(data, p, pos, chunks, end, out);
  }

  /** Round trip: frames closed by the last chunk decode to the concatenation of what was written, and
      the loop stops exactly behind them, whatever follows. */
  lemma DecodesFrames(data: string, p: Parser, pos: nat, chunks: seq<string>)
    requires p.state == ChunkSize && |p.chunkBody| + |Concat(chunks)| <= MAX_BODY_SIZE
    requires Matches(data, Frames(chunks) + LAST, pos)
    ensures Chunks(data, p, pos) == Decoded(p, Concat(chunks), pos + |Frames(chunks)| + |LAST|)
  {
    FramesYield(data, p, pos, chunks, Decoded(p, Concat(chunks), pos + |Frames(chunks)| + |LAST|));
    assert Unfold(true);
  }
}
