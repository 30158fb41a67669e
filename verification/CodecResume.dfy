/** `Http1Codec::decode`: one parser, fed one buffer after the other, with nothing kept of a buffer in which no request
    ended. */
module CodecResume {
  import opened Text
  import opened HttpParser
  import opened ParserProperties
  import opened ParserResume
  import ParserObject

  predicate Zeros(s: string) { forall i :: 0 <= i < |s| ==> s[i] == '0' }

  /** Nothing that matters is dropped: everything was consumed, or all that was not are leading zeros of a chunk size. */
  predicate NothingDropped(a: string)
    requires !Verdict(Parse(FRESH, a).p.state)
  {
    Unread(a) == "" || (Parse(FRESH, a).p.state == ChunkSize && Zeros(Unread(a)))
  }

  /** Two continuations compared through the whole. */
  lemma Compare(whole: Outcome, x: Outcome, y: Outcome, n: nat, m: nat)
    requires SameVerdict(whole, x, n)
    ensures SameVerdict(whole, y, n + m) <==> SameVerdict(x, y, m)
  {
  }

  /** Dropping the unread bytes of a resumable beginning is compared with keeping them. */
  lemma DropsLike(a: string, b: string, p: Parser, r: string)
    requires !Verdict(Parse(FRESH, a).p.state) && Resumable(a) && p == Parse(FRESH, a).p && r == Unread(a)
    ensures GoesOn(a, "", b) <==> SameVerdict(Parse(p, r + b), Parse(p, b), |r|)
  {
    ResumableResumes(a, b);
    assert "" + b == b;
    Compare(Parse(FRESH, a + b), Parse(p, r + b), Parse(p, b), |a| - |r|, |r|);
  }

  // ---------- A body cut in two ----------

  lemma BodyParse(p: Parser, s: string)
    requires p.state == Body
    ensures Parse(p, s) == FixedBody(s, p, 0)
  {
    StartsThere(p, s);
  }

  lemma BodyDropped(p: Parser, r: string) returns (b: string)
    requires p.state == Body && r != "" && !Verdict(Parse(p, r).p.state)
    ensures !SameVerdict(Parse(p, r + b), Parse(p, b), |r|)
  {
    BodyParse(p, r);
    b := Fill(p.bodyLength - |r|);
    BodyParse(p, r + b);
    BodyParse(p, b);
  }

  // ---------- A size line cut in two ----------

  lemma SizeParse(p: Parser, s: string)
    requires p.state == ChunkSize
    ensures Parse(p, s) == Chunks(s, p, 0)
  {
    StartsThere(p, s);
  }

  lemma SkipIndex(z: string, pat: string, n: nat)
    requires forall k: nat :: k < n ==> !Matches(z, pat, k)
    ensures IndexOf(z, pat, 0) == IndexOf(z, pat, n)
  {
    match IndexOf(z, pat, n)
    case Some(v) => IndexOfIs(z, pat, 0, v);
    case None => forall k: nat ensures !Matches(z, pat, k) { if k < n { assert !Matches(z, pat, k); } }
  }

  /** What is looked for does not begin with a zero: it is found where it is found without the zeros. */
  lemma BehindZeros(r: string, s: string, pat: string)
    requires Zeros(r) && pat != "" && pat[0] != '0'
    ensures IndexOf(r + s, pat, 0) == match IndexOf(s, pat, 0) case None => None case Some(v) => Some(|r| + v)
  {
    var z := r + s;
    assert z[|r|..] == s;
    forall k: nat | k < |r| ensures !Matches(z, pat, k) {
      assert k + |pat| <= |z| ==> z[k..k + |pat|][0] == r[k];
    }
    SkipIndex(z, pat, |r|);
    IndexBehind(z, |r|, s, pat, 0);
  }

  lemma {:induction false} ReadZeros(r: string, tok: string)
    requires Zeros(r)
    ensures ReadSize(r + tok, 0) == ReadSize(tok, 0)
    decreases |r|
  {
    if r == "" {
      assert "" + tok == tok;
    } else {
      assert (r + tok)[0] == '0' && (r + tok)[1..] == r[1..] + tok;
      ReadZeros(r[1..], tok);
    }
  }

  lemma TokenBehindZeros(r: string, line: string)
    requires Zeros(r)
    ensures ReadSize(SizeToken(r + line), 0) == ReadSize(SizeToken(line), 0)
  {
    BehindZeros(r, line, ";");
    assert SizeToken(r + line) == r + SizeToken(line);
    ReadZeros(r, SizeToken(line));
  }

  lemma FirstStepAt(z: string, n: nat, b: string, p: Parser, eol: nat, long: string, step: ChunkStep)
    requires p.state == ChunkSize && n <= |z| && z[n..] == b && eol + 2 <= |b| && IndexOf(z, CRLF, 0) == Some(n + eol)
    requires z[0..n + eol] == long && SizeLine(b, p, long, eol + 2) == step
    ensures StepChunk(z, p, 0) == Later(step, n)
  {
    SizeBehindAt(z, n, b, p, 0, eol, long, step);
  }

  lemma FirstStep(r: string, b: string, p: Parser, eol: nat, step: ChunkStep)
    requires Zeros(r) && p.state == ChunkSize && IndexOf(b, CRLF, 0) == Some(eol) && step == SizeLine(b, p, b[..eol], eol + 2)
    ensures StepChunk(b, p, 0) == step && StepChunk(r + b, p, 0) == Later(step, |r|)
  {
    var line := b[..eol];
    assert (r + b)[|r|..] == b && b[0..eol] == line && (r + b)[0..|r| + eol] == r + line;
    BehindZeros(r, b, CRLF);
    SizeStepIs(b, p, 0, eol, line, step);
    TokenBehindZeros(r, line);
    SameLine(b, p, r + line, line, eol + 2);
    FirstStepAt(r + b, |r|, b, p, eol, r + line, step);
  }

  /** Only the value of a size line matters. */
  lemma SameLine(data: string, p: Parser, x: string, y: string, next: nat)
    requires p.state == ChunkSize && next <= |data| && ReadSize(SizeToken(x), 0) == ReadSize(SizeToken(y), 0)
    ensures SizeLine(data, p, x, next) == SizeLine(data, p, y, next)
  {
  }

  lemma ChunksReturn(data: string, p: Parser, pos: nat, out: Outcome)
    requires Turning(p, pos, data) && StepChunk(data, p, pos) == Return(out)
    ensures Chunks(data, p, pos) == out
  {
  }

  lemma ChunksMore(data: string, p: Parser, pos: nat, q: Parser, next: nat)
    requires Turning(p, pos, data) && StepChunk(data, p, pos) == More(q, next)
    ensures Chunks(data, p, pos) == Chunks(data, q, next)
  {
  }

  lemma LaterSame(x: Outcome, y: Outcome, n: nat)
    requires x == LaterOut(y, n) && (y.p.state == Complete ==> y.consumed.Some?)
    ensures SameVerdict(x, y, n)
  {
  }

  /** Two loops whose first turns differ by the offset only. */
  lemma LoopsJoin(tz: Turn, n: nat, ty: Turn, data: string, p: Parser, step: ChunkStep, fuel: nat)
    requires TurnsLater(tz, n, ty, data) && fuel > 0 && ty(p, 0) == step && tz(p, 0) == Later(step, n)
    requires step.More? ==> Turning(step.p, step.pos, data)
    ensures Loop(tz, p, 0, fuel) == LaterOut(Loop(ty, p, 0, fuel), n)
  {
    if step.More? { LoopLater(tz, n, ty, data, step.p, step.pos, fuel - 1); }
  }

  lemma ZerosJoin(p: Parser, z: string, n: nat, b: string, step: ChunkStep, tz: Turn, tb: Turn)
    requires p.state == ChunkSize && n <= |z| && z[n..] == b && StepChunk(b, p, 0) == step && StepChunk(z, p, 0) == Later(step, n)
    requires tz == TurnOf(z) && tb == TurnOf(b)
    ensures Chunks(z, p, 0) == LaterOut(Chunks(b, p, 0), n)
  {
    var fuel := TurnsLeft(z, p, 0);
    TurnsBehind(z, n, b, tz, tb);
    ChunksIsLoop(z, p, 0, fuel);
    ChunksIsLoop(b, p, 0, fuel);
    Joined(p, n, b, step, tz, tb, fuel, Chunks(z, p, 0), Chunks(b, p, 0));
  }

  lemma Joined(p: Parser, n: nat, b: string, step: ChunkStep, tz: Turn, tb: Turn, fuel: nat, x: Outcome, y: Outcome)
    requires TurnsLater(tz, n, tb, b) && fuel > 0 && tb(p, 0) == step && tz(p, 0) == Later(step, n)
    requires step.More? ==> Turning(step.p, step.pos, b)
    requires x == Loop(tz, p, 0, fuel) && y == Loop(tb, p, 0, fuel)
    ensures x == LaterOut(y, n)
  {
    LoopsJoin(tz, n, tb, b, p, step, fuel);
  }

  /** Leading zeros do not change a size. */
  lemma ZerosDropped(p: Parser, r: string, b: string)
    requires p.state == ChunkSize && Zeros(r)
    ensures SameVerdict(Chunks(r + b, p, 0), Chunks(b, p, 0), |r|)
  {
    BehindZeros(r, b, CRLF);
    match IndexOf(b, CRLF, 0)
    case None =>
      NoLine(b, p, 0);
      NoLine(r + b, p, 0);
      ChunksReturn(b, p, 0, Outcome(p, Some(0)));
      ChunksReturn(r + b, p, 0, Outcome(p, Some(0)));
    case Some(eol) =>
      var step := SizeLine(b, p, b[..eol], eol + 2);
      FirstStep(r, b, p, eol, step);
      assert (r + b)[|r|..] == b;
      ZerosJoin(p, r + b, |r|, b, step, TurnOf(r + b), TurnOf(b));
      LaterSame(Chunks(r + b, p, 0), Chunks(b, p, 0), |r|);
  }

  // ---------- Other beginnings of a size line ----------

  lemma {:induction false} ZeroSize(tok: string, acc: nat)
    requires acc <= MAX_BODY_SIZE && ReadSize(tok, acc) == Size(0)
    ensures acc == 0 && Zeros(tok)
    decreases |tok|
  {
    if tok != "" {
      ZeroSize(tok[1..], acc * 16 + HexDigit(tok[0]));
      assert tok == [tok[0]] + tok[1..];
    }
  }

  lemma LineOf(r: string, t: string, p: Parser)
    requires p.state == ChunkSize && IndexOf(r, CRLF, 0).None?
    ensures StepChunk(r + CRLF + t, p, 0) == SizeLine(r + CRLF + t, p, r, |r| + 2)
  {
    var z := r + CRLF + t;
    FirstBreak(r, r + CRLF);
    IndexOfExtend(r + CRLF, CRLF, 0, t);
    assert z[0..|r|] == r;
    SizeStepIs(z, p, 0, |r|, r, SizeLine(z, p, r, |r| + 2));
  }

  /** Two empty lines: an empty size line counts as zero, and the body ends. */
  lemma EmptyLinesComplete(p: Parser)
    requires p.state == ChunkSize
    ensures Chunks(CRLF + CRLF, p, 0).p.state == Complete
  {
    var z := "" + CRLF + CRLF;
    assert z == CRLF + CRLF;
    LineOf("", CRLF, p);
    assert z[2..4] == CRLF;
    IndexOfIs(z, CRLF, 2, 2);
    ChunksReturn(z, p, 0, LastChunk(z, p.(chunkRemaining := 0), 2));
  }

  lemma TwoBytesLeft(data: string, q: Parser, pos: nat)
    requires q.state == ChunkData && q.chunkRemaining > 0 && pos + 2 == |data|
    ensures Chunks(data, q, pos).p.state != Complete
  {
    var step := StepChunk(data, q, pos);
    match step
    case Return(out) =>
    case More(q', next) => assert StepChunk(data, q', next).Return?;
  }

  /** A size that is not zero does not end the body. */
  lemma SizeNotZero(p: Parser, r: string)
    requires p.state == ChunkSize && IndexOf(r, CRLF, 0).None? && ReadSize(SizeToken(r), 0) != Size(0)
    ensures Chunks(r + CRLF + CRLF, p, 0).p.state != Complete
  {
    var z := r + CRLF + CRLF;
    LineOf(r, CRLF, p);
    var step := SizeLine(z, p, r, |r| + 2);
    if step.More? {
      ChunksMore(z, p, 0, step.p, step.pos);
      TwoBytesLeft(z, step.p, step.pos);
    }
  }

  lemma BadDigit(p: Parser)
    requires p.state == ChunkSize
    ensures Chunks("g" + CRLF, p, 0).p.state == Error
  {
    var z := "g" + CRLF + "";
    assert z == "g" + CRLF;
    forall k: nat ensures !Matches("g", CRLF, k) {}
    LineOf("g", "", p);
    assert SizeToken("g") == "g" by { assert !Matches("g", ";", 0); }
    assert ReadSize("g", 0) == BadSize(400, 0);
  }

  lemma NoBreakWith(r: string, line: string)
    requires line == r + "g" && IndexOf(r, CRLF, 0).None?
    ensures IndexOf(line, CRLF, 0).None?
  {
    forall k: nat ensures !Matches(line, CRLF, k) {
      if k + 2 <= |r| {
        assert !Matches(r, CRLF, k);
        SliceExtend(r, "g", k, k + 2);
      } else if k + 2 == |line| {
        assert line[k..k + 2][1] == 'g';
      }
    }
  }

  /** Behind a semicolon anything may follow. */
  lemma InExtension(p: Parser, r: string)
    requires p.state == ChunkSize && IndexOf(r, CRLF, 0).None? && IndexOf(r, ";", 0).Some? && ReadSize(SizeToken(r), 0) == Size(0)
    ensures !Verdict(Chunks(r + ("g" + CRLF), p, 0).p.state)
  {
    var line := r + "g";
    var z := line + CRLF + "";
    assert z == r + ("g" + CRLF);
    NoBreakWith(r, line);
    LineOf(line, "", p);
    IndexOfExtend(r, ";", 0, "g");
    var semi := IndexOf(r, ";", 0).value;
    assert line[..semi] == r[..semi];
    assert IndexOf(z, CRLF, |z|).None?;
    ChunksReturn(z, p, 0, LastChunk(z, p.(chunkRemaining := 0), |z|));
  }

  lemma SizeDropped(p: Parser, r: string) returns (b: string)
    requires p.state == ChunkSize && IndexOf(r, CRLF, 0).None? && !Zeros(r)
    ensures !SameVerdict(Chunks(r + b, p, 0), Chunks(b, p, 0), |r|)
  {
    if ReadSize(SizeToken(r), 0) == Size(0) {
      if IndexOf(r, ";", 0).None? { ZeroSize(r, 0); }
      b := "g" + CRLF;
      InExtension(p, r);
      BadDigit(p);
    } else {
      b := CRLF + CRLF;
      assert r + CRLF + CRLF == r + (CRLF + CRLF);
      SizeNotZero(p, r);
      EmptyLinesComplete(p);
    }
  }

  // ---------- The codec ----------

  lemma UnreadLine(a: string)
    requires !Verdict(Parse(FRESH, a).p.state) && Parse(FRESH, a).p.state == ChunkSize && !BehindLast(a)
    ensures IndexOf(Unread(a), CRLF, 0).None?
  {
    EmptyLineSeen(a);
    var c := Stops(a);
    var (q, n) := LastTurn(a, c.p, c.pos);
    Longer(a, "", c, q, n);
    NoLine(a, q, n);
    IndexBehind(a, n, a[n..], CRLF, 0);
  }

  lemma NoVerdictYet(a: string, p: Parser, r: string)
    requires !Verdict(Parse(FRESH, a).p.state) && Resumable(a) && p == Parse(FRESH, a).p && r == Unread(a)
    ensures !Verdict(Parse(p, r).p.state)
  {
    ResumableResumes(a, "");
    assert a + "" == a && r + "" == r;
  }

  lemma NothingLost(a: string, b: string)
    requires !Verdict(Parse(FRESH, a).p.state) && Resumable(a) && NothingDropped(a)
    ensures GoesOn(a, "", b)
  {
    var p, r := Parse(FRESH, a).p, Unread(a);
    DropsLike(a, b, p, r);
    if r == "" {
      assert "" + b == b;
      SameAsItself(Parse(p, b));
    } else {
      SizeParse(p, r + b);
      SizeParse(p, b);
      ZerosDropped(p, r, b);
    }
  }

  lemma SomethingLost(a: string) returns (b: string)
    requires !Verdict(Parse(FRESH, a).p.state) && Resumable(a) && !NothingDropped(a)
    ensures !GoesOn(a, "", b)
  {
    var p, r := Parse(FRESH, a).p, Unread(a);
    assert a != "";
    if p.state == Body {
      NoVerdictYet(a, p, r);
      b := BodyDropped(p, r);
    } else {
      UnreadLine(a);
      b := SizeDropped(p, r);
      SizeParse(p, r + b);
      SizeParse(p, b);
    }
    DropsLike(a, b, p, r);
  }

  /** The codec, given a request in two buffers, says what a parser says of the whole, for every second buffer, exactly if
      the first ended where a parser can be resumed and nothing that matters of it was left unread. */
  lemma CodecGoesOnIff(a: string)
    requires !Verdict(Parse(FRESH, a).p.state)
    ensures (forall b :: GoesOn(a, "", b)) <==> Resumable(a) && NothingDropped(a)
  {
    if !Resumable(a) {
      var b := NotResumable(a, "");
      assert !GoesOn(a, "", b);
    } else if NothingDropped(a) {
      forall b ensures GoesOn(a, "", b) { NothingLost(a, b); }
    } else {
      var b := SomethingLost(a);
      assert !GoesOn(a, "", b);
    }
  }

  // ---------- The object ----------

  /** What `decode` reports. */
  datatype Status = Done(req: Request) | Incomplete | Failed(status: nat)

  function StatusOf(out: Outcome): Status {
    if out.consumed.None? then Failed(out.p.errorStatus) else if out.p.state == Complete then Done(out.p.req) else Incomplete
  }

  lemma SameStatus(whole: Outcome, again: Outcome, n: nat)
    requires SameVerdict(whole, again, n) && (whole.consumed.None? <==> whole.p.state == Error)
    requires again.consumed.None? <==> again.p.state == Error
    ensures StatusOf(whole) == StatusOf(again)
  {
  }

  class Http1Codec {
    const parser: ParserObject.ParserState

    constructor ()
      ensures fresh(parser) && parser.View() == FRESH
    {
      parser := new ParserObject.ParserState();
    }

    /** `decode`: what is left of the buffer is what lies behind a complete request; an incomplete one is dropped. */
    method Decode(buf: string) returns (status: Status, rest: string)
      modifies parser
      ensures buf == "" ==> status == Incomplete && rest == "" && parser.View() == old(parser.View())
      ensures buf != "" ==>
                var out := Parse(old(parser.View()), buf);
                && parser.View() == out.p && status == StatusOf(out)
                && rest == if status.Done? then buf[out.consumed.value..] else if status.Failed? then buf else ""
    {
      if buf == "" {
        return Incomplete, buf;
      }
      var consumed := parser.Parse(buf);
      if consumed.None? {
        return Failed(parser.errorStatus), buf;
      }
      if parser.state != Complete {
        return Incomplete, "";
      }
      return Done(parser.req), buf[consumed.value..];
    }
  }

  /** A request that comes in two buffers: where a parser can be resumed and nothing that matters was left unread, the
      codec reports what a parser says of the whole. */
  method DecodeTwo(a: string, b: string) returns (status: Status)
    requires b != "" && !Verdict(Parse(FRESH, a).p.state)
    ensures Resumable(a) && NothingDropped(a) ==> status == StatusOf(Parse(FRESH, a + b))
  {
    var codec := new Http1Codec();
    if a == "" { EmptyStop(); }
    var first, rest := codec.Decode(a);
    assert codec.parser.View() == Parse(FRESH, a).p;
    status, rest := codec.Decode(b);
    if Resumable(a) && NothingDropped(a) {
      NothingLost(a, b);
      assert "" + b == b;
      SameStatus(Parse(FRESH, a + b), Parse(Parse(FRESH, a).p, b), |a|);
    }
  }
}
