/** Feeding one parser in pieces: after which beginnings of a request it goes on as if it had seen the whole. */
module ParserResume {
  import opened Text
  import opened HttpParser
  import opened ParserProperties
  import opened ChunkCodec
  import RequestRoundTrip

  /** The same verdict or none: the same request ending at the same byte, or the same error status. The second
      parser was given what lies behind the first `n` bytes. */
  predicate SameVerdict(whole: Outcome, again: Outcome, n: nat) {
    Verdict(whole.p.state) || Verdict(again.p.state) ==>
      && whole.p.state == again.p.state
      && (whole.p.state == Error ==> whole.p.errorStatus == again.p.errorStatus)
      && (whole.p.state == Complete ==>
            whole.p.req == again.p.req && whole.consumed.Some? && again.consumed.Some? && whole.consumed.value == n + again.consumed.value)
  }

  /** A fresh parser reads `a` without a verdict. Given `kept`, an end of `a`, and then `b`, it says what a fresh
      parser says of `a` and `b` together. */
  predicate GoesOn(a: string, kept: string, b: string)
    requires |kept| <= |a|
  {
    SameVerdict(Parse(FRESH, a + b), Parse(Parse(FRESH, a).p, kept + b), |a| - |kept|)
  }

  /** What the parser has not counted as consumed. */
  function Unread(a: string): (r: string)
    requires !Verdict(Parse(FRESH, a).p.state)
    ensures |r| <= |a|
  {
    a[Parse(FRESH, a).consumed.value..]
  }

  /** The caller keeps what was not consumed. */
  predicate Resumes(a: string, b: string)
    requires !Verdict(Parse(FRESH, a).p.state)
  {
    GoesOn(a, Unread(a), b)
  }

  // ---------- Where the chunk loop stops ----------

  /** The parser and position at which the loop makes its last turn. */
  function LastTurn(data: string, p: Parser, pos: nat): (r: (Parser, nat))
    requires p.state in {ChunkSize, ChunkData, ChunkDataEnd} && pos <= |data|
    ensures r.0.state in {ChunkSize, ChunkData, ChunkDataEnd} && pos <= r.1 <= |data|
    ensures StepChunk(data, r.0, r.1) == Return(Chunks(data, p, pos))
    decreases |data| - pos, if p.state == ChunkData then 1 else 0
  {
    match StepChunk(data, p, pos)
    case More(q, next) => LastTurn(data, q, next)
    case Return(_) => (p, pos)
  }

  /** With more bytes the loop gets to the same turn. */
  lemma {:induction false} TurnsAgain(data: string, p: Parser, pos: nat, ext: string, q: Parser, at: nat)
    requires p.state in {ChunkSize, ChunkData, ChunkDataEnd} && pos <= |data| && (q, at) == LastTurn(data, p, pos)
    ensures Chunks(data + ext, p, pos) == Chunks(data + ext, q, at)
    decreases |data| - pos, if p.state == ChunkData then 1 else 0
  {
    match StepChunk(data, p, pos)
    case Return(_) =>
    case More(q', next) =>
      if p.state == ChunkSize { SizeStepExtend(data, p, pos, ext); } else { DataStepExtend(data, p, pos, ext); }
      TurnsAgain(data, q', next, ext, q, at);
  }

  /** The loop has stopped behind a size line: the one of the last chunk. */
  predicate BehindLast(a: string) {
    var c := Scan(a, Cursor(FRESH, 0, 0));
    c.p.state == ChunkSize &&
    var (q, at) := LastTurn(a, c.p, c.pos);
    q.state == ChunkSize && IndexOf(a, CRLF, at).Some?
  }

  /** Nothing has arrived, or the body is awaited, or a size line is. */
  predicate Resumable(a: string) {
    var s := Parse(FRESH, a).p.state;
    a == "" || s == Body || (s == ChunkSize && !BehindLast(a))
  }

  // ---------- Reading behind the first n bytes ----------

  function LaterOut(out: Outcome, n: nat): Outcome {
    if out.consumed.None? then out else out.(consumed := Some(out.consumed.value + n))
  }

  function Later(step: ChunkStep, n: nat): ChunkStep {
    match step case More(p, pos) => More(p, pos + n) case Return(out) => Return(LaterOut(out, n))
  }

  lemma MatchBehind(z: string, n: nat, y: string, pat: string, k: nat)
    requires n <= |z| && z[n..] == y
    ensures Matches(z, pat, n + k) <==> Matches(y, pat, k)
  {
    if k + |pat| <= |y| { SliceBehind(z, n, y, k, k + |pat|); }
  }

  lemma IndexBehind(z: string, n: nat, y: string, pat: string, k: nat)
    requires n <= |z| && z[n..] == y
    ensures IndexOf(z, pat, n + k) == match IndexOf(y, pat, k) case None => None case Some(v) => Some(n + v)
  {
    forall i: nat ensures Matches(z, pat, n + i) <==> Matches(y, pat, i) { MatchBehind(z, n, y, pat, i); }
    match IndexOf(y, pat, k)
    case Some(v) =>
      forall j: nat | n + k <= j < n + v ensures !Matches(z, pat, j) { assert Matches(z, pat, n + (j - n)) <==> Matches(y, pat, j - n); }
      IndexOfIs(z, pat, n + k, n + v);
    case None =>
      forall j: nat | n + k <= j ensures !Matches(z, pat, j) { assert Matches(z, pat, n + (j - n)) <==> Matches(y, pat, j - n); }
  }

  lemma SizeLineBehind(z: string, n: nat, y: string, p: Parser, line: string, next: nat)
    requires n <= |z| && z[n..] == y && p.state == ChunkSize && next <= |y|
    ensures SizeLine(z, p, line, n + next) == Later(SizeLine(y, p, line, next), n)
  {
    IndexBehind(z, n, y, CRLF, next);
  }

  lemma NoLine(data: string, p: Parser, pos: nat)
    requires p.state == ChunkSize && pos <= |data| && IndexOf(data, CRLF, pos).None?
    ensures StepChunk(data, p, pos) == Return(Outcome(p, Some(pos)))
  {
  }

  lemma SizeBehind(z: string, n: nat, y: string, p: Parser, k: nat)
    requires n <= |z| && z[n..] == y && p.state == ChunkSize && k <= |y|
    ensures StepChunk(z, p, n + k) == Later(StepChunk(y, p, k), n)
  {
    IndexBehind(z, n, y, CRLF, k);
    if IndexOf(y, CRLF, k).None? {
      NoLine(y, p, k);
      NoLine(z, p, n + k);
    } else {
      var eol := IndexOf(y, CRLF, k).value;
      var line := y[k..eol];
      var step := SizeLine(y, p, line, eol + 2);
      SizeStepIs(y, p, k, eol, line, step);
      SizeBehindLine(z, n, y, p, k, eol, line, step);
    }
  }

  lemma SizeBehindLine(z: string, n: nat, y: string, p: Parser, k: nat, eol: nat, line: string, step: ChunkStep)
    requires n <= |z| && z[n..] == y && p.state == ChunkSize && k <= eol && eol + 2 <= |y|
    requires IndexOf(z, CRLF, n + k) == Some(n + eol) && line == y[k..eol] && step == SizeLine(y, p, line, eol + 2)
    ensures StepChunk(z, p, n + k) == Later(step, n)
  {
    SliceBehind(z, n, y, k, eol);
    SizeBehindAt(z, n, y, p, n + k, eol, line, step);
  }

  lemma SizeBehindAt(z: string, n: nat, y: string, p: Parser, pos: nat, eol: nat, line: string, step: ChunkStep)
    requires n <= |z| && z[n..] == y && p.state == ChunkSize && pos <= |z| && eol + 2 <= |y|
    requires IndexOf(z, CRLF, pos) == Some(n + eol) && line == z[pos..n + eol] && step == SizeLine(y, p, line, eol + 2)
    ensures StepChunk(z, p, pos) == Later(step, n)
  {
    SizeLineBehind(z, n, y, p, line, eol + 2);
    SizeStepIs(z, p, pos, n + eol, line, Later(step, n));
  }

  lemma DataBehind(z: string, n: nat, y: string, p: Parser, k: nat)
    requires n <= |z| && z[n..] == y && p.state in {ChunkData, ChunkDataEnd} && k <= |y|
    ensures StepChunk(z, p, n + k) == Later(StepChunk(y, p, k), n)
  {
    SliceBehind(z, n, y, k, |y|);
    assert z[n + k..n + |y|] == z[n + k..] && y[k..|y|] == y[k..];
    var m := if p.state == ChunkData then p.chunkRemaining else 2;
    if k + m <= |y| { SliceBehind(z, n, y, k, k + m); }
  }

  predicate Turning(p: Parser, pos: nat, data: string) { p.state in {ChunkSize, ChunkData, ChunkDataEnd} && pos <= |data| }

  type Turn = (Parser, nat) -> ChunkStep

  /** The chunk loop with its turn as a parameter, for at most `fuel` turns. */
  function Loop(turn: Turn, p: Parser, pos: nat, fuel: nat): Outcome
    decreases fuel
  {
    if fuel == 0 then Outcome(FRESH, None)
    else match turn(p, pos) case Return(out) => out case More(q, next) => Loop(turn, q, next, fuel - 1)
  }

  function TurnOf(data: string): Turn {
    (p: Parser, pos: nat) => if Turning(p, pos, data) then StepChunk(data, p, pos) else Return(Outcome(FRESH, None))
  }

  function TurnsLeft(data: string, p: Parser, pos: nat): nat
    requires pos <= |data|
  {
    2 * (|data| - pos) + if p.state == ChunkData then 2 else 1
  }

  lemma {:induction false} ChunksIsLoop(data: string, p: Parser, pos: nat, fuel: nat)
    requires Turning(p, pos, data) && fuel >= TurnsLeft(data, p, pos)
    ensures Chunks(data, p, pos) == Loop(TurnOf(data), p, pos, fuel)
    decreases fuel
  {
    match StepChunk(data, p, pos)
    case Return(_) =>
    case More(q, next) => ChunksIsLoop(data, q, next, fuel - 1);
  }

  /** The turn over `z`, `n` bytes later, is the turn over `y`. */
  ghost predicate TurnsLater(z: Turn, n: nat, y: Turn, data: string) {
    forall p, k: nat {:trigger y(p, k)} :: Turning(p, k, data) ==>
      z(p, n + k) == Later(y(p, k), n) && (y(p, k).More? ==> Turning(y(p, k).p, y(p, k).pos, data))
  }

  lemma {:induction false} LoopLater(z: Turn, n: nat, y: Turn, data: string, p: Parser, k: nat, fuel: nat)
    requires TurnsLater(z, n, y, data) && Turning(p, k, data)
    ensures Loop(z, p, n + k, fuel) == LaterOut(Loop(y, p, k, fuel), n)
    decreases fuel
  {
    if fuel > 0 {
      var step := y(p, k);
      assert z(p, n + k) == Later(step, n);
      if step.More? { LoopLater(z, n, y, data, step.p, step.pos, fuel - 1); }
    }
  }

  lemma TurnBehind(z: string, n: nat, y: string, p: Parser, k: nat)
    requires n <= |z| && z[n..] == y && Turning(p, k, y)
    ensures TurnOf(z)(p, n + k) == Later(TurnOf(y)(p, k), n)
    ensures TurnOf(y)(p, k).More? ==> Turning(TurnOf(y)(p, k).p, TurnOf(y)(p, k).pos, y)
  {
    if p.state == ChunkSize { SizeBehind(z, n, y, p, k); } else { DataBehind(z, n, y, p, k); }
  }

  lemma TurnsBehind(z: string, n: nat, y: string, tz: Turn, ty: Turn)
    requires n <= |z| && z[n..] == y && tz == TurnOf(z) && ty == TurnOf(y)
    ensures TurnsLater(tz, n, ty, y)
  {
    forall p, k: nat | Turning(p, k, y)
      ensures tz(p, n + k) == Later(ty(p, k), n) && (ty(p, k).More? ==> Turning(ty(p, k).p, ty(p, k).pos, y))
    {
      TurnBehind(z, n, y, p, k);
    }
  }

  /** The loop over a buffer reads what stands behind its first `n` bytes as it reads that alone. */
  lemma ChunksBehind(z: string, n: nat, y: string, p: Parser)
    requires n <= |z| && z[n..] == y && Turning(p, 0, y)
    ensures Chunks(z, p, n) == LaterOut(Chunks(y, p, 0), n)
  {
    var fuel := TurnsLeft(y, p, 0);
    TurnsBehind(z, n, y, TurnOf(z), TurnOf(y));
    ChunksIsLoop(y, p, 0, fuel);
    ChunksIsLoop(z, p, n, fuel);
    LoopsAlike(TurnOf(z), n, TurnOf(y), y, p, 0, fuel, Chunks(z, p, n), Chunks(y, p, 0));
  }

  lemma LoopsAlike(tz: Turn, n: nat, ty: Turn, y: string, p: Parser, k: nat, fuel: nat, outZ: Outcome, outY: Outcome)
    requires TurnsLater(tz, n, ty, y) && Turning(p, k, y) && outZ == Loop(tz, p, n + k, fuel) && outY == Loop(ty, p, k, fuel)
    ensures outZ == LaterOut(outY, n)
  {
    LoopLater(tz, n, ty, y, p, k, fuel);
  }

  // ---------- Stops from which it goes on ----------

  /** A parser that awaits a body, or a size line, starts there again. */
  lemma StartsThere(p: Parser, y: string)
    requires p.state == Body || p.state == ChunkSize
    ensures Parse(p, y) == AfterScan(y, Cursor(p, 0, 0))
  {
  }

  /** With the empty line in the buffer, and no more in a header state, the byte loop stops at the same place. */
  lemma SameHead(a: string, b: string, c: Cursor)
    requires IndexOf(a, CRLFCRLF, 0).Some? && c == Scan(a, BEGIN) && !Scanning(c.p.state)
    ensures Parse(FRESH, a) == AfterScan(a, c) && Parse(FRESH, a + b) == AfterScan(a + b, c)
  {
    IndexOfExtend(a, CRLFCRLF, 0, b);
    FreshParse(a);
    FreshParse(a + b);
    ScanExtend(a, BEGIN, b);
  }

  lemma RestIs(a: string, b: string, n: nat)
    requires n <= |a|
    ensures (a + b)[n..] == a[n..] + b
  {}

  lemma BodyResumes(a: string, b: string, c: Cursor)
    requires IndexOf(a, CRLFCRLF, 0).Some? && c == Scan(a, BEGIN) && c.p.state == Body && !Verdict(Parse(FRESH, a).p.state)
    ensures Resumes(a, b)
  {
    SameHead(a, b, c);
    RestIs(a, b, c.start);
    var z, y := a + b, a[c.start..] + b;
    StartsThere(c.p, y);
    if c.p.bodyLength <= |y| { SliceBehind(z, c.start, y, 0, c.p.bodyLength); }
  }

  lemma SizeResumes(a: string, b: string, c: Cursor, q: Parser, n: nat)
    requires IndexOf(a, CRLFCRLF, 0).Some? && c == Scan(a, BEGIN) && c.p.state == ChunkSize && !Verdict(Parse(FRESH, a).p.state)
    requires (q, n) == LastTurn(a, c.p, c.pos) && q.state == ChunkSize && IndexOf(a, CRLF, n).None?
    ensures Resumes(a, b)
  {
    SameHead(a, b, c);
    NoLine(a, q, n);
    RestIs(a, b, n);
    TurnsAgain(a, c.p, c.pos, b, q, n);
    var y := a[n..] + b;
    StartsThere(q, y);
    ChunksBehind(a + b, n, y, q);
  }

  // ---------- Stops inside a chunk ----------

  /** The headers count as complete exactly from the empty line on. */
  lemma {:induction false} ScanHeaders(data: string, c: Cursor)
    requires c.start <= c.pos <= |data| && HeaderState(c.p.state) && !c.p.headersComplete
    ensures var p := Scan(data, c).p; (HeaderState(p.state) ==> !p.headersComplete) && (p.state in {Body, ChunkSize} ==> p.headersComplete)
    decreases |data| - c.pos
  {
    if c.pos < |data| {
      var n := Step(data, c);
      if HeaderState(n.p.state) { ScanHeaders(data, n); }
    }
  }

  lemma {:induction false} TurnsKeepHeaders(data: string, p: Parser, pos: nat)
    requires Turning(p, pos, data)
    ensures LastTurn(data, p, pos).0.headersComplete == p.headersComplete
    decreases |data| - pos, if p.state == ChunkData then 1 else 0
  {
    match StepChunk(data, p, pos)
    case Return(_) =>
    case More(q, next) => TurnsKeepHeaders(data, q, next);
  }

  function Fill(n: nat): (s: string)
    ensures |s| == n && forall i :: 0 <= i < n ==> s[i] == 'x'
  {
    seq(n, _ => 'x')
  }

  /** The loop as it stands at its last turn over `a`, and what a longer buffer makes of it. */
  predicate StoppedAt(a: string, c: Cursor, q: Parser, at: nat) {
    && IndexOf(a, CRLFCRLF, 0).Some? && c == Scan(a, BEGIN) && c.p.state == ChunkSize
    && (q, at) == LastTurn(a, c.p, c.pos) && !Verdict(Parse(FRESH, a).p.state)
  }

  lemma Longer(a: string, b: string, c: Cursor, q: Parser, at: nat)
    requires StoppedAt(a, c, q, at)
    ensures Return(Parse(FRESH, a)) == StepChunk(a, q, at) && Parse(FRESH, a + b) == Chunks(a + b, q, at) && q.headersComplete
  {
    SameHead(a, b, c);
    TurnsAgain(a, c.p, c.pos, b, q, at);
    ScanHeaders(a, BEGIN);
    TurnsKeepHeaders(a, c.p, c.pos);
  }

  /** A chunk's data followed by anything but a line break is an error. */
  lemma BadChunkEnd(z: string, q: Parser, at: nat)
    requires q.state == ChunkData && at + q.chunkRemaining + 2 <= |z| && z[at + q.chunkRemaining] == 'x'
    ensures Chunks(z, q, at).p.state == Error
  {
    var end := at + q.chunkRemaining;
    var r := q.(chunkBody := q.chunkBody + z[at..end], chunkRemaining := 0, state := ChunkDataEnd);
    assert z[end..end + 2][0] == 'x';
    assert StepChunk(z, q, at) == More(r, end);
    assert StepChunk(z, r, end).Return?;
  }

  /** Stopped inside the data of a chunk, the parser skips whatever it is given. */
  lemma StopInData(a: string, kept: string, c: Cursor, q: Parser, at: nat) returns (b: string)
    requires StoppedAt(a, c, q, at) && q.state == ChunkData && |kept| <= |a|
    ensures !GoesOn(a, kept, b)
  {
    var p := Parse(FRESH, a).p;
    Longer(a, "", c, q, at);
    b := Fill(p.chunkRemaining + 2);
    Longer(a, b, c, q, at);
    BadChunkEnd(a + b, q, at);
    ResumedChunkIsLost(p, kept + b);
  }

  /** Stopped before the line break behind a chunk, it does the same. */
  lemma StopInDataEnd(a: string, kept: string, c: Cursor, q: Parser, at: nat) returns (b: string)
    requires StoppedAt(a, c, q, at) && q.state == ChunkDataEnd && |kept| <= |a|
    ensures !GoesOn(a, kept, b)
  {
    b := "xx";
    Longer(a, b, c, q, at);
    var z := a + b;
    assert z[at..at + 2][1] == 'x';
    assert StepChunk(z, q, at).Return?;
    ResumedChunkIsLost(q, kept + b);
  }

  lemma BreakFound(x: string, from: nat)
    requires from <= |x|
    ensures IndexOf(x + CRLF, CRLF, from).Some?
  {
    assert (x + CRLF)[|x|..|x| + 2] == CRLF;
    assert Matches(x + CRLF, CRLF, |x|);
  }

  lemma NoEarlierBreak(r: string, y: string, k: nat)
    requires y == r + CRLF && k < |r| && !Matches(r, CRLF, k)
    ensures !Matches(y, CRLF, k)
  {
    if k + 2 <= |r| {
      SliceExtend(r, CRLF, k, k + 2);
    } else {
      assert y[k..k + 2][1] == '\r';
    }
  }

  lemma FirstBreak(r: string, y: string)
    requires y == r + CRLF && IndexOf(r, CRLF, 0).None?
    ensures IndexOf(y, CRLF, 0) == Some(|r|)
  {
    assert y[|r|..|r| + 2] == CRLF;
    forall k: nat | k < |r| ensures !Matches(y, CRLF, k) {
      assert !Matches(r, CRLF, k);
      NoEarlierBreak(r, y, k);
    }
    IndexOfIs(y, CRLF, 0, |r|);
  }

  /** A lone line is read as a size line, and nothing more: not the end of the body. */
  lemma OneLine(p: Parser, r: string)
    requires p.state == ChunkSize && IndexOf(r, CRLF, 0).None?
    ensures Chunks(r + CRLF, p, 0).p.state != Complete
  {
    var y := r + CRLF;
    FirstBreak(r, y);
    assert y[0..|r|] == r;
    var step := SizeLine(y, p, r, |y|);
    SizeStepIs(y, p, 0, |r|, r, step);
    if step.More? {
      assert StepChunk(y, step.p, |y|).Return?;
    }
  }

  lemma LineStops(data: string, q: Parser, line: string, next: nat, stop: Outcome)
    requires q.state == ChunkSize && next <= |data| && SizeLine(data, q, line, next) == Return(stop) && !Verdict(stop.p.state)
    ensures stop.p.state == ChunkSize && stop.consumed == Some(next) && IndexOf(data, CRLF, next).None?
  {
  }

  lemma LastStopAt(a: string, q: Parser, at: nat, eol: nat, line: string, stop: Outcome)
    requires q.state == ChunkSize && at <= |a| && IndexOf(a, CRLF, at) == Some(eol) && line == a[at..eol]
    requires StepChunk(a, q, at) == Return(stop) && !Verdict(stop.p.state)
    ensures SizeLine(a, q, line, eol + 2) == Return(stop)
    ensures stop.p.state == ChunkSize && stop.consumed == Some(eol + 2) && IndexOf(a, CRLF, eol + 2).None?
  {
    SizeStepIs(a, q, at, eol, line, SizeLine(a, q, line, eol + 2));
    LineStops(a, q, line, eol + 2, stop);
  }

  /** What the loop leaves when it stops behind the size line of the last chunk. */
  lemma LastStop(a: string, c: Cursor, q: Parser, at: nat, eol: nat)
    requires StoppedAt(a, c, q, at) && q.state == ChunkSize && IndexOf(a, CRLF, at) == Some(eol)
    ensures var line, stop := a[at..eol], Parse(FRESH, a);
            && SizeLine(a, q, line, eol + 2) == Return(stop)
            && stop.p.state == ChunkSize && stop.consumed == Some(eol + 2) && IndexOf(a, CRLF, eol + 2).None?
  {
    Longer(a, "", c, q, at);
    LastStopAt(a, q, at, eol, a[at..eol], Parse(FRESH, a));
  }

  lemma ReadsLastAsSize(p: Parser, kept: string)
    requires p.state == ChunkSize && IndexOf(kept, CRLF, 0).None?
    ensures Parse(p, kept + CRLF).p.state != Complete
  {
    OneLine(p, kept);
    StartsThere(p, kept + CRLF);
  }

  lemma WholeCompletes(a: string, c: Cursor, q: Parser, at: nat, eol: nat)
    requires StoppedAt(a, c, q, at) && q.state == ChunkSize && IndexOf(a, CRLF, at) == Some(eol)
    ensures Parse(FRESH, a + CRLF).p.state == Complete
  {
    LastStop(a, c, q, at, eol);
    Longer(a, CRLF, c, q, at);
    BreakFound(a, eol + 2);
    LastLine(a, CRLF, q, at, eol, a[at..eol]);
  }

  lemma KeptLine(a: string, c: Cursor, q: Parser, at: nat, eol: nat, kept: string)
    requires StoppedAt(a, c, q, at) && q.state == ChunkSize && IndexOf(a, CRLF, at) == Some(eol)
    requires kept == "" || kept == Unread(a)
    ensures Parse(FRESH, a).p.state == ChunkSize && IndexOf(kept, CRLF, 0).None?
  {
    LastStop(a, c, q, at, eol);
    IndexBehind(a, eol + 2, a[eol + 2..], CRLF, 0);
  }

  /** Stopped behind the size line of the last chunk, it takes the closing line for another size line. */
  lemma StopBehindLast(a: string, kept: string, c: Cursor, q: Parser, at: nat) returns (b: string)
    requires StoppedAt(a, c, q, at) && q.state == ChunkSize && IndexOf(a, CRLF, at).Some? && |kept| <= |a|
    requires kept == "" || kept == Unread(a)
    ensures !GoesOn(a, kept, b)
  {
    b := CRLF;
    var eol := IndexOf(a, CRLF, at).value;
    WholeCompletes(a, c, q, at, eol);
    KeptLine(a, c, q, at, eol, kept);
    ReadsLastAsSize(Parse(FRESH, a).p, kept);
  }

  /** The line of the last chunk, in a longer buffer. */
  lemma LastLine(a: string, b: string, q: Parser, at: nat, eol: nat, line: string)
    requires Turning(q, at, a) && q.state == ChunkSize && IndexOf(a, CRLF, at) == Some(eol) && line == a[at..eol]
    requires SizeLine(a, q, line, eol + 2).Return? && SizeLine(a, q, line, eol + 2).out.p.state == ChunkSize
    requires IndexOf(a + b, CRLF, eol + 2).Some?
    ensures Chunks(a + b, q, at).p.state == Complete
  {
    IndexOfExtend(a, CRLF, at, b);
    SliceExtend(a, b, at, eol);
    SizeStepIs(a + b, q, at, eol, line, SizeLine(a + b, q, line, eol + 2));
  }

  // ---------- Stops in the headers, behind an empty line that was not one of them ----------

  lemma StepOn(data: string, c: Cursor, ext: string)
    requires c.start <= c.pos < |data| && Scanning(c.p.state)
    requires ext == "" || ext[0] != ' ' || Step(data, c).p.state != InValue || Step(data, c).pos < |data|
    ensures Step(data + ext, c) == Step(data, c)
  {
    if ext == "" {
      assert data + ext == data;
    } else {
      StepExtend(data, c, ext);
      assert (data + ext)[c.pos] == data[c.pos] && (c.pos + 1 == |data| ==> (data + ext)[c.pos + 1] == ext[0]);
      SliceExtend(data, ext, c.start, c.pos);
      if c.p.state == InValue && data[c.pos] == '\n' { EndValueExtend(data, c, ext); }
    }
  }

  /** The byte loop that ran out of bytes goes on with more, unless it has just missed the space behind a colon. */
  lemma {:induction false} ScanOn(data: string, c: Cursor, ext: string, r: Cursor)
    requires c.start <= c.pos <= |data| && r == Scan(data, c) && Scanning(r.p.state)
    requires r.p.state != InValue || ext == "" || ext[0] != ' '
    ensures Scan(data + ext, c) == Scan(data + ext, r)
    decreases |data| - c.pos
  {
    if c.pos < |data| {
      StepOn(data, c, ext);
      ScanOn(data, Step(data, c), ext, r);
    }
  }

  /** Bytes that bring the header section to its end from any of its states. */
  function Finish(s: State): string {
    match s
    case InMethod => "  \n\n"
    case InPath => " \n\n"
    case InKey => "\n"
    case _ => "\n\n"
  }

  predicate Finished(z: string, d: Cursor) {
    d.start <= d.pos <= |z| && !Scanning(d.p.state) && (d.p.state != Error ==> d.pos == |z|)
  }

  lemma FinishKey(z: string, c: Cursor)
    requires c.start <= c.pos && c.pos + 1 == |z| && z[c.pos] == '\n' && c.p.state == InKey
    ensures Finished(z, Scan(z, c))
  {
    assert Scan(z, c) == Scan(z, Cursor(EndHeaders(c.p), c.pos + 1, c.pos + 1));
  }

  lemma FinishVersion(z: string, c: Cursor)
    requires c.start <= c.pos && c.pos + 2 == |z| && z[c.pos] == z[c.pos + 1] == '\n' && c.p.state == InVersion
    ensures Finished(z, Scan(z, c))
  {
    FinishKey(z, Step(z, c));
  }

  lemma FinishValue(z: string, c: Cursor)
    requires c.start <= c.pos && c.pos + 2 == |z| && z[c.pos] == z[c.pos + 1] == '\n' && c.p.state == InValue
    ensures Finished(z, Scan(z, c))
  {
    var n := Step(z, c);
    if n.p.state == InKey { FinishKey(z, n); }
  }

  lemma FinishPath(z: string, c: Cursor)
    requires c.start <= c.pos && c.pos + 3 == |z| && z[c.pos] == ' ' && z[c.pos + 1] == z[c.pos + 2] == '\n' && c.p.state == InPath
    ensures Finished(z, Scan(z, c))
  {
    FinishVersion(z, Step(z, c));
  }

  lemma FinishMethod(z: string, c: Cursor)
    requires c.start <= c.pos && c.pos + 4 == |z| && z[c.pos] == z[c.pos + 1] == ' ' && z[c.pos + 2] == z[c.pos + 3] == '\n'
    requires c.p.state == InMethod
    ensures Finished(z, Scan(z, c))
  {
    FinishPath(z, Step(z, c));
  }

  lemma FinishScan(z: string, c: Cursor)
    requires c.start <= c.pos <= |z| && HeaderState(c.p.state) && z[c.pos..] == Finish(c.p.state)
    ensures Finished(z, Scan(z, c))
  {
    var d := Finish(c.p.state);
    assert |z| == c.pos + |d| && forall i :: 0 <= i < |d| ==> z[c.pos + i] == z[c.pos..][i];
    match c.p.state
    case InMethod => FinishMethod(z, c);
    case InPath => FinishPath(z, c);
    case InVersion => FinishVersion(z, c);
    case InKey => FinishKey(z, c);
    case InValue => FinishValue(z, c);
  }

  lemma {:induction false} Idles(z: string, c: Cursor)
    requires c.start <= c.pos <= |z| && c.p.state in {InMethod, InPath, InVersion, InValue}
    requires forall i :: c.pos <= i < |z| ==> z[i] == 'x'
    ensures Scan(z, c).p.state == c.p.state
    decreases |z| - c.pos
  {
    if c.pos < |z| { Idles(z, Step(z, c)); }
  }

  lemma NoEmptyLine(b: string)
    requires forall k :: 0 <= k && k + 2 < |b| && b[k] == '\r' ==> b[k + 2] != '\r'
    ensures IndexOf(b, CRLFCRLF, 0).None?
  {
    forall k: nat ensures !Matches(b, CRLFCRLF, k) {
      if Matches(b, CRLFCRLF, k) {
        MatchAt(b, CRLFCRLF, k, 0);
        MatchAt(b, CRLFCRLF, k, 2);
      }
    }
  }

  /** Given bytes without an empty line, a parser in the headers counts them, and takes none of them. */
  lemma CountsOnly(p: Parser, b: string)
    requires HeaderState(p.state) && !p.headersComplete && IndexOf(b, CRLFCRLF, 0).None?
    ensures Parse(p, b).p.state == if p.headerBytes + |b| > MAX_HEADER_SIZE then Error else p.state
  {
  }

  /** Where the byte loop ran out of bytes in the headers. */
  predicate StoppedInHeaders(a: string, c: Cursor) {
    IndexOf(a, CRLFCRLF, 0).Some? && c == Scan(a, BEGIN) && HeaderState(c.p.state)
  }

  lemma HeaderStop(a: string, c: Cursor)
    requires StoppedInHeaders(a, c)
    ensures Parse(FRESH, a) == Outcome(c.p, Some(|a|)) && c.start <= c.pos == |a| && !c.p.headersComplete
  {
    FreshParse(a);
    ScanHeaders(a, BEGIN);
  }

  lemma LongerHead(a: string, b: string, c: Cursor, d: Cursor)
    requires StoppedInHeaders(a, c) && (b == "" || b[0] != ' ' || c.p.state != InValue) && d == Scan(a + b, BEGIN)
    ensures c.start <= c.pos == |a| && d == Scan(a + b, c) && Parse(FRESH, a + b) == AfterScan(a + b, d)
  {
    IndexOfExtend(a, CRLFCRLF, 0, b);
    FreshParse(a + b);
    HeaderStop(a, c);
    ScanOn(a, BEGIN, b, c);
  }

  /** The counter is close to its limit: bytes that change nothing for the whole are too many for the parser. */
  lemma StopNearLimit(a: string, c: Cursor) returns (b: string)
    requires StoppedInHeaders(a, c) && c.p.headerBytes + 4 > MAX_HEADER_SIZE
    ensures !GoesOn(a, "", b)
  {
    b := (if c.p.state == InKey then ":" else "x") + "xxxx";
    HeaderStop(a, c);
    NoEmptyLine(b);
    CountsOnly(c.p, b);
    assert "" + b == b;
    LongerHead(a, b, c, Scan(a + b, BEGIN));
    WaitsOn(a, b, c);
  }

  lemma WaitsOn(a: string, b: string, c: Cursor)
    requires c.start <= c.pos == |a| && HeaderState(c.p.state) && b == (if c.p.state == InKey then ":" else "x") + "xxxx"
    ensures HeaderState(Scan(a + b, c).p.state)
  {
    var z := a + b;
    assert forall i :: |a| < i < |z| ==> z[i] == b[i - |a|] == 'x';
    assert z[|a|] == b[0];
    if c.p.state == InKey { Idles(z, Step(z, c)); } else { Idles(z, c); }
  }

  const SHORT_LAST := "0\r\nx\r\n"

  lemma ShortLast(p: Parser)
    requires p.state == ChunkSize
    ensures Chunks(SHORT_LAST, p, 0).p.state == Complete
  {
    var t := SHORT_LAST;
    assert t[0..3] == "0" + CRLF && t[4..6] == CRLF;
    ZeroLine(t, 0);
    assert Matches(t, CRLF, 4);
    ReadsZero(t, p, 0, "0", LastChunk(t, p.(chunkRemaining := 0), 3));
    assert Unfold(true);
  }

  /** The body that the headers announced, in its shortest form. */
  function Remainder(d: Parser): string {
    if d.state == Body then Fill(d.bodyLength) else if d.state == ChunkSize then SHORT_LAST else ""
  }

  lemma RemainderCompletes(z: string, d: Cursor)
    requires IndexOf(z, CRLFCRLF, 0).Some? && d == Scan(z, BEGIN) && Finished(z, d) && d.p.state in {Body, ChunkSize}
    ensures Parse(FRESH, z + Remainder(d.p)).p.state == Complete
  {
    var t := Remainder(d.p);
    SameHead(z, t, d);
    if d.p.state == ChunkSize {
      RestIs(z, t, |z|);
      assert z[|z|..] + t == t;
      ChunksBehind(z + t, |z|, t, d.p);
      ShortLast(d.p);
    }
  }

  lemma NoEmptyLineIn(s: State, d: Parser)
    ensures IndexOf(Finish(s) + Remainder(d), CRLFCRLF, 0).None?
  {
    var f, t := Finish(s), Remainder(d);
    var b := f + t;
    assert forall k :: 0 <= k < |f| ==> b[k] != '\r';
    forall k | 0 <= k && k + 2 < |b| && b[k] == '\r' ensures b[k + 2] != '\r' {
      assert b[k] == t[k - |f|] && b[k + 2] == t[k - |f| + 2];
    }
    NoEmptyLine(b);
  }

  /** The head of the whole, brought to its end. */
  lemma HeadFinishes(a: string, c: Cursor) returns (d: Cursor)
    requires StoppedInHeaders(a, c)
    ensures var z := a + Finish(c.p.state);
            d == Scan(z, BEGIN) && Finished(z, d) && IndexOf(z, CRLFCRLF, 0).Some? && Parse(FRESH, z) == AfterScan(z, d)
  {
    var f := Finish(c.p.state);
    d := Scan(a + f, BEGIN);
    LongerHead(a, f, c, d);
    IndexOfExtend(a, CRLFCRLF, 0, f);
    RestIs(a, f, |a|);
    assert a[|a|..] + f == f;
    FinishScan(a + f, c);
  }

  lemma WholeDecides(a: string, c: Cursor, d: Cursor, b: string)
    requires var z := a + Finish(c.p.state);
             d == Scan(z, BEGIN) && Finished(z, d) && IndexOf(z, CRLFCRLF, 0).Some? && Parse(FRESH, z) == AfterScan(z, d)
    requires b == Finish(c.p.state) + Remainder(d.p)
    ensures Parse(FRESH, a + b).p.state == if d.p.state == Error then Error else Complete
  {
    var z := a + Finish(c.p.state);
    assert a + b == z + Remainder(d.p);
    if d.p.state in {Body, ChunkSize} {
      RemainderCompletes(z, d);
    } else {
      assert z + "" == z;
    }
  }

  lemma ParserIgnores(c: Cursor, d: Parser, b: string)
    requires HeaderState(c.p.state) && !c.p.headersComplete && c.p.headerBytes + 4 <= MAX_HEADER_SIZE
    requires b == Finish(c.p.state) + Remainder(d)
    ensures Parse(c.p, b).p.state != Complete && (d.state !in {Body, ChunkSize} ==> !Verdict(Parse(c.p, b).p.state))
  {
    NoEmptyLineIn(c.p.state, d);
    CountsOnly(c.p, b);
  }

  /** Bytes that end the headers, and the body they announce, for the whole are not even looked at by the parser. */
  lemma StopFarFromLimit(a: string, c: Cursor) returns (b: string)
    requires StoppedInHeaders(a, c) && c.p.headerBytes + 4 <= MAX_HEADER_SIZE
    ensures !GoesOn(a, "", b)
  {
    HeaderStop(a, c);
    var d := HeadFinishes(a, c);
    b := Finish(c.p.state) + Remainder(d.p);
    WholeDecides(a, c, d, b);
    ParserIgnores(c, d.p, b);
    assert "" + b == b;
  }

  lemma StopInHeaders(a: string, c: Cursor) returns (b: string)
    requires StoppedInHeaders(a, c)
    ensures !GoesOn(a, "", b)
  {
    if c.p.headerBytes + 4 > MAX_HEADER_SIZE { b := StopNearLimit(a, c); } else { b := StopFarFromLimit(a, c); }
  }

  // ---------- Stops before the empty line ----------

  lemma {:induction false} VerbKept(data: string, c: Cursor)
    requires c.start <= c.pos <= |data| && c.p.state != InMethod
    ensures Scan(data, c).p.req.verb == c.p.req.verb
    decreases |data| - c.pos, if Scanning(c.p.state) then 1 else 0
  {
    if c.pos < |data| && Scanning(c.p.state) { VerbKept(data, Step(data, c)); }
  }

  lemma {:induction false} VerbRead(data: string, c: Cursor, k: nat)
    requires c.p.state == InMethod && c.start <= c.pos <= k < |data| && data[k] == ' ' && ' ' !in data[c.pos..k]
    ensures Scan(data, c).p.req.verb == StringToMethod(data[c.start..k])
    decreases k - c.pos
  {
    var n := Step(data, c);
    if c.pos == k {
      VerbKept(data, n);
    } else {
      assert data[c.pos] == data[c.pos..k][0];
      assert data[c.pos + 1..k] == data[c.pos..k][1..];
      VerbRead(data, n, k);
    }
  }

  lemma {:induction false} ChunksKeepVerb(data: string, p: Parser, pos: nat)
    requires Turning(p, pos, data)
    ensures Chunks(data, p, pos).p.req.verb == p.req.verb
    decreases |data| - pos, if p.state == ChunkData then 1 else 0
  {
    match StepChunk(data, p, pos)
    case Return(_) =>
    case More(q, next) => ChunksKeepVerb(data, q, next);
  }

  lemma BehindKeepsVerb(data: string, c: Cursor)
    requires c.start <= c.pos <= |data|
    ensures AfterScan(data, c).p.req.verb == c.p.req.verb
  {
    if c.p.state in {ChunkSize, ChunkData, ChunkDataEnd} { ChunksKeepVerb(data, c.p, c.pos); }
  }

  /** A request's method is what stands before its first space. */
  lemma VerbIs(data: string, k: nat)
    requires k < |data| && data[k] == ' ' && ' ' !in data[..k] && IndexOf(data, CRLFCRLF, 0).Some?
    ensures Parse(FRESH, data).p.req.verb == StringToMethod(data[..k])
  {
    FreshParse(data);
    assert data[0..k] == data[..k];
    VerbRead(data, BEGIN, k);
    BehindKeepsVerb(data, Scan(data, BEGIN));
  }

  /** A request that a parser in its first state reads, whatever it counted before. */
  function Probe(verb: string): RequestRoundTrip.Message {
    RequestRoundTrip.Message(verb, "/", "HTTP/1.1", [], RequestRoundTrip.NoBody)
  }

  lemma ProbeReads(verb: string, h: nat) returns (b: string)
    requires ' ' !in verb
    ensures IndexOf(b, CRLFCRLF, 0).Some?
    ensures Parse(FRESH.(headerBytes := h), b).p.state == Complete && Parse(FRESH.(headerBytes := h), b).p.req.verb == StringToMethod(verb)
    ensures |verb| < |b| && b[|verb|] == ' ' && b[..|verb|] == verb
  {
    var m := Probe(verb);
    b := RequestRoundTrip.Print(m);
    RequestRoundTrip.PrintParse(m, "");
    assert b + "" == b;
    assert FRESH.(headerBytes := h).(headerBytes := 0) == FRESH;
  }

  lemma EmptyLineLater(a: string, b: string)
    requires IndexOf(b, CRLFCRLF, 0).Some?
    ensures IndexOf(a + b, CRLFCRLF, 0).Some?
  {
    var v := IndexOf(b, CRLFCRLF, 0).value;
    assert (a + b)[|a|..] == b;
    MatchBehind(a + b, |a|, b, CRLFCRLF, v);
  }

  function FirstSpace(a: string, k: nat): (j: nat)
    requires k <= |a|
    ensures k <= j <= |a| && (j < |a| ==> a[j] == ' ') && ' ' !in a[k..j]
    decreases |a| - k
  {
    if k == |a| || a[k] == ' ' then k
    else
      var j := FirstSpace(a, k + 1);
      assert a[k..j] == [a[k]] + a[k + 1..j];
      j
  }

  /** With no space yet, what has arrived becomes part of the method's name. */
  lemma WholeVerb(a: string, b: string, verb: string)
    requires ' ' !in a && ' ' !in verb && |verb| < |b| && b[|verb|] == ' ' && b[..|verb|] == verb && IndexOf(b, CRLFCRLF, 0).Some?
    ensures Parse(FRESH, a + b).p.req.verb == StringToMethod(a + verb)
  {
    EmptyLineLater(a, b);
    var k := |a| + |verb|;
    assert (a + b)[..k] == a + verb && (a + b)[k] == ' ';
    VerbIs(a + b, k);
  }

  /** With a space, the method is known. */
  lemma EarlyVerb(a: string, b: string, k: nat)
    requires k < |a| && a[k] == ' ' && ' ' !in a[..k] && IndexOf(b, CRLFCRLF, 0).Some?
    ensures Parse(FRESH, a + b).p.req.verb == StringToMethod(a[..k])
  {
    EmptyLineLater(a, b);
    assert (a + b)[..k] == a[..k];
    VerbIs(a + b, k);
  }

  lemma CountStop(a: string)
    requires IndexOf(a, CRLFCRLF, 0).None? && !Verdict(Parse(FRESH, a).p.state)
    ensures Parse(FRESH, a) == Outcome(FRESH.(headerBytes := |a|), Some(|a|))
  {
  }

  /** The whole has another method than the probe alone. */
  lemma VerbDiffers(a: string, b: string, whole: Outcome, again: Outcome)
    requires whole == Parse(FRESH, a + b) && again == Parse(Parse(FRESH, a).p, b)
    requires again.p.state == Complete && again.p.req.verb != whole.p.req.verb
    ensures !GoesOn(a, "", b)
  {
    assert "" + b == b;
  }

  lemma NoLongerGet(a: string)
    requires a != ""
    ensures StringToMethod(a + "GET") != StringToMethod("GET")
  {
    assert |a + "GET"| != |"GET"|;
  }

  lemma NoSpaceYet(a: string) returns (b: string)
    requires a != "" && ' ' !in a && Parse(FRESH, a).p == FRESH.(headerBytes := |a|)
    ensures !GoesOn(a, "", b)
  {
    b := ProbeReads("GET", |a|);
    WholeVerb(a, b, "GET");
    NoLongerGet(a);
    VerbDiffers(a, b, Parse(FRESH, a + b), Parse(FRESH.(headerBytes := |a|), b));
  }

  lemma SpaceSeen(a: string, k: nat, verb: string) returns (b: string)
    requires k < |a| && a[k] == ' ' && ' ' !in a[..k] && Parse(FRESH, a).p == FRESH.(headerBytes := |a|)
    requires ' ' !in verb && StringToMethod(a[..k]) != StringToMethod(verb)
    ensures !GoesOn(a, "", b)
  {
    b := ProbeReads(verb, |a|);
    EarlyVerb(a, b, k);
    VerbDiffers(a, b, Parse(FRESH, a + b), Parse(FRESH.(headerBytes := |a|), b));
  }

  /** Stopped before an empty line has arrived, the parser has counted the bytes and forgotten them. */
  lemma StopBeforeEmptyLine(a: string) returns (b: string)
    requires a != "" && IndexOf(a, CRLFCRLF, 0).None? && !Verdict(Parse(FRESH, a).p.state)
    ensures !GoesOn(a, "", b)
  {
    CountStop(a);
    var k := FirstSpace(a, 0);
    assert a[0..k] == a[..k] && a[..|a|] == a;
    if k == |a| {
      b := NoSpaceYet(a);
    } else {
      b := SpaceSeen(a, k, if StringToMethod(a[..k]) == Get then "POST" else "GET");
    }
  }

  // ---------- The exact condition ----------

  /** Where a fresh parser without a verdict has stopped. */
  lemma Stops(a: string) returns (c: Cursor)
    requires !Verdict(Parse(FRESH, a).p.state) && IndexOf(a, CRLFCRLF, 0).Some?
    ensures c == Scan(a, BEGIN) && Parse(FRESH, a) == AfterScan(a, c)
    ensures HeaderState(c.p.state) || c.p.state in {Body, ChunkSize}
    ensures Parse(FRESH, a).p.state == Body <==> c.p.state == Body
    ensures Parse(FRESH, a).p.state == ChunkSize ==> c.p.state == ChunkSize
  {
    c := Scan(a, BEGIN);
    FreshParse(a);
    ScanKind(a, BEGIN);
    if c.p.state == ChunkSize { ChunksState(a, c.p, c.pos); }
  }

  lemma {:induction false} ChunksState(data: string, p: Parser, pos: nat)
    requires Turning(p, pos, data)
    ensures Chunks(data, p, pos).p.state in {ChunkSize, ChunkData, ChunkDataEnd, Complete, Error}
    decreases |data| - pos, if p.state == ChunkData then 1 else 0
  {
    match StepChunk(data, p, pos)
    case Return(_) =>
    case More(q, next) => ChunksState(data, q, next);
  }

  /** A beginning that is not resumable has an ending that shows it, whether the caller keeps what was not consumed or drops it. */
  lemma NotResumable(a: string, kept: string) returns (b: string)
    requires !Verdict(Parse(FRESH, a).p.state) && !Resumable(a) && (kept == "" || kept == Unread(a))
    ensures !GoesOn(a, kept, b)
  {
    if IndexOf(a, CRLFCRLF, 0).None? {
      assert a[|a|..] == "";
      b := StopBeforeEmptyLine(a);
    } else {
      var c := Stops(a);
      if c.p.state == ChunkSize {
        var (q, at) := LastTurn(a, c.p, c.pos);
        b := NotResumableChunk(a, kept, c, q, at);
      } else {
        HeaderStop(a, c);
        assert a[|a|..] == "";
        b := StopInHeaders(a, c);
      }
    }
  }

  lemma NotResumableChunk(a: string, kept: string, c: Cursor, q: Parser, at: nat) returns (b: string)
    requires StoppedAt(a, c, q, at) && !Resumable(a) && (kept == "" || kept == Unread(a))
    ensures !GoesOn(a, kept, b)
  {
    Longer(a, "", c, q, at);
    if q.state == ChunkData {
      b := StopInData(a, kept, c, q, at);
    } else if q.state == ChunkDataEnd {
      b := StopInDataEnd(a, kept, c, q, at);
    } else {
      assert IndexOf(a, CRLF, at).Some?;
      b := StopBehindLast(a, kept, c, q, at);
    }
  }

  lemma SameAsItself(out: Outcome)
    requires out.p.state != Error ==> out.consumed.Some?
    ensures SameVerdict(out, out, 0)
  {
  }

  lemma EmptyStop()
    ensures Parse(FRESH, "") == Outcome(FRESH, Some(0))
  {
    assert FRESH.(headerBytes := 0) == FRESH;
  }

  lemma NothingResumes(b: string)
    ensures !Verdict(Parse(FRESH, "").p.state) && Resumes("", b)
  {
    EmptyStop();
    SameAsItself(Parse(FRESH, "" + b));
  }

  lemma AwaitsSize(a: string, b: string, c: Cursor, q: Parser, n: nat)
    requires StoppedAt(a, c, q, n) && Parse(FRESH, a).p.state == ChunkSize && !BehindLast(a)
    ensures Resumes(a, b)
  {
    Longer(a, "", c, q, n);
    SizeResumes(a, b, c, q, n);
  }

  lemma ResumableResumes(a: string, b: string)
    requires !Verdict(Parse(FRESH, a).p.state) && Resumable(a)
    ensures Resumes(a, b)
  {
    if a == "" {
      NothingResumes(b);
    } else {
      EmptyLineSeen(a);
      var c := Stops(a);
      if Parse(FRESH, a).p.state == Body {
        BodyResumes(a, b, c);
      } else {
        var (q, n) := LastTurn(a, c.p, c.pos);
        AwaitsSize(a, b, c, q, n);
      }
    }
  }

  /** Only behind an empty line is a body, or a size line, awaited. */
  lemma EmptyLineSeen(a: string)
    requires Parse(FRESH, a).p.state in {Body, ChunkSize}
    ensures IndexOf(a, CRLFCRLF, 0).Some?
  {
  }

  /** Feeding one parser in two pieces gives the verdict of a fresh parser on both, for every second piece, exactly if the
      first was empty, or ended where the body or a size line is awaited. */
  lemma ResumesIff(a: string)
    requires !Verdict(Parse(FRESH, a).p.state)
    ensures (forall b :: Resumes(a, b)) <==> Resumable(a)
  {
    if Resumable(a) {
      forall b ensures Resumes(a, b) { ResumableResumes(a, b); }
    } else {
      var b := NotResumable(a, Unread(a));
      assert !Resumes(a, b);
    }
  }
}
