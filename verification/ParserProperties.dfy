/** What a verdict of the parser guarantees, and that later bytes cannot change it. */
module ParserProperties {
  import opened Text
  import opened HttpParser

  // ---------- A verdict is final ----------

  /** Appending bytes does not change a step, unless the step looked for a space past the end. */
  lemma StepExtend(data: string, c: Cursor, ext: string)
    requires c.start <= c.pos < |data| && Scanning(c.p.state)
    ensures Step(data + ext, c) == Step(data, c) || (Step(data, c).pos == |data| && Step(data, c).p.state == InValue)
  {
    var all := data + ext;
    assert all[c.pos] == data[c.pos];
    assert all[c.start..c.pos] == data[c.start..c.pos];
    if c.p.state == InValue && data[c.pos] == '\n' { EndValueExtend(data, c, ext); }
  }

  lemma EndValueExtend(data: string, c: Cursor, ext: string)
    requires c.start <= c.pos < |data| && data[c.pos] == '\n'
    ensures EndValue(data + ext, c) == EndValue(data, c)
  {
    if c.pos > c.start {
      assert (data + ext)[c.start..c.pos - 1] == data[c.start..c.pos - 1];
    } else {
      assert data[c.start..][0] == '\n' && (data + ext)[c.start..][0] == '\n';
    }
  }

  lemma {:induction false} ScanExtend(data: string, c: Cursor, ext: string)
    requires c.start <= c.pos <= |data| && !Scanning(Scan(data, c).p.state)
    ensures Scan(data + ext, c) == Scan(data, c)
    decreases |data| - c.pos, if Scanning(c.p.state) then 1 else 0
  {
    if c.pos < |data| && Scanning(c.p.state) {
      StepExtend(data, c, ext);
      ScanExtend(data, Step(data, c), ext);
    }
  }

  predicate Verdict(s: State) { s == Complete || s == Error }

  lemma SizeLineExtend(data: string, p: Parser, line: string, next: nat, ext: string)
    requires p.state == ChunkSize && next <= |data|
    requires SizeLine(data, p, line, next).Return? ==> Verdict(SizeLine(data, p, line, next).out.p.state)
    ensures SizeLine(data + ext, p, line, next) == SizeLine(data, p, line, next)
  {
    if ReadSize(SizeToken(line), 0) == Size(0) { IndexOfExtend(data, CRLF, next, ext); }
  }

  lemma SizeStepExtend(data: string, p: Parser, pos: nat, ext: string)
    requires p.state == ChunkSize && pos <= |data|
    requires StepChunk(data, p, pos).Return? ==> Verdict(StepChunk(data, p, pos).out.p.state)
    ensures StepChunk(data + ext, p, pos) == StepChunk(data, p, pos)
  {
    if IndexOf(data, CRLF, pos).Some? {
      var eol := IndexOf(data, CRLF, pos).value;
      var line := data[pos..eol];
      SizeStepIs(data, p, pos, eol, line, SizeLine(data, p, line, eol + 2));
      SizeStepAt(data, p, pos, eol, line, ext);
    }
  }

  lemma SizeStepIs(data: string, p: Parser, pos: nat, eol: nat, line: string, step: ChunkStep)
    requires p.state == ChunkSize && pos <= |data| && IndexOf(data, CRLF, pos) == Some(eol) && line == data[pos..eol]
    requires step == SizeLine(data, p, line, eol + 2)
    ensures StepChunk(data, p, pos) == step
  {
  }

  lemma SizeStepAt(data: string, p: Parser, pos: nat, eol: nat, line: string, ext: string)
    requires p.state == ChunkSize && pos <= |data| && IndexOf(data, CRLF, pos) == Some(eol) && line == data[pos..eol]
    requires SizeLine(data, p, line, eol + 2).Return? ==> Verdict(SizeLine(data, p, line, eol + 2).out.p.state)
    ensures StepChunk(data + ext, p, pos) == SizeLine(data, p, line, eol + 2)
  {
    IndexOfExtend(data, CRLF, pos, ext);
    SliceExtend(data, ext, pos, eol);
    SizeLineExtend(data, p, line, eol + 2, ext);
    SizeStepIs(data + ext, p, pos, eol, line, SizeLine(data, p, line, eol + 2));
  }

  lemma SliceExtend(data: string, ext: string, i: nat, j: nat)
    requires i <= j <= |data|
    ensures (data + ext)[i..j] == data[i..j]
  {}

  lemma DataStepExtend(data: string, p: Parser, pos: nat, ext: string)
    requires p.state in {ChunkData, ChunkDataEnd} && pos <= |data|
    requires StepChunk(data, p, pos).Return? ==> Verdict(StepChunk(data, p, pos).out.p.state)
    ensures StepChunk(data + ext, p, pos) == StepChunk(data, p, pos)
  {
    var n := if p.state == ChunkData then p.chunkRemaining else 2;
    assert (data + ext)[pos..pos + n] == data[pos..pos + n];
  }

  lemma {:induction false} ChunksExtend(data: string, p: Parser, pos: nat, ext: string)
    requires p.state in {ChunkSize, ChunkData, ChunkDataEnd} && pos <= |data|
    requires Verdict(Chunks(data, p, pos).p.state)
    ensures Chunks(data + ext, p, pos) == Chunks(data, p, pos)
    decreases |data| - pos, if p.state == ChunkData then 1 else 0
  {
    if p.state == ChunkSize { SizeStepExtend(data, p, pos, ext); } else { DataStepExtend(data, p, pos, ext); }
    match StepChunk(data, p, pos)
    case Return(_) =>
    case More(q, next) => ChunksExtend(data, q, next, ext);
  }

  /** Extension stability: once a fresh parser has reached a verdict on a buffer that holds a header
      terminator, it reaches the same one, with the same request and the same count of consumed
      bytes, on every longer buffer. */
  lemma VerdictIsFinal(data: string, ext: string)
    requires Verdict(Parse(FRESH, data).p.state)
    requires Parse(FRESH, data).p.state == Complete || IndexOf(data, CRLFCRLF, 0).Some?
    ensures Parse(FRESH, data + ext) == Parse(FRESH, data)
  {
    IndexOfExtend(data, CRLFCRLF, 0, ext);
    FreshParse(data);
    FreshParse(data + ext);
    var c0 := Cursor(FRESH, 0, 0);
    ScanKind(data, c0);
    ScanExtend(data, c0, ext);
    BodyExtend(data, Scan(data, c0), ext);
  }

  lemma FreshParse(data: string)
    requires IndexOf(data, CRLFCRLF, 0).Some?
    ensures Parse(FRESH, data) == AfterScan(data, Scan(data, Cursor(FRESH, 0, 0)))
  {
    assert FRESH.(headerBytes := 0) == FRESH;
  }

  lemma BodyExtend(data: string, c: Cursor, ext: string)
    requires c.start <= c.pos <= |data| && c.p.state in {Error, Complete, Body, ChunkSize} && Verdict(AfterScan(data, c).p.state)
    ensures AfterScan(data + ext, c) == AfterScan(data, c)
  {
    if c.p.state == ChunkSize {
      ChunksExtend(data, c.p, c.pos, ext);
    } else if c.p.state == Body {
      SliceExtend(data, ext, c.start, c.start + c.p.bodyLength);
    }
  }

  predicate HeaderState(s: State) { s in {InMethod, InPath, InVersion, InKey, InValue} }

  /** From a header state, phase 1 ends in a header state, an error, or just past the empty line. */
  lemma {:induction false} ScanKind(data: string, c: Cursor)
    requires c.start <= c.pos <= |data| && HeaderState(c.p.state)
    ensures var r := Scan(data, c);
            HeaderState(r.p.state) || r.p.state == Error
            || (r.p.state in {Body, ChunkSize, Complete} && r.start == r.pos > c.pos)
    decreases |data| - c.pos
  {
    if c.pos < |data| {
      var n := Step(data, c);
      if HeaderState(n.p.state) { ScanKind(data, n); }
    }
  }

  /** A completed request used up at least one byte and no byte beyond the buffer. */
  lemma CompleteConsumes(data: string)
    requires Parse(FRESH, data).p.state == Complete
    ensures var n := Parse(FRESH, data).consumed; n.Some? && 0 < n.value <= |data|
  {
    ScanKind(data, Cursor(FRESH, 0, 0));
    assert FRESH.(headerBytes := 0) == FRESH;
  }

  // ---------- Limits ----------

  /** The value of a hexadecimal numeral. */
  function HexValue(s: string): nat
    requires IsHex(s)
  {
    if s == "" then 0 else HexValue(s[..|s| - 1]) * 16 + HexDigit(s[|s| - 1])
  }

  predicate IsHex(s: string) { forall i :: 0 <= i < |s| ==> HexDigit(s[i]) >= 0 }

  /** A size token is accepted exactly when it is a hexadecimal numeral within the limit, and then for
      its value: the running product never overflows on the way. */
  lemma SizeIsHexValue(tok: string, n: nat)
    ensures ReadSize(tok, 0) == Size(n) <==> IsHex(tok) && HexValue(tok) == n <= MAX_BODY_SIZE
  {
    if IsHex(tok) { ReadSizeOf(tok, "", tok); }
    ReadSizeHex(tok, 0);
  }

  lemma {:induction false} ReadSizeOf(tok: string, done: string, rest: string)
    requires tok == done + rest && IsHex(tok) && IsHex(done) && HexValue(done) <= MAX_BODY_SIZE
    ensures HexValue(tok) <= MAX_BODY_SIZE ==> ReadSize(rest, HexValue(done)) == Size(HexValue(tok))
    ensures HexValue(tok) > MAX_BODY_SIZE ==> ReadSize(rest, HexValue(done)).BadSize?
    decreases |rest|
  {
    if rest == "" {
      assert tok == done;
    } else {
      var done' := done + [rest[0]];
      assert done'[..|done'| - 1] == done;
      assert tok == done' + rest[1..];
      assert tok[|done|] == rest[0];
      HexValueGrows(tok, done', rest[1..]);
      if HexValue(done') <= MAX_BODY_SIZE { ReadSizeOf(tok, done', rest[1..]); }
    }
  }

  lemma {:induction false} HexValueGrows(tok: string, done: string, rest: string)
    requires tok == done + rest && IsHex(tok)
    ensures IsHex(done) && HexValue(done) <= HexValue(tok)
    decreases |rest|
  {
    forall i | 0 <= i < |done| ensures HexDigit(done[i]) >= 0 { assert tok[i] == done[i]; }
    if rest == "" {
      assert tok == done;
    } else {
      var shorter := tok[..|tok| - 1];
      assert shorter == done + rest[..|rest| - 1];
      HexValueGrows(shorter, done, rest[..|rest| - 1]);
      assert HexDigit(tok[|tok| - 1]) >= 0;
    }
  }

  lemma {:induction false} ReadSizeHex(tok: string, acc: nat)
    requires acc <= MAX_BODY_SIZE
    ensures ReadSize(tok, acc).Size? ==> IsHex(tok)
    decreases |tok|
  {
    if tok != "" && HexDigit(tok[0]) >= 0 && acc * 16 + HexDigit(tok[0]) <= MAX_BODY_SIZE {
      ReadSizeHex(tok[1..], acc * 16 + HexDigit(tok[0]));
      assert tok == [tok[0]] + tok[1..];
    }
  }

  /** The bytes that stored headers stand for on the wire. */
  function HeaderTotal(hs: seq<Header>): nat {
    if hs == [] then 0 else HeaderTotal(hs[..|hs| - 1]) + |hs[|hs| - 1].key| + |hs[|hs| - 1].value| + 4
  }

  predicate CleanHeaders(hs: seq<Header>) {
    |hs| <= MAX_INLINE_HEADERS && forall i :: 0 <= i < |hs| ==> !HasLineBreak(hs[i].value)
  }

  predicate HeadersBounded(p: Parser) {
    CleanHeaders(p.req.headers) && HeaderTotal(p.req.headers) <= p.headerBytes <= MAX_HEADER_SIZE
  }

  lemma AddHeaderBounded(r: Request, h: Header, r': Request)
    requires CleanHeaders(r.headers) && !HasLineBreak(h.value) && r' == AddHeader(r, h)
    ensures CleanHeaders(r'.headers) && HeaderTotal(r'.headers) <= HeaderTotal(r.headers) + |h.key| + |h.value| + 4
  {
    if |r'.headers| > |r.headers| { assert r'.headers[..|r'.headers| - 1] == r.headers; }
  }

  lemma EndValueBounded(data: string, c: Cursor)
    requires c.start <= c.pos < |data| && HeadersBounded(c.p)
    ensures EndValue(data, c).p.state != Error ==> HeadersBounded(EndValue(data, c).p)
  {
    var value := if c.pos > c.start then data[c.start..c.pos - 1] else data[c.start..];
    var h := Header(c.p.currentKey, value);
    if !HasLineBreak(value) { AddHeaderBounded(c.p.req, h, AddHeader(c.p.req, h)); }
  }

  /** Phase 1 touches no body, and keeps the header bookkeeping. */
  lemma StepBounded(data: string, c: Cursor)
    requires c.start <= c.pos < |data| && HeaderState(c.p.state) && HeadersBounded(c.p)
    ensures Step(data, c).p.state != Error ==> HeadersBounded(Step(data, c).p)
    ensures Step(data, c).p.state == Body ==> Step(data, c).p.bodyLength <= MAX_BODY_SIZE
  {
    if c.p.state == InValue { EndValueBounded(data, c); }
    if c.p.state == InPath { assert SetPath(c.p.req, data[c.start..c.pos]).headers == c.p.req.headers; }
  }

  lemma StepFrame(data: string, c: Cursor)
    requires c.start <= c.pos < |data| && HeaderState(c.p.state)
    ensures Step(data, c).p.chunkBody == c.p.chunkBody && Step(data, c).p.req.body == c.p.req.body
  {
  }

  lemma {:induction false} ScanBounded(data: string, c: Cursor)
    requires c.start <= c.pos <= |data| && HeaderState(c.p.state) && HeadersBounded(c.p)
    ensures var p := Scan(data, c).p;
            && (p.state != Error ==> HeadersBounded(p))
            && (p.state == Body ==> p.bodyLength <= MAX_BODY_SIZE)
            && p.chunkBody == c.p.chunkBody && p.req.body == c.p.req.body
    decreases |data| - c.pos
  {
    if c.pos < |data| {
      StepBounded(data, c);
      StepFrame(data, c);
      var n := Step(data, c);
      if HeaderState(n.p.state) { ScanBounded(data, n); }
    }
  }

  /** Once a chunk size is accepted, what is stored and what is still to come fit the limit. */
  lemma {:induction false} ChunksBounded(data: string, p: Parser, pos: nat)
    requires p.state in {ChunkSize, ChunkData, ChunkDataEnd} && pos <= |data|
    requires |p.chunkBody| + (if p.state == ChunkData then p.chunkRemaining else 0) <= MAX_BODY_SIZE
    ensures var q := Chunks(data, p, pos).p;
            && (q.state == ChunkData ==> |q.chunkBody| + q.chunkRemaining <= MAX_BODY_SIZE)
            && |q.chunkBody| <= MAX_BODY_SIZE
            && (q.state == Complete ==> q.req.body == q.chunkBody)
            && q.req.headers == p.req.headers && q.headerBytes == p.headerBytes
    decreases |data| - pos, if p.state == ChunkData then 1 else 0
  {
    match StepChunk(data, p, pos)
    case Return(_) =>
    case More(q, next) => ChunksBounded(data, q, next);
  }

  /** Every request a fresh parser completes is within the limits, and no stored value can break a line. */
  lemma CompleteIsBounded(data: string)
    requires Parse(FRESH, data).p.state == Complete
    ensures var r := Parse(FRESH, data).p.req;
            |r.body| <= 1048576 && CleanHeaders(r.headers) && |r.headers| <= 32 && HeaderTotal(r.headers) <= 8192
  {
    var c0 := Cursor(FRESH, 0, 0);
    assert FRESH.(headerBytes := 0) == FRESH;
    ScanKind(data, c0);
    ScanBounded(data, c0);
    var c := Scan(data, c0);
    if c.p.state == ChunkSize { ChunksBounded(data, c.p, c.pos); }
  }

  // ---------- Resuming a parser ----------

  lemma {:induction false} SkipAll(data: string, c: Cursor)
    requires c.start <= c.pos <= |data| && c.p.state in {ChunkData, ChunkDataEnd}
    ensures Scan(data, c) == c.(pos := |data|)
    decreases |data| - c.pos
  {
    if c.pos < |data| { SkipAll(data, Step(data, c)); }
  }

  /** A parser that stopped inside a chunk cannot be resumed: whatever bytes follow, they are all
      reported as consumed and none of them reaches the body. */
  lemma ResumedChunkIsLost(p: Parser, data: string)
    requires p.headersComplete && p.state in {ChunkData, ChunkDataEnd} && (p.state == ChunkData ==> p.chunkRemaining > 0)
    ensures Parse(p, data) == Outcome(p, Some(|data|))
  {
    SkipAll(data, Cursor(p, 0, 0));
    assert p.state == ChunkData ==> p.chunkBody + data[|data|..] == p.chunkBody;
  }

  // ---------- The data of a chunk ----------

  /** Inside a chunk as many bytes are taken as there are and it still needs: they go to the body, in order, and off what it
      needs. */
  lemma DataTaken(data: string, p: Parser, pos: nat)
    requires p.state == ChunkData && pos <= |data|
    ensures var n := if |data| - pos < p.chunkRemaining then |data| - pos else p.chunkRemaining;
            var r := StepChunk(data, p, pos);
            && (r.Return? ==> r.out.consumed == Some(pos + n)) && (r.More? ==> r.pos == pos + n)
            && var q := if r.More? then r.p else r.out.p;
               && q.chunkBody == p.chunkBody + data[pos..pos + n] && q.chunkRemaining == p.chunkRemaining - n && q.req == p.req
               && (q.state == ChunkDataEnd <==> n == p.chunkRemaining) && (q.state == ChunkData <==> n < p.chunkRemaining)
  {
  }

  // ---------- Methods ----------

  /** The name of a method that is known. */
  function NameOf(m: Method): string
    requires m != Unknown
  {
    match m
    case Get => "GET"
    case Post => "POST"
    case Put => "PUT"
    case Delete => "DELETE"
    case Patch => "PATCH"
    case Options => "OPTIONS"
    case Head => "HEAD"
  }

  /** A text stands for the method of that name, letter by letter, and for none if there is no such method. */
  lemma MethodIff(text: string, m: Method)
    ensures m != Unknown ==> (StringToMethod(text) == m <==> text == NameOf(m))
    ensures StringToMethod(text) == Unknown <==> forall k :: k != Unknown ==> text != NameOf(k)
  {
    if StringToMethod(text) != Unknown { assert text == NameOf(StringToMethod(text)); }
  }

  // ---------- Refusals ----------

  /** A parser that has failed says so with one of two statuses. */
  predicate Explains(p: Parser) { p.state == Error ==> p.errorStatus == 400 || p.errorStatus == 413 }

  lemma StepExplains(data: string, c: Cursor)
    requires c.start <= c.pos < |data| && Scanning(c.p.state)
    ensures Explains(Step(data, c).p)
  {
  }

  lemma {:induction false} ScanExplains(data: string, c: Cursor)
    requires c.start <= c.pos <= |data| && Explains(c.p)
    ensures Explains(Scan(data, c).p)
    decreases |data| - c.pos, if Scanning(c.p.state) then 1 else 0
  {
    if c.pos < |data| && Scanning(c.p.state) {
      StepExplains(data, c);
      ScanExplains(data, Step(data, c));
    }
  }

  lemma {:induction false} SizeExplains(tok: string, acc: nat)
    requires acc <= MAX_BODY_SIZE
    ensures ReadSize(tok, acc).BadSize? ==> ReadSize(tok, acc).status == 400 || ReadSize(tok, acc).status == 413
    decreases |tok|
  {
    if tok != "" && HexDigit(tok[0]) >= 0 && acc * 16 + HexDigit(tok[0]) <= MAX_BODY_SIZE {
      SizeExplains(tok[1..], acc * 16 + HexDigit(tok[0]));
    }
  }

  lemma ChunkExplains(data: string, p: Parser, pos: nat)
    requires p.state in {ChunkSize, ChunkData, ChunkDataEnd} && pos <= |data|
    ensures var r := StepChunk(data, p, pos); Explains(if r.More? then r.p else r.out.p)
  {
    match IndexOf(data, CRLF, pos)
    case None =>
    case Some(eol) => SizeExplains(SizeToken(data[pos..eol]), 0);
  }

  lemma {:induction false} ChunksExplain(data: string, p: Parser, pos: nat)
    requires p.state in {ChunkSize, ChunkData, ChunkDataEnd} && pos <= |data|
    ensures Explains(Chunks(data, p, pos).p)
    decreases |data| - pos, if p.state == ChunkData then 1 else 0
  {
    ChunkExplains(data, p, pos);
    match StepChunk(data, p, pos)
    case More(q, next) => ChunksExplain(data, q, next);
    case Return(_) =>
  }

  /** A request is refused with 400 or 413, whatever the bytes are. */
  lemma RefusalExplained(data: string)
    ensures Explains(Parse(FRESH, data).p)
  {
    if IndexOf(data, CRLFCRLF, 0).Some? {
      FreshParse(data);
      var c := Cursor(FRESH, 0, 0);
      ScanExplains(data, c);
      ScanKind(data, c);
      if Scan(data, c).p.state == ChunkSize { ChunksExplain(data, Scan(data, c).p, Scan(data, c).pos); }
    }
  }

  // ---------- Headers by key ----------

  /** The first header with this key. */
  predicate IsFirst(hs: seq<Header>, key: string, i: nat) {
    i < |hs| && hs[i].key == key && forall j :: 0 <= j < i ==> hs[j].key != key
  }

  /** The value that counts for a key: that of the first header with it, or the empty text if there is none. */
  ghost predicate Counts(hs: seq<Header>, key: string, v: string) {
    if exists i :: 0 <= i < |hs| && hs[i].key == key
    then exists i: nat :: IsFirst(hs, key, i) && hs[i].value == v
    else v == ""
  }

  lemma {:induction false} LookupCounts(hs: seq<Header>, key: string)
    ensures Counts(hs, key, Lookup(hs, key))
  {
    if hs != [] && hs[0].key == key {
      assert IsFirst(hs, key, 0);
    } else if hs != [] {
      LookupCounts(hs[1..], key);
      assert forall i :: 0 <= i < |hs[1..]| ==> hs[1..][i] == hs[i + 1];
      if i: nat :| IsFirst(hs[1..], key, i) && hs[1..][i].value == Lookup(hs, key) { assert IsFirst(hs, key, i + 1); }
    }
  }

  lemma CountsOnce(hs: seq<Header>, key: string, v: string, w: string)
    requires Counts(hs, key, v) && Counts(hs, key, w)
    ensures v == w
  {
    if exists i :: 0 <= i < |hs| && hs[i].key == key {
      var i: nat :| IsFirst(hs, key, i) && hs[i].value == v;
      var j: nat :| IsFirst(hs, key, j) && hs[j].value == w;
    }
  }

  /** `header` finds exactly the value that counts. */
  lemma LookupIff(hs: seq<Header>, key: string, v: string)
    ensures Lookup(hs, key) == v <==> Counts(hs, key, v)
  {
    LookupCounts(hs, key);
    if Counts(hs, key, v) { CountsOnce(hs, key, v, Lookup(hs, key)); }
  }
}
