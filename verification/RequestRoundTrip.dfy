/** Printing a request and parsing it back, with anything behind it on the connection. */
module RequestRoundTrip {
  import opened Text
  import opened HttpParser
  import opened ParserProperties
  import opened ChunkCodec

  datatype Payload = NoBody | Fixed(bytes: string) | Chunked(chunks: seq<string>)

  datatype Message = Message(verb: string, target: string, version: string, headers: seq<Header>, payload: Payload)

  function PrintHeader(h: Header): string { h.key + ": " + h.value + CRLF }

  function PrintHeaders(hs: seq<Header>): string {
    if hs == [] then "" else PrintHeader(hs[0]) + PrintHeaders(hs[1..])
  }

  function RequestLine(m: Message): string { m.verb + " " + m.target + " " + m.version + CRLF }

  function PrintHead(m: Message): string { RequestLine(m) + PrintHeaders(m.headers) + CRLF }

  function PrintPayload(b: Payload): string {
    match b
    case NoBody => ""
    case Fixed(bytes) => bytes
    case Chunked(chunks) => Frames(chunks) + LAST
  }

  function Print(m: Message): string { PrintHead(m) + PrintPayload(m.payload) }

  predicate WellFormedHeader(h: Header) {
    ':' !in h.key && '\n' !in h.key && !HasLineBreak(h.value)
  }

  predicate WellFormedHeaders(hs: seq<Header>) {
    forall i :: 0 <= i < |hs| ==> WellFormedHeader(hs[i])
  }

  /** The headers that the request has room for. */
  function Kept(hs: seq<Header>): seq<Header> {
    if |hs| <= MAX_INLINE_HEADERS then hs else hs[..MAX_INLINE_HEADERS]
  }

  /** The headers announce exactly the payload that follows them. */
  predicate Announces(hs: seq<Header>, b: Payload) {
    Framed(Lookup(Kept(hs), "Transfer-Encoding"), Lookup(Kept(hs), "Content-Length"), b)
  }

  predicate Framed(te: string, cl: string, b: Payload) {
    match b
    case NoBody => te != "chunked" && cl == ""
    case Fixed(bytes) => te == "" && ParseUnsignedLong(cl) == Some(|bytes|) && |bytes| <= MAX_BODY_SIZE
    case Chunked(chunks) => te == "chunked" && cl == "" && |Concat(chunks)| <= MAX_BODY_SIZE
  }

  /** The words of the request line and the header lines are what they are taken for. */
  predicate HeadFormed(m: Message) {
    ' ' !in m.verb && ' ' !in m.target && '\n' !in m.version && WellFormedHeaders(m.headers)
  }

  predicate WellFormed(m: Message) { HeadFormed(m) && Announces(m.headers, m.payload) }

  /** What the size counter charges for a header line: the key twice, the value once, and four. */
  function Charge(h: Header): nat { 2 * |h.key| + |h.value| + 4 }

  function Charges(hs: seq<Header>): nat {
    if hs == [] then 0 else Charge(hs[0]) + Charges(hs[1..])
  }

  function PayloadText(b: Payload): string {
    match b
    case NoBody => ""
    case Fixed(bytes) => bytes
    case Chunked(chunks) => Concat(chunks)
  }

  /** The request that a message stands for. */
  function Meaning(m: Message): Request {
    SetPath(EMPTY_REQUEST.(verb := StringToMethod(m.verb), headers := Kept(m.headers), body := PayloadText(m.payload)), m.target)
  }

  // ---------- Runs of the byte loop ----------

  predicate OnBuffer(data: string, c: Cursor) { c.start <= c.pos <= |data| }

  /** The byte loop comes from one cursor to the other. */
  ghost predicate Goes(data: string, c: Cursor, d: Cursor) {
    && OnBuffer(data, c) && OnBuffer(data, d)
    && forall key {:trigger Unfold(key)} :: Unfold(key) ==> Scan(data, c) == Scan(data, d)
  }

  lemma GoesOn(data: string, c: Cursor, d: Cursor, e: Cursor)
    requires Goes(data, c, d) && Goes(data, d, e)
    ensures Goes(data, c, e)
  {
    assert Unfold(true);
  }

  lemma GoesStep(data: string, c: Cursor, d: Cursor)
    requires OnBuffer(data, c) && c.pos < |data| && Scanning(c.p.state) && d == Step(data, c)
    ensures Goes(data, c, d)
  {
    assert Unfold(true);
  }

  predicate Idle(s: State, ch: char) {
    match s
    case InMethod => ch != ' '
    case InPath => ch != ' '
    case InVersion => ch != '\n'
    case InValue => ch != '\n'
    case _ => false
  }

  /** Bytes that the current state only passes over. */
  lemma {:induction false} PassesOver(data: string, c: Cursor, text: string, d: Cursor)
    requires OnBuffer(data, c) && Matches(data, text, c.pos) && d == c.(pos := c.pos + |text|)
    requires forall i :: 0 <= i < |text| ==> Idle(c.p.state, text[i])
    ensures Goes(data, c, d)
    decreases |text|
  {
    if text == "" {
      assert c == d;
    } else {
      MatchAt(data, text, c.pos, 0);
      var c' := c.(pos := c.pos + 1);
      GoesStep(data, c, c');
      assert text == text[..1] + text[1..];
      SplitMatch(data, text[..1], text[1..], c.pos);
      PassesOver(data, c', text[1..], d);
      GoesOn(data, c, c', d);
    }
  }

  // ---------- A header line ----------

  predicate KeyText(text: string) { ':' !in text && '\n' !in text }

  /** Every byte of a key is charged as it passes. */
  lemma {:induction false} PassesKey(data: string, c: Cursor, text: string, d: Cursor)
    requires OnBuffer(data, c) && c.p.state == InKey && Matches(data, text, c.pos) && KeyText(text)
    requires c.p.headerBytes + |text| <= MAX_HEADER_SIZE
    requires d == Cursor(c.p.(headerBytes := c.p.headerBytes + |text|), c.pos + |text|, c.start)
    ensures Goes(data, c, d)
    decreases |text|
  {
    if text == "" {
      assert c == d;
    } else {
      MatchAt(data, text, c.pos, 0);
      var c' := Cursor(c.p.(headerBytes := c.p.headerBytes + 1), c.pos + 1, c.start);
      GoesStep(data, c, c');
      assert text == text[..1] + text[1..];
      SplitMatch(data, text[..1], text[1..], c.pos);
      PassesKey(data, c', text[1..], d);
      GoesOn(data, c, c', d);
    }
  }

  /** The cursor behind a header line. */
  function BehindLine(c: Cursor, h: Header): Cursor {
    var end := c.pos + |PrintHeader(h)|;
    Cursor(c.p.(headerBytes := c.p.headerBytes + Charge(h), currentKey := h.key, req := AddHeader(c.p.req, h), state := InKey), end, end)
  }

  /** The cursor at the value of a header line. */
  function AtValue(c: Cursor, h: Header): Cursor {
    var at := c.pos + |h.key| + 2;
    Cursor(c.p.(headerBytes := c.p.headerBytes + |h.key|, currentKey := h.key, state := InValue), at, at)
  }

  lemma LineParts(data: string, pos: nat, key: string, value: string)
    requires Matches(data, key + ": " + value + CRLF, pos)
    ensures Matches(data, key, pos) && Matches(data, ": ", pos + |key|)
    ensures var at := pos + |key| + 2;
            Matches(data, value + "\r", at) && Matches(data, value, at) && Matches(data, "\n", at + |value| + 1)
  {
    var tail := value + "\r" + "\n";
    assert key + ": " + value + CRLF == key + (": " + tail);
    SplitMatch(data, key, ": " + tail, pos);
    SplitMatch(data, ": ", tail, pos + |key|);
    SplitMatch(data, value + "\r", "\n", pos + |key| + 2);
    SplitMatch(data, value, "\r", pos + |key| + 2);
  }

  lemma ReadsKey(data: string, c: Cursor, h: Header)
    requires OnBuffer(data, c) && c.p.state == InKey && c.start == c.pos && KeyText(h.key)
    requires Matches(data, h.key, c.pos) && Matches(data, ": ", c.pos + |h.key|)
    requires c.p.headerBytes + |h.key| <= MAX_HEADER_SIZE
    ensures Goes(data, c, AtValue(c, h))
  {
    var d := Cursor(c.p.(headerBytes := c.p.headerBytes + |h.key|), c.pos + |h.key|, c.start);
    PassesKey(data, c, h.key, d);
    MatchAt(data, ": ", d.pos, 0);
    MatchAt(data, ": ", d.pos, 1);
    GoesStep(data, d, AtValue(c, h));
    GoesOn(data, c, d, AtValue(c, h));
  }

  lemma ReadsValue(data: string, c: Cursor, value: string, d: Cursor)
    requires OnBuffer(data, c) && c.p.state == InValue && c.start == c.pos && !HasLineBreak(value)
    requires Matches(data, value + "\r", c.pos) && Matches(data, value, c.pos) && Matches(data, "\n", c.pos + |value| + 1)
    requires d == EndValueOf(c, value)
    ensures Goes(data, c, d)
  {
    var m := c.(pos := c.pos + |value| + 1);
    PassesOver(data, c, value + "\r", m);
    StepsOut(data, c, value, m);
    GoesStep(data, m, d);
    GoesOn(data, c, m, d);
  }

  lemma StepsOut(data: string, c: Cursor, value: string, m: Cursor)
    requires OnBuffer(data, c) && c.p.state == InValue && c.start == c.pos && !HasLineBreak(value)
    requires Matches(data, value, c.pos) && Matches(data, "\n", c.pos + |value| + 1)
    requires m == c.(pos := c.pos + |value| + 1)
    ensures Step(data, m) == EndValueOf(c, value)
  {
    MatchAt(data, "\n", m.pos, 0);
    assert data[c.start..m.pos - 1] == value;
  }

  /** What the end of a header line does, in terms of its value. */
  function EndValueOf(c: Cursor, value: string): Cursor {
    var at := c.pos + |value| + 1;
    var bytes := c.p.headerBytes + |c.p.currentKey| + |value| + 4;
    if bytes > MAX_HEADER_SIZE then Cursor(Fail(c.p.(headerBytes := bytes), 400), at, c.start)
    else Cursor(c.p.(headerBytes := bytes, req := AddHeader(c.p.req, Header(c.p.currentKey, value)), state := InKey), at + 1, at + 1)
  }

  lemma ReadsLine(data: string, c: Cursor, h: Header)
    requires OnBuffer(data, c) && c.p.state == InKey && c.start == c.pos && WellFormedHeader(h)
    requires Matches(data, PrintHeader(h), c.pos) && c.p.headerBytes + Charge(h) <= MAX_HEADER_SIZE
    ensures Goes(data, c, BehindLine(c, h))
  {
    LineParts(data, c.pos, h.key, h.value);
    ReadsKey(data, c, h);
    var v := AtValue(c, h);
    assert EndValueOf(v, h.value) == BehindLine(c, h);
    ReadsValue(data, v, h.value, BehindLine(c, h));
    GoesOn(data, c, v, BehindLine(c, h));
  }

  // ---------- The header section ----------

  function BehindHeaders(c: Cursor, hs: seq<Header>): Cursor
    decreases |hs|
  {
    if hs == [] then c else BehindHeaders(BehindLine(c, hs[0]), hs[1..])
  }

  lemma {:induction false} ReadsHeaders(data: string, c: Cursor, hs: seq<Header>)
    requires OnBuffer(data, c) && c.p.state == InKey && c.start == c.pos && WellFormedHeaders(hs)
    requires Matches(data, PrintHeaders(hs), c.pos) && c.p.headerBytes + Charges(hs) <= MAX_HEADER_SIZE
    ensures Goes(data, c, BehindHeaders(c, hs))
    decreases |hs|
  {
    if hs == [] {
    } else {
      SplitMatch(data, PrintHeader(hs[0]), PrintHeaders(hs[1..]), c.pos);
      ReadsLine(data, c, hs[0]);
      var d := BehindLine(c, hs[0]);
      ReadsHeaders(data, d, hs[1..]);
      GoesOn(data, c, d, BehindHeaders(c, hs));
    }
  }

  function AddAll(r: Request, hs: seq<Header>): Request
    decreases |hs|
  {
    if hs == [] then r else AddAll(AddHeader(r, hs[0]), hs[1..])
  }

  lemma {:induction false} AddAllKeeps(r: Request, hs: seq<Header>, done: seq<Header>)
    requires r.headers == Kept(done)
    ensures AddAll(r, hs) == r.(headers := Kept(done + hs))
    decreases |hs|
  {
    if hs == [] {
      assert done + hs == done;
    } else {
      assert done + hs == done + [hs[0]] + hs[1..];
      AddAllKeeps(AddHeader(r, hs[0]), hs[1..], done + [hs[0]]);
    }
  }

  lemma {:induction false} BehindHeadersIs(c: Cursor, hs: seq<Header>)
    requires c.p.state == InKey && c.start == c.pos
    ensures var d := BehindHeaders(c, hs);
            && d.pos == d.start == c.pos + |PrintHeaders(hs)|
            && d.p == c.p.(headerBytes := c.p.headerBytes + Charges(hs), currentKey := d.p.currentKey, req := AddAll(c.p.req, hs))
    decreases |hs|
  {
    if hs != [] { BehindHeadersIs(BehindLine(c, hs[0]), hs[1..]); }
  }

  /** The empty line: one more byte is charged, then the body is chosen. */
  lemma ReadsEmptyLine(data: string, c: Cursor, d: Cursor)
    requires OnBuffer(data, c) && c.p.state == InKey && Matches(data, CRLF, c.pos) && c.p.headerBytes < MAX_HEADER_SIZE
    requires d == Cursor(EndHeaders(c.p.(headerBytes := c.p.headerBytes + 1)), c.pos + 2, c.pos + 2)
    ensures Goes(data, c, d)
  {
    MatchAt(data, CRLF, c.pos, 0);
    MatchAt(data, CRLF, c.pos, 1);
    var m := Cursor(c.p.(headerBytes := c.p.headerBytes + 1), c.pos + 1, c.start);
    GoesStep(data, c, m);
    GoesStep(data, m, d);
    GoesOn(data, c, m, d);
  }

  // ---------- The request line ----------

  /** A word of the request line, up to and including its delimiter. */
  lemma ReadsWord(data: string, c: Cursor, text: string, d: Cursor)
    requires OnBuffer(data, c) && c.start == c.pos && Scanning(c.p.state)
    requires forall i :: 0 <= i < |text| ==> Idle(c.p.state, text[i])
    requires Matches(data, text, c.pos) && c.pos + |text| < |data|
    requires d == Step(data, c.(pos := c.pos + |text|))
    ensures Goes(data, c, d)
  {
    var m := c.(pos := c.pos + |text|);
    PassesOver(data, c, text, m);
    GoesStep(data, m, d);
    GoesOn(data, c, m, d);
  }

  /** The parser behind the request line. */
  function AfterLine(verb: string, target: string): Parser {
    FRESH.(req := SetPath(EMPTY_REQUEST.(verb := StringToMethod(verb)), target), state := InKey)
  }

  /** The request line up to and including the space behind the method. */
  lemma ReadsVerb(data: string, verb: string, c: Cursor)
    requires Matches(data, verb + " ", 0) && ' ' !in verb
    requires c == Cursor(FRESH.(req := EMPTY_REQUEST.(verb := StringToMethod(verb)), state := InPath), |verb| + 1, |verb| + 1)
    ensures Goes(data, Cursor(FRESH, 0, 0), c)
  {
    SplitMatch(data, verb, " ", 0);
    MatchAt(data, " ", |verb|, 0);
    assert data[0..|verb|] == verb;
    ReadsWord(data, Cursor(FRESH, 0, 0), verb, c);
  }

  lemma ReadsTarget(data: string, c: Cursor, target: string, d: Cursor)
    requires OnBuffer(data, c) && c.start == c.pos && c.p.state == InPath
    requires Matches(data, target + " ", c.pos) && ' ' !in target
    requires d == Cursor(c.p.(req := SetPath(c.p.req, target), state := InVersion), c.pos + |target| + 1, c.pos + |target| + 1)
    ensures Goes(data, c, d)
  {
    SplitMatch(data, target, " ", c.pos);
    MatchAt(data, " ", c.pos + |target|, 0);
    assert data[c.pos..c.pos + |target|] == target;
    ReadsWord(data, c, target, d);
  }

  lemma ReadsVersion(data: string, c: Cursor, version: string, d: Cursor)
    requires OnBuffer(data, c) && c.start == c.pos && c.p.state == InVersion
    requires Matches(data, version + CRLF, c.pos) && '\n' !in version
    requires d == Cursor(c.p.(state := InKey), c.pos + |version| + 2, c.pos + |version| + 2)
    ensures Goes(data, c, d)
  {
    assert version + CRLF == (version + "\r") + "\n";
    SplitMatch(data, version + "\r", "\n", c.pos);
    MatchAt(data, "\n", c.pos + |version| + 1, 0);
    ReadsWord(data, c, version + "\r", d);
  }

  lemma ReadsRequestLine(data: string, verb: string, target: string, version: string, d: Cursor)
    requires Matches(data, verb + " " + target + " " + version + CRLF, 0)
    requires ' ' !in verb && ' ' !in target && '\n' !in version
    requires d == Cursor(AfterLine(verb, target), |verb| + |target| + |version| + 4, |verb| + |target| + |version| + 4)
    ensures Goes(data, Cursor(FRESH, 0, 0), d)
  {
    var a, b, v := verb + " ", target + " ", version + CRLF;
    assert verb + " " + target + " " + version + CRLF == a + (b + v);
    SplitMatch(data, a, b + v, 0);
    SplitMatch(data, b, v, |a|);
    var c1 := Cursor(FRESH.(req := EMPTY_REQUEST.(verb := StringToMethod(verb)), state := InPath), |a|, |a|);
    var c2 := Cursor(AfterLine(verb, target).(state := InVersion), |a| + |b|, |a| + |b|);
    ReadsVerb(data, verb, c1);
    ReadsTarget(data, c1, target, c2);
    ReadsVersion(data, c2, version, d);
    GoesOn(data, Cursor(FRESH, 0, 0), c1, c2);
    GoesOn(data, Cursor(FRESH, 0, 0), c2, d);
  }

  // ---------- Too many header bytes ----------

  /** The byte loop ends with status 400. */
  ghost predicate Fails(data: string, c: Cursor) {
    OnBuffer(data, c) && forall key {:trigger Unfold(key)} :: Unfold(key) ==>
      Scan(data, c).p.state == Error && Scan(data, c).p.errorStatus == 400
  }

  lemma FailsAfter(data: string, c: Cursor, d: Cursor)
    requires Goes(data, c, d) && Fails(data, d)
    ensures Fails(data, c)
  {
    assert Unfold(true);
  }

  lemma {:induction false} KeyFails(data: string, c: Cursor, text: string)
    requires OnBuffer(data, c) && c.p.state == InKey && Matches(data, text, c.pos) && KeyText(text)
    requires c.p.headerBytes <= MAX_HEADER_SIZE < c.p.headerBytes + |text|
    ensures Fails(data, c)
    decreases |text|
  {
    MatchAt(data, text, c.pos, 0);
    if c.p.headerBytes < MAX_HEADER_SIZE {
      var c' := Cursor(c.p.(headerBytes := c.p.headerBytes + 1), c.pos + 1, c.start);
      GoesStep(data, c, c');
      assert text == text[..1] + text[1..];
      SplitMatch(data, text[..1], text[1..], c.pos);
      KeyFails(data, c', text[1..]);
      FailsAfter(data, c, c');
    }
  }

  lemma LineFails(data: string, c: Cursor, h: Header)
    requires OnBuffer(data, c) && c.p.state == InKey && c.start == c.pos && WellFormedHeader(h)
    requires Matches(data, PrintHeader(h), c.pos) && c.p.headerBytes <= MAX_HEADER_SIZE < c.p.headerBytes + Charge(h)
    ensures Fails(data, c)
  {
    LineParts(data, c.pos, h.key, h.value);
    if c.p.headerBytes + |h.key| > MAX_HEADER_SIZE {
      KeyFails(data, c, h.key);
    } else {
      ReadsKey(data, c, h);
      var v := AtValue(c, h);
      ReadsValue(data, v, h.value, EndValueOf(v, h.value));
      FailsAfter(data, v, EndValueOf(v, h.value));
      FailsAfter(data, c, v);
    }
  }

  lemma {:induction false} HeadersFail(data: string, c: Cursor, hs: seq<Header>)
    requires OnBuffer(data, c) && c.p.state == InKey && c.start == c.pos && WellFormedHeaders(hs)
    requires Matches(data, PrintHeaders(hs) + CRLF, c.pos)
    requires c.p.headerBytes <= MAX_HEADER_SIZE <= c.p.headerBytes + Charges(hs)
    ensures Fails(data, c)
    decreases |hs|
  {
    if hs == [] {
      assert PrintHeaders(hs) + CRLF == "\r" + "\n";
      SplitMatch(data, "\r", "\n", c.pos);
      KeyFails(data, c, "\r");
    } else {
      assert PrintHeaders(hs) + CRLF == PrintHeader(hs[0]) + (PrintHeaders(hs[1..]) + CRLF);
      SplitMatch(data, PrintHeader(hs[0]), PrintHeaders(hs[1..]) + CRLF, c.pos);
      if c.p.headerBytes + Charge(hs[0]) > MAX_HEADER_SIZE {
        LineFails(data, c, hs[0]);
      } else {
        ReadsLine(data, c, hs[0]);
        var d := BehindLine(c, hs[0]);
        HeadersFail(data, d, hs[1..]);
        FailsAfter(data, c, d);
      }
    }
  }

  // ---------- The whole request ----------

  lemma HeadParts(data: string, m: Message)
    requires Matches(data, PrintHead(m), 0)
    ensures Matches(data, RequestLine(m), 0) && Matches(data, PrintHeaders(m.headers) + CRLF, |RequestLine(m)|)
  {
    assert PrintHead(m) == RequestLine(m) + (PrintHeaders(m.headers) + CRLF);
    SplitMatch(data, RequestLine(m), PrintHeaders(m.headers) + CRLF, 0);
  }

  lemma {:induction false} HeadersEndLine(hs: seq<Header>)
    requires hs != []
    ensures |PrintHeaders(hs)| >= 2 && PrintHeaders(hs)[|PrintHeaders(hs)| - 2..] == CRLF
    decreases |hs|
  {
    if |hs| == 1 {
      assert PrintHeaders(hs) == PrintHeader(hs[0]) + "";
    } else {
      HeadersEndLine(hs[1..]);
    }
  }

  /** The printed head contains a header terminator. */
  lemma HeadEnds(data: string, m: Message)
    requires Matches(data, PrintHead(m), 0)
    ensures IndexOf(data, CRLFCRLF, 0).Some?
  {
    var head := PrintHead(m);
    var body := RequestLine(m) + PrintHeaders(m.headers);
    if m.headers != [] { HeadersEndLine(m.headers); }
    assert body[|body| - 2..] == CRLF;
    assert head == body[..|body| - 2] + CRLFCRLF;
    SplitMatch(data, body[..|body| - 2], CRLFCRLF, 0);
    assert Matches(data, CRLFCRLF, |body| - 2);
  }

  /** The parser behind the header lines. */
  function Section(p: Parser, hs: seq<Header>, key: string): Parser {
    p.(headerBytes := Charges(hs) + 1, currentKey := key, req := AddAll(p.req, hs))
  }

  /** The headers and the empty line. */
  lemma ReadsSection(data: string, c: Cursor, hs: seq<Header>, end: nat) returns (key: string, d: Cursor)
    requires OnBuffer(data, c) && c.p.state == InKey && c.start == c.pos && c.p.headerBytes == 0 && WellFormedHeaders(hs)
    requires Matches(data, PrintHeaders(hs) + CRLF, c.pos) && Charges(hs) < MAX_HEADER_SIZE
    requires end == c.pos + |PrintHeaders(hs)| + 2
    ensures Goes(data, c, d) && d == Cursor(EndHeaders(Section(c.p, hs, key)), end, end)
  {
    SplitMatch(data, PrintHeaders(hs), CRLF, c.pos);
    ReadsHeaders(data, c, hs);
    BehindHeadersIs(c, hs);
    var m := BehindHeaders(c, hs);
    key := m.p.currentKey;
    assert m.p.(headerBytes := m.p.headerBytes + 1) == Section(c.p, hs, key);
    d := Cursor(EndHeaders(Section(c.p, hs, key)), end, end);
    ReadsEmptyLine(data, m, d);
    GoesOn(data, c, m, d);
  }

  /** The cursor behind the whole head. */
  function AfterHead(m: Message, key: string): Cursor {
    Cursor(EndHeaders(Section(AfterLine(m.verb, m.target), m.headers, key)), |PrintHead(m)|, |PrintHead(m)|)
  }

  lemma ReadsHead(data: string, m: Message) returns (key: string, d: Cursor)
    requires HeadFormed(m) && Matches(data, PrintHead(m), 0) && Charges(m.headers) < MAX_HEADER_SIZE
    ensures d == AfterHead(m, key) && Goes(data, Cursor(FRESH, 0, 0), d)
  {
    HeadParts(data, m);
    var c := Cursor(AfterLine(m.verb, m.target), |RequestLine(m)|, |RequestLine(m)|);
    ReadsRequestLine(data, m.verb, m.target, m.version, c);
    key, d := ReadsSection(data, c, m.headers, |PrintHead(m)|);
    GoesOn(data, Cursor(FRESH, 0, 0), c, d);
  }

  lemma HeadRequest(m: Message)
    ensures var r := AddAll(AfterLine(m.verb, m.target).req, m.headers);
            && r.headers == Kept(m.headers) && r.body == ""
            && r.(body := PayloadText(m.payload)) == Meaning(m)
  {
    var r := AfterLine(m.verb, m.target).req;
    assert r.headers == [];
    AddAllKeeps(r, m.headers, []);
    assert [] + m.headers == m.headers;
  }

  /** The body that the headers announce is chosen. */
  lemma ChoosesBody(p: Parser, b: Payload)
    requires Framed(Lookup(p.req.headers, "Transfer-Encoding"), Lookup(p.req.headers, "Content-Length"), b)
    ensures var q := EndHeaders(p);
            && q.req == p.req && q.chunkBody == p.chunkBody
            && (b.NoBody? ==> q.state == Complete)
            && (b.Fixed? ==> q.state == Body && q.bodyLength == |b.bytes|)
            && (b.Chunked? ==> q.state == ChunkSize)
  {
  }

  lemma ReadsFixed(data: string, p: Parser, n: nat, bytes: string)
    requires p.state == Body && p.bodyLength == |bytes| && Matches(data, bytes, n)
    ensures AfterScan(data, Cursor(p, n, n)) == Outcome(p.(req := p.req.(body := bytes), state := Complete), Some(n + |bytes|))
  {
    assert data[n..n + |bytes|] == bytes;
  }

  lemma ReadsChunked(data: string, p: Parser, n: nat, chunks: seq<string>)
    requires p.state == ChunkSize && p.chunkBody == "" && |Concat(chunks)| <= MAX_BODY_SIZE
    requires Matches(data, Frames(chunks) + LAST, n)
    ensures AfterScan(data, Cursor(p, n, n)) == Decoded(p, Concat(chunks), n + |Frames(chunks)| + |LAST|)
  {
    FramesYield(data, p, n, chunks, Decoded(p, Concat(chunks), n + |Frames(chunks)| + |LAST|));
    assert Unfold(true);
  }

  lemma ChunkedCompletes(data: string, p: Parser, n: nat, chunks: seq<string>)
    requires p.state == ChunkSize && p.chunkBody == "" && |Concat(chunks)| <= MAX_BODY_SIZE
    requires Matches(data, Frames(chunks) + LAST, n)
    ensures var out := AfterScan(data, Cursor(p, n, n));
            out.p.state == Complete && out.p.req == p.req.(body := Concat(chunks)) && out.consumed == Some(n + |Frames(chunks) + LAST|)
  {
    ReadsChunked(data, p, n, chunks);
    assert "" + Concat(chunks) == Concat(chunks);
  }

  /** Behind the empty line, the announced payload completes the request. */
  lemma PayloadCompletes(data: string, p: Parser, q: Parser, n: nat, b: Payload)
    requires Framed(Lookup(p.req.headers, "Transfer-Encoding"), Lookup(p.req.headers, "Content-Length"), b)
    requires p.req.body == p.chunkBody == "" && q == EndHeaders(p) && Matches(data, PrintPayload(b), n)
    ensures var out := AfterScan(data, Cursor(q, n, n));
            out.p.state == Complete && out.p.req == p.req.(body := PayloadText(b)) && out.consumed == Some(n + |PrintPayload(b)|)
  {
    ChoosesBody(p, b);
    match b
    case NoBody =>
    case Fixed(bytes) => ReadsFixed(data, q, n, bytes);
    case Chunked(chunks) => ChunkedCompletes(data, q, n, chunks);
  }

  /** The request is complete, means what was printed, and has used up `n` bytes. */
  predicate Completes(req: Request, out: Outcome, n: nat) {
    out.p.state == Complete && out.p.req == req && out.consumed == Some(n)
  }

  /** The cursor behind the head of the message, unfolded only where the key is turned. */
  ghost predicate IsAfterHead(d: Cursor, m: Message, key: string) {
    forall k {:trigger Unfold(k)} :: Unfold(k) ==> d == AfterHead(m, key)
  }

  lemma AtBody(m: Message, key: string, d: Cursor, p: Parser)
    requires IsAfterHead(d, m, key) && p == Section(AfterLine(m.verb, m.target), m.headers, key)
    ensures d.p == EndHeaders(p) && d.start == d.pos && p.chunkBody == p.req.body == ""
    ensures p.req.headers == Kept(m.headers) && p.req.(body := PayloadText(m.payload)) == Meaning(m)
  {
    assert Unfold(true);
    HeadRequest(m);
  }

  lemma ReadsPayload(data: string, m: Message, key: string, d: Cursor, n: nat)
    requires WellFormed(m) && IsAfterHead(d, m, key) && d.start <= d.pos <= |data| && Matches(data, PrintPayload(m.payload), d.pos)
    requires n == d.pos + |PrintPayload(m.payload)|
    ensures Completes(Meaning(m), AfterScan(data, d), n)
  {
    var p := Section(AfterLine(m.verb, m.target), m.headers, key);
    AtBody(m, key, d, p);
    PayloadCompletes(data, p, d.p, d.pos, m.payload);
  }

  lemma Located(data: string, a: string, b: string, rest: string)
    requires data == a + b + rest
    ensures Matches(data, a, 0) && Matches(data, b, |a|)
  {
    assert data[0..|a|] == a && data[|a|..|a| + |b|] == b;
  }

  /** A cursor whose state ends phase 1 is where the byte loop stops. */
  lemma Stops(data: string, c: Cursor, d: Cursor)
    requires Goes(data, c, d) && !Scanning(d.p.state)
    ensures Scan(data, c) == d
  {
    assert Unfold(true);
  }

  lemma HeadStops(m: Message, key: string)
    requires HeadFormed(m)
    ensures !Scanning(AfterHead(m, key).p.state)
  {
    HeadRequest(m);
  }

  /** The byte loop stops behind the head of a printed request. */
  lemma ScansHead(data: string, m: Message) returns (key: string, d: Cursor)
    requires HeadFormed(m) && Charges(m.headers) < MAX_HEADER_SIZE && Matches(data, PrintHead(m), 0)
    ensures IsAfterHead(d, m, key) && d.start <= d.pos == |PrintHead(m)| <= |data| && Scan(data, Cursor(FRESH, 0, 0)) == d
  {
    key, d := ReadsHead(data, m);
    HeadStops(m, key);
    Stops(data, Cursor(FRESH, 0, 0), d);
  }

  lemma Accepts(data: string, m: Message, n: nat)
    requires WellFormed(m) && Charges(m.headers) < MAX_HEADER_SIZE
    requires Matches(data, PrintHead(m), 0) && Matches(data, PrintPayload(m.payload), |PrintHead(m)|)
    requires n == |PrintHead(m)| + |PrintPayload(m.payload)|
    ensures Completes(Meaning(m), Parse(FRESH, data), n)
  {
    var key, d := ScansHead(data, m);
    ParsesBehind(data, m, d);
    ReadsPayload(data, m, key, d, n);
  }

  lemma ParsesBehind(data: string, m: Message, d: Cursor)
    requires HeadFormed(m) && Matches(data, PrintHead(m), 0) && Scan(data, Cursor(FRESH, 0, 0)) == d
    ensures Parse(FRESH, data) == AfterScan(data, d)
  {
    HeadEnds(data, m);
    FreshParse(data);
  }

  lemma Refuses(data: string, m: Message)
    requires HeadFormed(m) && Charges(m.headers) >= MAX_HEADER_SIZE && Matches(data, PrintHead(m), 0)
    ensures Parse(FRESH, data).p.state == Error && Parse(FRESH, data).p.errorStatus == 400
  {
    HeadEnds(data, m);
    HeadParts(data, m);
    var c := Cursor(AfterLine(m.verb, m.target), |RequestLine(m)|, |RequestLine(m)|);
    ReadsRequestLine(data, m.verb, m.target, m.version, c);
    HeadersFail(data, c, m.headers);
    FailsAfter(data, Cursor(FRESH, 0, 0), c);
    FailsParse(data);
  }

  lemma FailsParse(data: string)
    requires IndexOf(data, CRLFCRLF, 0).Some? && Fails(data, Cursor(FRESH, 0, 0))
    ensures Parse(FRESH, data).p.state == Error && Parse(FRESH, data).p.errorStatus == 400
  {
    FreshParse(data);
    assert Unfold(true);
  }

  /** The request is recovered if it is within the limit, and refused otherwise. */
  predicate Recovered(m: Message, out: Outcome, n: nat) {
    if Charges(m.headers) < MAX_HEADER_SIZE then Completes(Meaning(m), out, n)
    else out.p.state == Error && out.p.errorStatus == 400
  }

  lemma ParsesAt(data: string, m: Message, n: nat)
    requires WellFormed(m) && n == |PrintHead(m)| + |PrintPayload(m.payload)|
    requires Matches(data, PrintHead(m), 0) && Matches(data, PrintPayload(m.payload), |PrintHead(m)|)
    ensures Recovered(m, Parse(FRESH, data), n)
  {
    if Charges(m.headers) < MAX_HEADER_SIZE { Accepts(data, m, n); } else { Refuses(data, m); }
  }

  /** Print and parse: a well-formed request is recovered exactly, and exactly its own bytes are
      consumed, whatever is pipelined behind it - as long as its header section is within the limit
      by the parser's own count. Beyond that limit it is refused with status 400. */
  lemma PrintParse(m: Message, rest: string)
    requires WellFormed(m)
    ensures Recovered(m, Parse(FRESH, Print(m) + rest), |Print(m)|)
  {
    var data := Print(m) + rest;
    Located(data, PrintHead(m), PrintPayload(m.payload), rest);
    ParsesAt(data, m, |Print(m)|);
  }
}
