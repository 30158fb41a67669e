/** The HTTP/1.1 request parser: one call of `parse`, from any state of the parser. */
module HttpParser {
  import opened Text

  const MAX_BODY_SIZE := 1048576
  const MAX_HEADER_SIZE := 8192
  const MAX_INLINE_HEADERS := 32
  const ULONG_MAX := 0xFFFF_FFFF_FFFF_FFFF

  datatype Method = Get | Post | Put | Delete | Patch | Options | Head | Unknown

  function StringToMethod(m: string): Method {
    if m == "GET" then Get
    else if m == "POST" then Post
    else if m == "PUT" then Put
    else if m == "DELETE" then Delete
    else if m == "PATCH" then Patch
    else if m == "OPTIONS" then Options
    else if m == "HEAD" then Head
    else Unknown
  }

  datatype Header = Header(key: string, value: string)

  datatype Request = Request(verb: Method, path: string, query: string, headers: seq<Header>, body: string)

  const EMPTY_REQUEST := Request(Unknown, "", "", [], "")

  /** The value of the first header with exactly this key, or the empty string. */
  function Lookup(headers: seq<Header>, key: string): string {
    if headers == [] then ""
    else if headers[0].key == key then headers[0].value
    else Lookup(headers[1..], key)
  }

  /** `add_header`: entries beyond the inline capacity are dropped. */
  function AddHeader(r: Request, h: Header): Request {
    if |r.headers| < MAX_INLINE_HEADERS then r.(headers := r.headers + [h]) else r
  }

  /** `set_path`: split the request target at the first '?'. */
  function SetPath(r: Request, raw: string): Request {
    match IndexOf(raw, "?", 0)
    case None => r.(path := raw, query := "")
    case Some(q) => r.(path := raw[..q], query := raw[q + 1..])
  }

  datatype State =
    | InMethod
    | InPath
    | InVersion
    | InKey
    | InValue
    | Body
    | ChunkSize
    | ChunkData
    | ChunkDataEnd
    | Complete
    | Error

  /** The fields of a parser, and the request it fills. */
  datatype Parser = Parser(
    state: State,
    headersComplete: bool,
    chunked: bool,
    currentKey: string,
    bodyLength: nat,
    chunkRemaining: nat,
    chunkBody: string,
    errorStatus: nat,
    headerBytes: nat,
    req: Request)

  const FRESH := Parser(InMethod, false, false, "", 0, 0, "", 0, 0, EMPTY_REQUEST)

  function Fail(p: Parser, status: nat): Parser {
    p.(state := Error, errorStatus := status)
  }

  // ---------- Phase 1: request line and headers ----------

  /** The parser and the two cursors of `parse` into its buffer. */
  datatype Cursor = Cursor(p: Parser, pos: nat, start: nat)

  const BEGIN := Cursor(FRESH, 0, 0)

  /** The states in which the byte loop of phase 1 keeps running. */
  predicate Scanning(s: State) {
    s != Body && s != ChunkSize && s != Complete && s != Error
  }

  predicate IsDigit(c: char) { '0' <= c <= '9' }

  predicate AllDigits(s: string) { forall i :: 0 <= i < |s| ==> IsDigit(s[i]) }

  function DecimalValue(s: string): nat
    requires AllDigits(s)
  {
    if s == "" then 0
    else
      assert IsDigit(s[|s| - 1]);
      DecimalValue(s[..|s| - 1]) * 10 + (s[|s| - 1] - '0') as nat
  }

  /** `std::from_chars` into an unsigned long that must use up the whole text. */
  function ParseUnsignedLong(s: string): Option<nat> {
    if s != "" && AllDigits(s) && DecimalValue(s) <= ULONG_MAX then Some(DecimalValue(s)) else None
  }

  /** The empty header line: choose how the body is framed. */
  function EndHeaders(p: Parser): Parser {
    var q := p.(headersComplete := true);
    var te := Lookup(p.req.headers, "Transfer-Encoding");
    var cl := Lookup(p.req.headers, "Content-Length");
    if te != "" && cl != "" then Fail(q, 400)
    else if te == "chunked" then q.(chunked := true, state := ChunkSize)
    else if cl != "" then
      match ParseUnsignedLong(cl)
      case None => Fail(q, 400)
      case Some(n) =>
        if n > MAX_BODY_SIZE then Fail(q.(bodyLength := n), 413) else q.(bodyLength := n, state := Body)
    else q.(state := Complete)
  }

  predicate HasLineBreak(s: string) { '\r' in s || '\n' in s }

  /** The end of a header line. With no byte between the colon (and its space) and the line feed, the
      length of the value wraps around and the view runs to the end of the buffer. */
  function EndValue(data: string, c: Cursor): Cursor
    requires c.start <= c.pos < |data|
  {
    var value := if c.pos > c.start then data[c.start..c.pos - 1] else data[c.start..];
    var bytes := c.p.headerBytes + |c.p.currentKey| + |value| + 4;
    if HasLineBreak(value) then c.(p := Fail(c.p, 400))
    else if bytes > MAX_HEADER_SIZE then c.(p := Fail(c.p.(headerBytes := bytes), 400))
    else Cursor(c.p.(headerBytes := bytes, req := AddHeader(c.p.req, Header(c.p.currentKey, value)), state := InKey),
                c.pos + 1, c.pos + 1)
  }

  /** One iteration of the byte loop. */
  function Step(data: string, c: Cursor): (r: Cursor)
    requires c.start <= c.pos < |data| && Scanning(c.p.state)
    ensures r.p.state != Error ==> c.pos < r.pos
    ensures r.p.state == Error ==> r.pos >= c.pos
    ensures r.start <= r.pos <= |data|
  {
    var ch := data[c.pos];
    var next := c.(pos := c.pos + 1);
    match c.p.state
    case InMethod =>
      if ch == ' '
      then Cursor(c.p.(req := c.p.req.(verb := StringToMethod(data[c.start..c.pos])), state := InPath), c.pos + 1, c.pos + 1)
      else next
    case InPath =>
      if ch == ' '
      then Cursor(c.p.(req := SetPath(c.p.req, data[c.start..c.pos]), state := InVersion), c.pos + 1, c.pos + 1)
      else next
    case InVersion =>
      if ch == '\n' then Cursor(c.p.(state := InKey), c.pos + 1, c.pos + 1) else next
    case InKey =>
      if ch == ':' then
        var skip := if c.pos + 1 < |data| && data[c.pos + 1] == ' ' then 2 else 1;
        Cursor(c.p.(currentKey := data[c.start..c.pos], state := InValue), c.pos + skip, c.pos + skip)
      else if ch == '\n' then
        Cursor(EndHeaders(c.p), c.pos + 1, c.pos + 1)
      else if c.p.headerBytes + 1 > MAX_HEADER_SIZE then
        c.(p := Fail(c.p.(headerBytes := c.p.headerBytes + 1), 400))
      else
        next.(p := c.p.(headerBytes := c.p.headerBytes + 1))
    case InValue =>
      if ch == '\n' then EndValue(data, c) else next
    case _ => next
  }

  /** The byte loop of phase 1. */
  function Scan(data: string, c: Cursor): (r: Cursor)
    requires c.start <= c.pos <= |data|
    ensures r.start <= r.pos <= |data|
    ensures Scanning(r.p.state) ==> r.pos == |data|
    decreases |data| - c.pos, if Scanning(c.p.state) then 1 else 0
  {
    if c.pos < |data| && Scanning(c.p.state) then Scan(data, Step(data, c)) else c
  }

  // ---------- Phase 2: the body ----------

  /** What `parse` leaves behind: the parser, and the bytes consumed (none on a hard error). */
  datatype Outcome = Outcome(p: Parser, consumed: Option<nat>)

  function FixedBody(data: string, p: Parser, start: nat): Outcome
    requires start <= |data|
  {
    if |data| - start < p.bodyLength then Outcome(p, Some(start))
    else Outcome(p.(req := p.req.(body := data[start..start + p.bodyLength]), state := Complete), Some(start + p.bodyLength))
  }

  function HexDigit(c: char): int {
    if '0' <= c <= '9' then c as int - '0' as int
    else if 'a' <= c <= 'f' then c as int - 'a' as int + 10
    else if 'A' <= c <= 'F' then c as int - 'A' as int + 10
    else -1
  }

  /** A chunk-size token read digit by digit; a refused one leaves behind the value it had reached. */
  datatype SizeResult = BadSize(status: nat, n: nat) | Size(n: nat)

  function ReadSize(tok: string, acc: nat): (r: SizeResult)
    requires acc <= MAX_BODY_SIZE
    ensures r.Size? ==> r.n <= MAX_BODY_SIZE
    decreases |tok|
  {
    if tok == "" then Size(acc)
    else
      var d := HexDigit(tok[0]);
      if d < 0 then BadSize(400, acc)
      else if acc * 16 + d > MAX_BODY_SIZE then BadSize(413, acc * 16 + d)
      else ReadSize(tok[1..], acc * 16 + d)
  }

  /** The chunk-size line without its extensions. */
  function SizeToken(line: string): string {
    match IndexOf(line, ";", 0)
    case None => line
    case Some(k) => line[..k]
  }

  /** One iteration of the chunk loop: the next parser and position, and whether `parse` returns now. */
  datatype ChunkStep = More(p: Parser, pos: nat) | Return(out: Outcome)

  /** The last chunk: one more line, the trailer, ends the body. */
  function LastChunk(data: string, p: Parser, pos: nat): (r: Outcome)
    ensures r.consumed.Some? && pos <= r.consumed.value && r.p.state in {p.state, Complete}
    ensures pos <= |data| ==> r.consumed.value <= |data|
  {
    match IndexOf(data, CRLF, pos)
    case None => Outcome(p, Some(pos))
    case Some(end) => Outcome(p.(req := p.req.(body := p.chunkBody), state := Complete), Some(end + 2))
  }

  /** A chunk-size line, with the position after it. */
  function SizeLine(data: string, p: Parser, line: string, next: nat): (r: ChunkStep)
    requires p.state == ChunkSize && next <= |data|
    ensures r.More? ==> r.p.state == ChunkData && r.pos == next
    ensures r.Return? && r.out.consumed.Some? ==> next <= r.out.consumed.value <= |data|
    ensures r.Return? ==> (r.out.consumed.None? <==> r.out.p.state == Error)
  {
    match ReadSize(SizeToken(line), 0)
    case BadSize(status, n) => Return(Outcome(Fail(p.(chunkRemaining := n), status), None))
    case Size(n) =>
      if n == 0 then Return(LastChunk(data, p.(chunkRemaining := 0), next))
      else if |p.chunkBody| + n > MAX_BODY_SIZE then Return(Outcome(Fail(p.(chunkRemaining := n), 413), None))
      else More(p.(chunkRemaining := n, state := ChunkData), next)
  }

  function StepChunk(data: string, p: Parser, pos: nat): (r: ChunkStep)
    requires p.state in {ChunkSize, ChunkData, ChunkDataEnd} && pos <= |data|
    ensures r.More? ==> r.p.state in {ChunkSize, ChunkData, ChunkDataEnd} && pos <= r.pos <= |data|
    ensures r.More? && r.pos == pos ==> p.state == ChunkData && r.p.state == ChunkDataEnd
    ensures r.Return? && r.out.consumed.Some? ==> pos <= r.out.consumed.value <= |data|
    ensures r.Return? ==> (r.out.consumed.None? <==> r.out.p.state == Error)
  {
    if p.state == ChunkSize then
      match IndexOf(data, CRLF, pos)
      case None => Return(Outcome(p, Some(pos)))
      case Some(eol) => SizeLine(data, p, data[pos..eol], eol + 2)
    else if p.state == ChunkData then
      var avail := |data| - pos;
      if avail < p.chunkRemaining
      then Return(Outcome(p.(chunkBody := p.chunkBody + data[pos..], chunkRemaining := p.chunkRemaining - avail), Some(|data|)))
      else More(p.(chunkBody := p.chunkBody + data[pos..pos + p.chunkRemaining], chunkRemaining := 0, state := ChunkDataEnd),
                pos + p.chunkRemaining)
    else if pos + 2 > |data| then Return(Outcome(p, Some(pos)))
    else if data[pos..pos + 2] != CRLF then Return(Outcome(Fail(p, 400), None))
    else More(p.(state := ChunkSize), pos + 2)
  }

  function Chunks(data: string, p: Parser, pos: nat): (r: Outcome)
    requires p.state in {ChunkSize, ChunkData, ChunkDataEnd} && pos <= |data|
    ensures r.consumed.Some? ==> pos <= r.consumed.value <= |data|
    ensures r.consumed.None? <==> r.p.state == Error
    decreases |data| - pos, if p.state == ChunkData then 1 else 0
  {
    match StepChunk(data, p, pos)
    case Return(out) => out
    case More(q, next) => Chunks(data, q, next)
  }

  // ---------- parse ----------

  /** `parse`, from any state of the parser. */
  function Parse(p: Parser, data: string): (r: Outcome)
    ensures r.consumed.None? <==> r.p.state == Error
    ensures r.consumed.Some? ==> r.consumed.value <= |data|
  {
    if !p.headersComplete && Scanning(p.state) && IndexOf(data, CRLFCRLF, 0).None? then
      var q := p.(headerBytes := p.headerBytes + |data|);
      if q.headerBytes > MAX_HEADER_SIZE then Outcome(Fail(q, 400), None) else Outcome(q, Some(|data|))
    else
      var q := if !p.headersComplete && Scanning(p.state) then p.(headerBytes := 0) else p;
      AfterScan(data, Scan(data, Cursor(q, 0, 0)))
  }

  function AfterScan(data: string, c: Cursor): (r: Outcome)
    requires c.start <= c.pos <= |data|
    ensures r.consumed.None? <==> r.p.state == Error
    ensures r.consumed.Some? ==> r.consumed.value <= |data|
  {
    match c.p.state
    case Error => Outcome(c.p, None)
    case Complete => Outcome(c.p, Some(c.pos))
    case Body => FixedBody(data, c.p, c.start)
    case ChunkSize => Chunks(data, c.p, c.pos)
    case ChunkData => Chunks(data, c.p, c.pos)
    case ChunkDataEnd => Chunks(data, c.p, c.pos)
    case _ => Outcome(c.p, Some(c.pos))
  }
}
