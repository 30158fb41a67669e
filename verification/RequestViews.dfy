/** A request as the views it is made of: stretches of the receive buffer, and what they read once the buffer's front
    has been erased under them. */
module RequestViews {
  import opened Text
  import opened HttpParser
  import opened ParserProperties

  datatype Span = Span(from: nat, len: nat)

  const NOWHERE := Span(0, 0)

  /** A fixed-length body is a view; a decoded one belongs to the parser. */
  datatype BodyView = InBuffer(span: Span) | Owned(text: string)

  datatype HeaderView = HeaderView(key: Span, value: Span)

  datatype Views = Views(verb: Method, path: Span, query: Span, headers: seq<HeaderView>, body: BodyView)

  function End(s: Span): nat { s.from + s.len }

  /** What a view reads. */
  function Read(mem: string, s: Span): string {
    if End(s) <= |mem| then mem[s.from..End(s)] else ""
  }

  /** The view ends by `end`, and does not cover the buffer's first byte. */
  predicate Placed(s: Span, end: nat) { End(s) <= end && (s.len == 0 || s.from > 0) }

  predicate HeaderPlaced(hs: seq<HeaderView>, k: int, end: nat) {
    0 <= k < |hs| ==> Placed(hs[k].key, end) && Placed(hs[k].value, end)
  }

  ghost predicate HeadersPlaced(hs: seq<HeaderView>, end: nat) {
    forall k {:trigger HeaderPlaced(hs, k, end)} :: HeaderPlaced(hs, k, end)
  }

  predicate BodyPlaced(b: BodyView, end: nat) { b.InBuffer? ==> Placed(b.span, end) }

  ghost predicate AllPlaced(v: Views, end: nat) {
    Placed(v.path, end) && Placed(v.query, end) && HeadersPlaced(v.headers, end) && BodyPlaced(v.body, end)
  }

  function ReadHeader(mem: string, h: HeaderView): Header { Header(Read(mem, h.key), Read(mem, h.value)) }

  function ReadHeaders(mem: string, hs: seq<HeaderView>): seq<Header> {
    if |hs| == 0 then [] else ReadHeaders(mem, hs[..|hs| - 1]) + [ReadHeader(mem, hs[|hs| - 1])]
  }

  function ReadBody(mem: string, b: BodyView): string {
    match b case InBuffer(s) => Read(mem, s) case Owned(text) => text
  }

  /** The request, read through its views. */
  function ReadAll(mem: string, v: Views): Request {
    Request(v.verb, Read(mem, v.path), Read(mem, v.query), ReadHeaders(mem, v.headers), ReadBody(mem, v.body))
  }

  // ---------- The views the parser makes ----------

  /** The views so far, and the one of the current header's key. */
  datatype Marks = Marks(views: Views, key: Span)

  const UNMARKED := Marks(Views(Unknown, NOWHERE, NOWHERE, [], Owned("")), NOWHERE)

  /** `set_path` on views, the question mark being at `q` of the target. */
  function Split(v: Views, from: nat, to: nat, q: Option<nat>): Views
    requires from <= to && (q.Some? ==> from + q.value < to)
  {
    match q
    case None => v.(path := Span(from, to - from), query := NOWHERE)
    case Some(k) => v.(path := Span(from, k), query := Span(from + k + 1, to - from - k - 1))
  }

  function MarkPath(v: Views, data: string, from: nat, to: nat): Views
    requires from <= to <= |data|
  {
    Split(v, from, to, IndexOf(data[from..to], "?", 0))
  }

  function MarkHeader(v: Views, h: HeaderView): Views {
    if |v.headers| < MAX_INLINE_HEADERS then v.(headers := v.headers + [h]) else v
  }

  /** What one iteration of the byte loop does to the views. */
  function Mark(data: string, c: Cursor, m: Marks): Marks
    requires c.start <= c.pos < |data| && Scanning(c.p.state)
  {
    var ch := data[c.pos];
    match c.p.state
    case InMethod => if ch == ' ' then m.(views := m.views.(verb := StringToMethod(data[c.start..c.pos]))) else m
    case InPath => if ch == ' ' then m.(views := MarkPath(m.views, data, c.start, c.pos)) else m
    case InKey => if ch == ':' then m.(key := Span(c.start, c.pos - c.start)) else m
    case InValue =>
      if ch == '\n' && c.pos > c.start
      then m.(views := MarkHeader(m.views, HeaderView(m.key, Span(c.start, c.pos - 1 - c.start))))
      else m
    case _ => m
  }

  function MarkAll(data: string, c: Cursor, m: Marks): Marks
    requires c.start <= c.pos <= |data|
    decreases |data| - c.pos, if Scanning(c.p.state) then 1 else 0
  {
    if c.pos < |data| && Scanning(c.p.state) then MarkAll(data, Step(data, c), Mark(data, c, m)) else m
  }

  /** The views of the request that a fresh parser reads at the front of the buffer. */
  function ViewsOf(data: string): Views {
    var c := Scan(data, BEGIN);
    MarkAll(data, BEGIN, UNMARKED).views.(
      body := if c.p.state == Body then InBuffer(Span(c.start, c.p.bodyLength)) else Owned(Parse(FRESH, data).p.req.body))
  }

  // ---------- They read what was parsed ----------

  predicate HeaderReads(mem: string, hs: seq<HeaderView>, headers: seq<Header>, k: int)
    requires |hs| == |headers|
  {
    0 <= k < |hs| ==> headers[k] == ReadHeader(mem, hs[k])
  }

  predicate HeadersRead(mem: string, hs: seq<HeaderView>, headers: seq<Header>) {
    |hs| == |headers| && forall k {:trigger HeaderReads(mem, hs, headers, k)} :: 0 <= k < |hs| ==> HeaderReads(mem, hs, headers, k)
  }

  /** The views read this request, but for the body. */
  predicate Reads(mem: string, v: Views, r: Request) {
    r.verb == v.verb && r.path == Read(mem, v.path) && r.query == Read(mem, v.query) && HeadersRead(mem, v.headers, r.headers)
  }

  /** The parser's request is what the views read, all of them behind the first byte and before the cursor. */
  ghost predicate Legible(data: string, c: Cursor, m: Marks) {
    && c.start <= c.pos <= |data| && AllPlaced(m.views, c.pos) && Placed(m.key, c.pos)
    && (c.p.state != InMethod ==> c.start > 0)
    && c.p.currentKey == Read(data, m.key) && Reads(data, m.views, c.p.req) && c.p.req.body == ""
  }

  /** The same, used only where the key is turned. */
  ghost predicate Marked(data: string, c: Cursor, m: Marks) {
    && c.start <= c.pos <= |data|
    && forall key {:trigger Unfold(key)} :: Unfold(key) ==> Legible(data, c, m)
  }

  lemma PlacedLater(v: Views, end: nat, later: nat)
    requires AllPlaced(v, end) && end <= later
    ensures AllPlaced(v, later)
  {
    forall k ensures HeaderPlaced(v.headers, k, later) { assert HeaderPlaced(v.headers, k, end); }
  }

  lemma EmptyRead(mem: string, s: Span, text: string)
    requires s.len == 0 && |text| == 0
    ensures Read(mem, s) == text
  {
  }

  lemma ReadsSlice(data: string, from: nat, to: nat)
    requires from <= to <= |data|
    ensures Read(data, Span(from, to - from)) == data[from..to]
  {
  }

  /** Splitting the target at `k`. */
  lemma SplitReads(data: string, from: nat, to: nat, k: nat)
    requires from + k < to <= |data|
    ensures Read(data, Span(from, k)) == data[from..to][..k]
    ensures Read(data, Span(from + k + 1, to - from - k - 1)) == data[from..to][k + 1..]
  {
  }

  /** `set_path`, the question mark being at `q`. */
  lemma TargetIs(r: Request, raw: string, q: Option<nat>, s: Request)
    requires q == IndexOf(raw, "?", 0) && s == SetPath(r, raw)
    ensures s == r.(path := s.path, query := s.query)
    ensures q.None? ==> s.path == raw && s.query == ""
    ensures q.Some? ==> q.value < |raw| && s.path == raw[..q.value] && s.query == raw[q.value + 1..]
  {
  }

  lemma TargetReads(data: string, v: Views, from: nat, to: nat, q: Option<nat>, path: string, query: string)
    requires 0 < from <= to <= |data| && (q.Some? ==> from + q.value < to)
    requires q.None? ==> path == data[from..to] && query == ""
    requires q.Some? ==> path == data[from..to][..q.value] && query == data[from..to][q.value + 1..]
    ensures Read(data, Split(v, from, to, q).path) == path && Read(data, Split(v, from, to, q).query) == query
  {
    match q
    case None => ReadsSlice(data, from, to);
    case Some(k) => SplitReads(data, from, to, k);
  }

  lemma TargetPlaced(v: Views, from: nat, to: nat, q: Option<nat>)
    requires 0 < from <= to && (q.Some? ==> from + q.value < to)
    ensures Placed(Split(v, from, to, q).path, to) && Placed(Split(v, from, to, q).query, to)
  {
  }

  /** The cursor moves on and a new token begins. */
  predicate Restarts(c: Cursor, d: Cursor, key: string, r: Request) {
    d.start == d.pos == c.pos + 1 && d.p.currentKey == key && d.p.req == r
  }

  lemma TargetNext(data: string, c: Cursor, m: Marks, d: Cursor, s: Request, w: Views)
    requires Marked(data, c, m) && c.pos < |data| && Restarts(c, d, c.p.currentKey, s)
    requires w == m.views.(path := w.path, query := w.query) && Placed(w.path, c.pos) && Placed(w.query, c.pos)
    requires s == c.p.req.(path := s.path, query := s.query) && Read(data, w.path) == s.path && Read(data, w.query) == s.query
    ensures Marked(data, d, m.(views := w))
  {
    assert Unfold(true);
    PlacedLater(m.views, c.pos, c.pos + 1);
  }

  lemma SameNext(data: string, c: Cursor, m: Marks, d: Cursor)
    requires Marked(data, c, m) && c.pos <= d.pos <= |data| && c.start <= d.start <= d.pos
    requires d.p.req == c.p.req && d.p.currentKey == c.p.currentKey && (c.p.state == InMethod ==> d.p.state == InMethod)
    ensures Marked(data, d, m)
  {
    assert Unfold(true);
    PlacedLater(m.views, c.pos, d.pos);
  }

  lemma VerbNext(data: string, c: Cursor, m: Marks, d: Cursor, verb: Method)
    requires Marked(data, c, m) && c.pos < |data| && Restarts(c, d, c.p.currentKey, c.p.req.(verb := verb))
    ensures Marked(data, d, m.(views := m.views.(verb := verb)))
  {
    assert Unfold(true);
    PlacedLater(m.views, c.pos, d.pos);
  }

  lemma KeyNext(data: string, c: Cursor, m: Marks, d: Cursor)
    requires Marked(data, c, m) && c.start > 0 && c.pos < d.pos == d.start <= |data|
    requires d.p.req == c.p.req && d.p.currentKey == data[c.start..c.pos]
    ensures Marked(data, d, m.(key := Span(c.start, c.pos - c.start)))
  {
    assert Unfold(true);
    PlacedLater(m.views, c.pos, d.pos);
    ReadsSlice(data, c.start, c.pos);
  }

  lemma HeaderAdded(mem: string, v: Views, r: Request, hv: HeaderView, h: Header, end: nat)
    requires Reads(mem, v, r) && h == ReadHeader(mem, hv) && AllPlaced(v, end) && Placed(hv.key, end) && Placed(hv.value, end)
    ensures Reads(mem, MarkHeader(v, hv), AddHeader(r, h)) && AllPlaced(MarkHeader(v, hv), end)
  {
    var hs, headers := v.headers + [hv], r.headers + [h];
    forall k | 0 <= k < |hs| ensures HeaderReads(mem, hs, headers, k) {
      if k < |v.headers| { assert HeaderReads(mem, v.headers, r.headers, k); }
    }
    forall k ensures HeaderPlaced(hs, k, end) {
      assert HeaderPlaced(v.headers, k, end);
    }
  }

  lemma KeyText(data: string, c: Cursor, m: Marks)
    requires Marked(data, c, m)
    ensures c.p.currentKey == Read(data, m.key)
  {
    assert Unfold(true);
  }

  lemma ValueNext(data: string, c: Cursor, m: Marks, d: Cursor, h: Header, hv: HeaderView)
    requires Marked(data, c, m) && 0 < c.start < c.pos < |data| && h == ReadHeader(data, hv)
    requires Restarts(c, d, c.p.currentKey, AddHeader(c.p.req, h)) && hv == HeaderView(m.key, Span(c.start, c.pos - 1 - c.start))
    ensures Marked(data, d, m.(views := MarkHeader(m.views, hv)))
  {
    assert Unfold(true);
    PlacedLater(m.views, c.pos, c.pos + 1);
    HeaderAdded(data, m.views, c.p.req, hv, h, c.pos + 1);
  }

  // ---------- Step by step ----------

  lemma VerbStep(data: string, c: Cursor)
    requires c.start <= c.pos < |data| && c.p.state == InMethod && data[c.pos] == ' '
    ensures Restarts(c, Step(data, c), c.p.currentKey, c.p.req.(verb := StringToMethod(data[c.start..c.pos])))
  {
  }

  lemma TargetStep(data: string, c: Cursor, s: Request)
    requires c.start <= c.pos < |data| && c.p.state == InPath && data[c.pos] == ' ' && s == SetPath(c.p.req, data[c.start..c.pos])
    ensures Restarts(c, Step(data, c), c.p.currentKey, s)
  {
  }

  /** The end of a header line that is accepted. */
  lemma ValueStep(data: string, c: Cursor, h: Header)
    requires c.start <= c.pos < |data| && c.p.state == InValue && data[c.pos] == '\n' && Step(data, c).p.state != Error
    requires c.pos > c.start ==> h == Header(c.p.currentKey, data[c.start..c.pos - 1])
    ensures c.pos > c.start && Restarts(c, Step(data, c), c.p.currentKey, AddHeader(c.p.req, h))
  {
  }

  lemma KeyStep(data: string, c: Cursor)
    requires c.start <= c.pos < |data| && c.p.state == InKey && data[c.pos] == ':'
    ensures var d := Step(data, c); c.pos < d.pos == d.start <= |data| && d.p.req == c.p.req && d.p.currentKey == data[c.start..c.pos]
  {
  }

  /** No token ends here, or one that leaves nothing. */
  predicate Passes(data: string, c: Cursor)
    requires c.pos < |data|
  {
    match c.p.state
    case InMethod => data[c.pos] != ' '
    case InPath => data[c.pos] != ' '
    case InKey => data[c.pos] != ':'
    case InValue => data[c.pos] != '\n'
    case _ => true
  }

  lemma PassStep(data: string, c: Cursor, m: Marks)
    requires c.start <= c.pos < |data| && HeaderState(c.p.state) && Passes(data, c) && Step(data, c).p.state != Error
    ensures var d := Step(data, c);
            && c.pos <= d.pos <= |data| && c.start <= d.start <= d.pos
            && d.p.req == c.p.req && d.p.currentKey == c.p.currentKey && (c.p.state == InMethod ==> d.p.state == InMethod)
    ensures Mark(data, c, m) == m
  {
  }

  /** `set_path` on the views reads as `set_path` on the request. */
  lemma TargetFacts(data: string, v: Views, from: nat, to: nat, r: Request, s: Request, w: Views)
    requires 0 < from <= to <= |data| && s == SetPath(r, data[from..to]) && w == MarkPath(v, data, from, to)
    ensures w == v.(path := w.path, query := w.query) && Placed(w.path, to) && Placed(w.query, to)
    ensures s == r.(path := s.path, query := s.query) && Read(data, w.path) == s.path && Read(data, w.query) == s.query
  {
    var raw := data[from..to];
    var q := IndexOf(raw, "?", 0);
    TargetIs(r, raw, q, s);
    TargetReads(data, v, from, to, q, s.path, s.query);
    TargetPlaced(v, from, to, q);
  }

  lemma TargetMarked(data: string, c: Cursor, m: Marks)
    requires Marked(data, c, m) && c.pos < |data| && c.p.state == InPath && data[c.pos] == ' ' && c.start > 0
    ensures Marked(data, Step(data, c), Mark(data, c, m))
  {
    var s, w := SetPath(c.p.req, data[c.start..c.pos]), MarkPath(m.views, data, c.start, c.pos);
    TargetStep(data, c, s);
    TargetFacts(data, m.views, c.start, c.pos, c.p.req, s, w);
    TargetNext(data, c, m, Step(data, c), s, w);
  }

  lemma ValueMarked(data: string, c: Cursor, m: Marks)
    requires Marked(data, c, m) && c.pos < |data| && c.p.state == InValue && data[c.pos] == '\n' && Step(data, c).p.state != Error
    requires c.start > 0
    ensures Marked(data, Step(data, c), Mark(data, c, m))
  {
    var hv := HeaderView(m.key, Span(c.start, if c.pos > c.start then c.pos - 1 - c.start else 0));
    var h := ReadHeader(data, hv);
    KeyText(data, c, m);
    if c.pos > c.start { ReadsSlice(data, c.start, c.pos - 1); }
    ValueStep(data, c, h);
    ValueNext(data, c, m, Step(data, c), h, hv);
  }

  lemma StartBehind(data: string, c: Cursor, m: Marks)
    requires Marked(data, c, m) && c.p.state != InMethod
    ensures c.start > 0
  {
    assert Unfold(true);
  }

  lemma StepMarked(data: string, c: Cursor, m: Marks)
    requires Marked(data, c, m) && c.pos < |data| && HeaderState(c.p.state) && Step(data, c).p.state != Error
    ensures Marked(data, Step(data, c), Mark(data, c, m))
  {
    if c.p.state != InMethod { StartBehind(data, c, m); }
    if Passes(data, c) {
      PassStep(data, c, m);
      SameNext(data, c, m, Step(data, c));
    } else {
      match c.p.state
      case InPath => TargetMarked(data, c, m);
      case InValue => ValueMarked(data, c, m);
      case InKey =>
        KeyStep(data, c);
        KeyNext(data, c, m, Step(data, c));
      case InMethod =>
        VerbStep(data, c);
        VerbNext(data, c, m, Step(data, c), StringToMethod(data[c.start..c.pos]));
    }
  }

  lemma NoHeadersPlaced(hs: seq<HeaderView>, end: nat)
    requires |hs| == 0
    ensures HeadersPlaced(hs, end)
  {
  }

  lemma NoHeadersRead(mem: string, hs: seq<HeaderView>, headers: seq<Header>)
    requires |hs| == |headers| == 0
    ensures HeadersRead(mem, hs, headers)
  {
  }

  lemma ReadsNothing(data: string, c: Cursor, m: Marks)
    requires c.start == 0 && c.pos == 0 && c.p.state == InMethod && c.p.currentKey == "" && c.p.req.body == ""
    requires Placed(m.key, 0) && Read(data, m.key) == "" && AllPlaced(m.views, 0) && Reads(data, m.views, c.p.req)
    ensures Legible(data, c, m)
  {
  }

  lemma BeginPlaced(v: Views)
    requires v == UNMARKED.views
    ensures AllPlaced(v, 0)
  {
    NoHeadersPlaced(v.headers, 0);
  }

  lemma BeginReads(data: string, v: Views, r: Request)
    requires v == UNMARKED.views && r == EMPTY_REQUEST
    ensures Reads(data, v, r)
  {
    EmptyRead(data, v.path, "");
    NoHeadersRead(data, v.headers, r.headers);
  }

  lemma BeginMarked(data: string)
    ensures Marked(data, BEGIN, UNMARKED)
  {
    BeginPlaced(UNMARKED.views);
    BeginReads(data, UNMARKED.views, EMPTY_REQUEST);
    EmptyRead(data, UNMARKED.key, "");
    ReadsNothing(data, BEGIN, UNMARKED);
  }

  lemma {:induction false} AllMarked(data: string, c: Cursor, m: Marks)
    requires Marked(data, c, m) && HeaderState(c.p.state) && Scan(data, c).p.state != Error
    ensures Marked(data, Scan(data, c), MarkAll(data, c, m))
    decreases |data| - c.pos
  {
    if c.pos < |data| {
      var d := Step(data, c);
      StepMarked(data, c, m);
      StepOut(data, c);
      if HeaderState(d.p.state) { AllMarked(data, d, Mark(data, c, m)); }
    }
  }

  /** A step leads to a header state, or the loop ends with it. */
  lemma StepOut(data: string, c: Cursor)
    requires c.start <= c.pos < |data| && HeaderState(c.p.state) && Scan(data, c).p.state != Error
    ensures var d := Step(data, c);
            d.p.state != Error && Scan(data, c) == Scan(data, d) && (!HeaderState(d.p.state) ==> !Scanning(d.p.state) && Scan(data, d) == d)
  {
  }

  // ---------- The whole request ----------

  /** The same request, but for the body. */
  predicate SameHead(r: Request, s: Request) { r.verb == s.verb && r.path == s.path && r.query == s.query && r.headers == s.headers }

  lemma {:induction false} ChunksKeepHead(data: string, p: Parser, pos: nat)
    requires p.state in {ChunkSize, ChunkData, ChunkDataEnd} && pos <= |data|
    ensures SameHead(Chunks(data, p, pos).p.req, p.req)
    decreases |data| - pos, if p.state == ChunkData then 1 else 0
  {
    match StepChunk(data, p, pos)
    case Return(_) =>
    case More(q, next) => ChunksKeepHead(data, q, next);
  }

  lemma {:induction false} HeadersReadAll(mem: string, hs: seq<HeaderView>, headers: seq<Header>)
    requires HeadersRead(mem, hs, headers)
    ensures headers == ReadHeaders(mem, hs)
    decreases |hs|
  {
    if |hs| > 0 {
      var n := |hs| - 1;
      forall k | 0 <= k < n ensures HeaderReads(mem, hs[..n], headers[..n], k) { assert HeaderReads(mem, hs, headers, k); }
      HeadersReadAll(mem, hs[..n], headers[..n]);
      assert HeaderReads(mem, hs, headers, n);
      assert headers == headers[..n] + [headers[n]];
    }
  }

  /** Where the header scan of a complete request ends, and what it left. */
  lemma CompleteScan(data: string, c: Cursor)
    requires Parse(FRESH, data).p.state == Complete && c == Scan(data, BEGIN)
    ensures c.p.state in {Body, ChunkSize, Complete} && Parse(FRESH, data) == AfterScan(data, c)
  {
    FreshParse(data);
    ScanKind(data, BEGIN);
  }

  lemma CompleteMarked(data: string, c: Cursor, m: Marks)
    requires Parse(FRESH, data).p.state == Complete && c == Scan(data, BEGIN) && m == MarkAll(data, BEGIN, UNMARKED)
    ensures Marked(data, c, m)
  {
    CompleteScan(data, c);
    BeginMarked(data);
    AllMarked(data, BEGIN, UNMARKED);
  }

  lemma AssembledReads(mem: string, v: Views, r: Request, w: Views, full: Request)
    requires Reads(mem, v, r) && w == v.(body := w.body) && SameHead(full, r) && full.body == ReadBody(mem, w.body)
    ensures ReadAll(mem, w) == full
  {
    HeadersReadAll(mem, v.headers, r.headers);
  }

  lemma BodyRead(data: string, c: Cursor, n: nat, b: BodyView)
    requires c.start <= |data| && c.p.state == Body && FixedBody(data, c.p, c.start).p.state == Complete && c.start > 0
    requires FixedBody(data, c.p, c.start).consumed == Some(n) && b == InBuffer(Span(c.start, c.p.bodyLength))
    ensures c.start <= n && BodyPlaced(b, n) && ReadBody(data, b) == FixedBody(data, c.p, c.start).p.req.body
    ensures SameHead(FixedBody(data, c.p, c.start).p.req, c.p.req)
  {
  }

  /** What phase 2 does to a request of which the headers have been read. */
  lemma BehindHeaders(data: string, c: Cursor, out: Outcome, n: nat, b: BodyView)
    requires 0 < c.start == c.pos <= |data| && c.p.state in {Body, ChunkSize, Complete}
    requires out == AfterScan(data, c) && out.p.state == Complete && out.consumed == Some(n)
    requires b == if c.p.state == Body then InBuffer(Span(c.start, c.p.bodyLength)) else Owned(out.p.req.body)
    ensures c.pos <= n <= |data| && BodyPlaced(b, n) && ReadBody(data, b) == out.p.req.body && SameHead(out.p.req, c.p.req)
  {
    match c.p.state
    case Body => BodyRead(data, c, n, b);
    case ChunkSize => ChunksKeepHead(data, c.p, c.pos);
    case Complete =>
  }

  /** The views of a complete request read exactly it; they lie behind the first byte and within what it consumed. */
  lemma ViewsRead(data: string, n: nat)
    requires Parse(FRESH, data).p.state == Complete && Parse(FRESH, data).consumed == Some(n)
    ensures 0 < n <= |data| && AllPlaced(ViewsOf(data), n) && ReadAll(data, ViewsOf(data)) == Parse(FRESH, data).p.req
  {
    var c, m, out := Scan(data, BEGIN), MarkAll(data, BEGIN, UNMARKED), Parse(FRESH, data);
    CompleteScan(data, c);
    CompleteMarked(data, c, m);
    ScanKind(data, BEGIN);
    StartBehind(data, c, m);
    BehindHeaders(data, c, out, n, ViewsOf(data).body);
    Assembled(data, c, m, ViewsOf(data), out.p.req, n);
  }

  lemma Assembled(data: string, c: Cursor, m: Marks, w: Views, full: Request, n: nat)
    requires Marked(data, c, m) && c.pos <= n && w == m.views.(body := w.body) && BodyPlaced(w.body, n)
    requires SameHead(full, c.p.req) && full.body == ReadBody(data, w.body)
    ensures AllPlaced(w, n) && ReadAll(data, w) == full
  {
    assert Unfold(true);
    PlacedLater(m.views, c.pos, n);
    AssembledReads(data, m.views, c.p.req, w, full);
  }
}
