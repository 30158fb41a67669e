/** What the parser makes of a head by the framing its headers announce, refusals included. */
module HeadDecision {
  import opened Text
  import opened HttpParser
  import opened ParserProperties
  import opened ChunkCodec
  import opened RequestRoundTrip

  /** The parser refuses with this status and reports no count. */
  predicate RefusedWith(out: Outcome, status: nat) {
    out.p.state == Error && out.p.errorStatus == status && out.consumed == None
  }

  /** A length as the parser accepts it: decimal digits for an unsigned long. */
  predicate IsLength(text: string) { text != "" && AllDigits(text) && DecimalValue(text) <= ULONG_MAX }

  /** Where the fixed body behind the head is whole, the request is; where not, it is awaited. */
  predicate AwaitsOrHas(m: Message, rest: string, n: nat, size: nat, out: Outcome) {
    if |rest| < size then out.p.state == Body && out.p.headersComplete && out.p.bodyLength == size && out.consumed == Some(n)
    else Completes(Meaning(m.(payload := Fixed(rest[..size]))), out, n + size)
  }

  lemma ParsesHead(m: Message, rest: string, data: string) returns (key: string, d: Cursor)
    requires HeadFormed(m) && Charges(m.headers) < MAX_HEADER_SIZE && data == PrintHead(m) + rest
    ensures IsAfterHead(d, m, key) && d.start <= d.pos == |PrintHead(m)| <= |data| && Parse(FRESH, data) == AfterScan(data, d)
  {
    Located(data, PrintHead(m), rest, "");
    key, d := ScansHead(data, m);
    ParsesBehind(data, m, d);
  }

  /** The parser is before the first chunk of the message. */
  predicate InChunks(p: Parser, m: Message) {
    p.state == ChunkSize && p.chunkBody == "" && p.req == Meaning(m.(payload := NoBody)) && p.headersComplete
  }

  /** The choice at the empty line. */
  lemma Chooses(p: Parser, te: string, cl: string, q: Parser)
    requires Lookup(p.req.headers, "Transfer-Encoding") == te && Lookup(p.req.headers, "Content-Length") == cl && q == EndHeaders(p)
    ensures q.headersComplete && q.req == p.req && q.chunkBody == p.chunkBody
    ensures te != "" && cl != "" ==> q.state == Error && q.errorStatus == 400
    ensures te == "" && cl != "" && !IsLength(cl) ==> q.state == Error && q.errorStatus == 400
    ensures te == "" && IsLength(cl) && DecimalValue(cl) > MAX_BODY_SIZE ==> q.state == Error && q.errorStatus == 413
    ensures te == "" && IsLength(cl) && DecimalValue(cl) <= MAX_BODY_SIZE ==> q.state == Body && q.bodyLength == DecimalValue(cl)
    ensures te == "chunked" && cl == "" ==> q.state == ChunkSize
    ensures te != "chunked" && cl == "" ==> q.state == Complete
  {
  }

  /** The request as far as the head goes. */
  lemma HeadOf(m: Message, te: string, cl: string, r: Request)
    requires r == AddAll(AfterLine(m.verb, m.target).req, m.headers)
    requires Counts(Kept(m.headers), "Transfer-Encoding", te) && Counts(Kept(m.headers), "Content-Length", cl)
    ensures Lookup(r.headers, "Transfer-Encoding") == te && Lookup(r.headers, "Content-Length") == cl
    ensures r == Meaning(m.(payload := NoBody))
  {
    LookupIff(Kept(m.headers), "Transfer-Encoding", te);
    LookupIff(Kept(m.headers), "Content-Length", cl);
    HeadRequest(m.(payload := NoBody));
  }

  /** Where the parser is behind the head. */
  lemma BehindHead(m: Message, rest: string, data: string, te: string, cl: string) returns (p: Parser, d: Cursor)
    requires HeadFormed(m) && Charges(m.headers) < MAX_HEADER_SIZE && data == PrintHead(m) + rest
    requires Counts(Kept(m.headers), "Transfer-Encoding", te) && Counts(Kept(m.headers), "Content-Length", cl)
    ensures d.p == EndHeaders(p) && d.start == d.pos == |PrintHead(m)| <= |data| && Parse(FRESH, data) == AfterScan(data, d)
    ensures p.req == Meaning(m.(payload := NoBody)) && p.chunkBody == ""
    ensures Lookup(p.req.headers, "Transfer-Encoding") == te && Lookup(p.req.headers, "Content-Length") == cl
  {
    var key;
    key, d := ParsesHead(m, rest, data);
    p := Section(AfterLine(m.verb, m.target), m.headers, key);
    assert Unfold(true);
    HeadOf(m, te, cl, p.req);
  }

  lemma FixedBehind(m: Message, rest: string, data: string, d: Cursor, size: nat)
    requires data == PrintHead(m) + rest && d.start == d.pos == |PrintHead(m)|
    requires d.p.state == Body && d.p.bodyLength == size && d.p.headersComplete && d.p.req == Meaning(m.(payload := NoBody))
    ensures AwaitsOrHas(m, rest, |PrintHead(m)|, size, AfterScan(data, d))
  {
    if size <= |rest| {
      assert data[d.start..d.start + size] == rest[..size];
      assert Meaning(m.(payload := Fixed(rest[..size]))) == d.p.req.(body := rest[..size]) by {
        HeadRequest(m.(payload := NoBody));
        HeadRequest(m.(payload := Fixed(rest[..size])));
      }
    }
  }

  /** A head within the limit, whatever follows it. Both framings announced, or a length that is none: 400. A length beyond
      the limit: 413. One within it: exactly so many bytes. Chunks if that is what is announced; otherwise no body. */
  lemma HeadDecides(m: Message, rest: string, te: string, cl: string)
    requires HeadFormed(m) && Charges(m.headers) < 8192
    requires Counts(Kept(m.headers), "Transfer-Encoding", te) && Counts(Kept(m.headers), "Content-Length", cl)
    ensures var out, n := Parse(FRESH, PrintHead(m) + rest), |PrintHead(m)|;
            && (te != "" && cl != "" ==> RefusedWith(out, 400))
            && (te == "" && cl != "" ==>
                  if !IsLength(cl) then RefusedWith(out, 400)
                  else if DecimalValue(cl) > 1048576 then RefusedWith(out, 413)
                  else AwaitsOrHas(m, rest, n, DecimalValue(cl), out))
            && (te == "chunked" && cl == "" ==>
                  exists p: Parser {:trigger InChunks(p, m)} :: InChunks(p, m) && out == HttpParser.Chunks(PrintHead(m) + rest, p, n))
            && (te != "chunked" && cl == "" ==> Completes(Meaning(m.(payload := NoBody)), out, n))
  {
    var data := PrintHead(m) + rest;
    var p, d := BehindHead(m, rest, data, te, cl);
    Chooses(p, te, cl, d.p);
    if te == "chunked" && cl == "" {
      assert InChunks(d.p, m);
    } else if te == "" && cl != "" && IsLength(cl) && DecimalValue(cl) <= MAX_BODY_SIZE {
      FixedBehind(m, rest, data, d, DecimalValue(cl));
    }
  }

  /** A head beyond the limit is refused, whatever it announces. */
  lemma HeadTooLong(m: Message, rest: string)
    requires HeadFormed(m) && Charges(m.headers) >= 8192
    ensures RefusedWith(Parse(FRESH, PrintHead(m) + rest), 400)
  {
    Located(PrintHead(m) + rest, PrintHead(m), rest, "");
    Refuses(PrintHead(m) + rest, m);
  }
}
