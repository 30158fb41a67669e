/** What one read of a message does to a connection, in terms of the message's own headers. */
module ConnectionRules {
  import opened Text
  import opened HttpParser
  import opened ParserProperties
  import opened Connection
  import opened RequestRoundTrip
  import opened HeadDecision
  import ErasedViews
  import Pipelined

  // ---------- The path guard ----------

  lemma ContainsIff(s: string, p: string)
    ensures Contains(s, p) <==> exists k: nat :: Matches(s, p, k)
  {
  }

  /** The first "/.." of a path is its end. */
  ghost predicate EndsAtFirst(p: string) {
    exists k: nat :: k + 3 == |p| && Matches(p, "/..", k) && forall j: nat :: j < k ==> !Matches(p, "/..", j)
  }

  /** The guard refuses exactly these paths: with "/../" in them, ending in their first "/..", with one of four encoded
      forms in them, or of two bytes. */
  lemma PathRejectedIff(p: string)
    ensures PathRejected(p) <==>
            || (exists k: nat :: Matches(p, "/../", k)) || EndsAtFirst(p) || |p| == 2
            || (exists k: nat :: Matches(p, "%2e%2e", k)) || (exists k: nat :: Matches(p, "%2E%2E", k))
            || (exists k: nat :: Matches(p, "%2e.", k)) || (exists k: nat :: Matches(p, ".%2e", k))
  {
    ContainsIff(p, "/../");
    ContainsIff(p, "%2e%2e");
    ContainsIff(p, "%2E%2E");
    ContainsIff(p, "%2e.");
    ContainsIff(p, ".%2e");
    DotsAtEnd(p);
  }

  lemma DotsAtEnd(p: string)
    ensures (match IndexOf(p, "/..", 0) case Some(k) => k + 3 == |p| case None => |p| == 2) <==> EndsAtFirst(p) || |p| == 2
  {
    if k: nat :| k + 3 == |p| && Matches(p, "/..", k) && forall j: nat :: j < k ==> !Matches(p, "/..", j) {
      IndexOfIs(p, "/..", 0, k);
    }
    if |p| == 2 { assert forall k: nat :: !Matches(p, "/..", k); }
  }

  // ---------- The headers that decide ----------

  /** "websocket", each letter large or small. */
  predicate SaysWebSocket(v: string) {
    |v| == 9 && forall k :: 0 <= k < 9 ==> v[k] == "websocket"[k] || v[k] == "WEBSOCKET"[k]
  }

  lemma IsWebSocketIff(v: string)
    ensures IsWebSocket(v) <==> SaysWebSocket(v)
  {
    var small, large := "websocket", "WEBSOCKET";
    forall k | 0 <= k < 9 ensures forall c: char :: ToLower(c) == small[k] <==> c == small[k] || c == large[k] {
      assert 'a' <= small[k] <= 'z' && large[k] - 'A' == small[k] - 'a' && 'A' <= large[k] <= 'Z';
    }
  }

  /** The value that counts for a key of a message; the request has room for 32 headers. */
  ghost predicate Says(m: Message, key: string, v: string) { Counts(RequestRoundTrip.Kept(m.headers), key, v) }

  lemma SaysIff(m: Message, key: string, v: string)
    requires Says(m, key, v)
    ensures Lookup(Meaning(m).headers, key) == v
  {
    LookupIff(RequestRoundTrip.Kept(m.headers), key, v);
    HeadRequest(m);
  }

  // ---------- A message alone in its read ----------

  /** On a connection that holds nothing, a message in a read of its own is handed over exactly if its target is a route
      for it and its first "Upgrade" is "websocket" in any case; it leaves the connection open exactly if its first
      "Connection", if it has one, is not "close", fewer than a hundred have been handled, and it is let through. */
  lemma AloneOutcome(wsPaths: set<string>, accepts: Request -> bool, c: Conn, m: Message, connection: string, upgrade: string)
    requires c.status == Open && c.buf == "" && Pipelined.Sendable(m)
    requires Says(m, "Connection", connection) && Says(m, "Upgrade", upgrade)
    ensures var d, req := Receive(Server(wsPaths, accepts), c, Print(m)), Meaning(m);
            && d.handled == c.handled + 1 && !d.sent100
            && d.status == (if PathRejected(req.path) then Closed
                            else if req.path in wsPaths && SaysWebSocket(upgrade) then Upgraded
                            else if connection != "close" && c.handled + 1 < 100 && accepts(req) then Open
                            else Closed)
            && d.said == (if PathRejected(req.path) then c.said + [400] else c.said)
            && d.dispatched == (if PathRejected(req.path) || (req.path in wsPaths && SaysWebSocket(upgrade)) then c.dispatched
                                else c.dispatched + [req])
            && (d.status == Open ==> d.buf == "")
  {
    var app, text := Server(wsPaths, accepts), Print(m);
    SaysIff(m, "Connection", connection);
    SaysIff(m, "Upgrade", upgrade);
    IsWebSocketIff(upgrade);
    Pipelined.AloneIsFaithful(app, m);
    assert "" + text == text && text + "" == text;
    Pipelined.ReadsMessage(m, "");
    assert text[|text|..] == "";
  }

  // ---------- A head whose body is still to come ----------

  /** The headers are there and the body of announced length is not: the connection waits, and asks for the body exactly if
      that was expected and has not been done. */
  lemma AwaitsBody(wsPaths: set<string>, accepts: Request -> bool, c: Conn, m: Message, part: string, cl: string, wish: string)
    requires c.status == Open && c.buf == "" && HeadFormed(m) && Charges(m.headers) < MAX_HEADER_SIZE
    requires Says(m, "Transfer-Encoding", "") && Says(m, "Content-Length", cl) && Says(m, "Expect", wish)
    requires IsLength(cl) && |part| < DecimalValue(cl) <= MAX_BODY_SIZE
    ensures Receive(Server(wsPaths, accepts), c, PrintHead(m) + part)
            == if wish == "100-continue" && !c.sent100
               then c.(buf := PrintHead(m) + part, sent100 := true, said := c.said + [100])
               else c.(buf := PrintHead(m) + part)
  {
    AwaitedHead(m, part, cl, wish);
    var app, data := Server(wsPaths, accepts), PrintHead(m) + part;
    assert app.head(data) == ReadHead(data);
    ReceivesPart(app, c, data, wish == "100-continue");
  }

  lemma ReceivesPart(app: App, c: Conn, data: string, asks: bool)
    requires c.status == Open && c.buf == "" && data != "" && app.head(data) == Partial(asks)
    ensures Receive(app, c, data)
            == if asks && !c.sent100 then c.(buf := data, sent100 := true, said := c.said + [100]) else c.(buf := data)
  {
    assert "" + data == data;
  }

  lemma AwaitedHead(m: Message, part: string, cl: string, wish: string)
    requires HeadFormed(m) && Charges(m.headers) < MAX_HEADER_SIZE
    requires Says(m, "Transfer-Encoding", "") && Says(m, "Content-Length", cl) && Says(m, "Expect", wish)
    requires IsLength(cl) && |part| < DecimalValue(cl) <= MAX_BODY_SIZE
    ensures ReadHead(PrintHead(m) + part) == Partial(wish == "100-continue") && PrintHead(m) + part != ""
  {
    HeadDecides(m, part, "", cl);
    AwaitedHeaders(m, part, cl);
    SaysIff(m.(payload := NoBody), "Expect", wish);
  }

  /** So it is on the first read of a connection. */
  lemma AsksAtFirst(wsPaths: set<string>, accepts: Request -> bool, m: Message, part: string, cl: string, wish: string)
    requires HeadFormed(m) && Charges(m.headers) < MAX_HEADER_SIZE
    requires Says(m, "Transfer-Encoding", "") && Says(m, "Content-Length", cl) && Says(m, "Expect", wish)
    requires IsLength(cl) && |part| < DecimalValue(cl) <= MAX_BODY_SIZE
    ensures var c := Run(Server(wsPaths, accepts), [Segment(PrintHead(m) + part)]);
            c.status == Open && c.taken == [] && c.said == if wish == "100-continue" then [100] else []
  {
    var app, read := Server(wsPaths, accepts), [Segment(PrintHead(m) + part)];
    AwaitsBody(wsPaths, accepts, ACCEPTED, m, part, cl, wish);
    assert read[..0] == [] && Run(app, []) == ACCEPTED;
    assert [] + [100] == [100];
  }

  lemma AwaitedHeaders(m: Message, part: string, cl: string)
    requires HeadFormed(m) && Charges(m.headers) < MAX_HEADER_SIZE
    requires Says(m, "Transfer-Encoding", "") && Says(m, "Content-Length", cl)
    requires IsLength(cl) && |part| < DecimalValue(cl) <= MAX_BODY_SIZE
    ensures Parse(FRESH, PrintHead(m) + part).p.req == Meaning(m.(payload := NoBody))
  {
    var p, d := BehindHead(m, part, PrintHead(m) + part, "", cl);
    Chooses(p, "", cl, d.p);
  }

  /** A head that is refused is answered with the parser's status, and the connection closed. */
  lemma RefusedOutcome(wsPaths: set<string>, accepts: Request -> bool, c: Conn, data: string, code: nat)
    requires c.status == Open && c.buf == "" && data != "" && RefusedWith(Parse(FRESH, data), code) && code > 0
    ensures Receive(Server(wsPaths, accepts), c, data) == c.(buf := data, status := Closed, said := c.said + [code])
  {
    assert "" + data == data;
  }

  // ---------- Over every run ----------

  predicate OnlyContinues(said: seq<nat>) { forall i :: 0 <= i < |said| ==> said[i] == 100 }

  /** Nothing is written behind a refusal, which is with 400 or 413. */
  predicate EndsIfRefused(said: seq<nat>) {
    forall i :: 0 <= i < |said| ==> said[i] == 100 || (i == |said| - 1 && (said[i] == 400 || said[i] == 413))
  }

  /** The body has been asked for at most once for each request, and only a refusal is written besides. */
  predicate InTurn(c: Conn) {
    && multiset(c.said)[100] <= c.handled + (if c.sent100 then 1 else 0)
    && (c.status == Open ==> OnlyContinues(c.said))
    && EndsIfRefused(c.said)
  }

  lemma SaysMore(said: seq<nat>, code: nat)
    requires OnlyContinues(said) && (code == 100 || code == 400 || code == 413)
    ensures multiset(said + [code])[100] == multiset(said)[100] + (if code == 100 then 1 else 0)
    ensures EndsIfRefused(said + [code]) && (code == 100 ==> OnlyContinues(said + [code]))
  {
    assert multiset(said + [code]) == multiset(said) + multiset{code};
  }

  lemma HandleInTurn(app: App, c: Conn, req: Request, n: nat, seen: Request)
    requires c.status == Open && InTurn(c) && n <= |c.buf|
    ensures InTurn(Handle(app, c, req, n, seen))
  {
    SaysMore(c.said, 400);
  }

  lemma ActInTurn(app: App, c: Conn, head: Head, seen: Request)
    requires c.status == Open && InTurn(c) && (head.Whole? ==> head.size <= |c.buf|)
    requires head.Refused? ==> head.code == 400 || head.code == 413
    ensures InTurn(Act(app, c, head, seen))
  {
    match head
    case Refused(code) => SaysMore(c.said, code);
    case Partial(_) => SaysMore(c.said, 100);
    case Whole(req, n) => HandleInTurn(app, c.(sent100 := false, handled := c.handled + 1), req, n, seen);
  }

  lemma {:induction false} SaidInTurn(wsPaths: set<string>, accepts: Request -> bool, segments: seq<Segment>)
    ensures InTurn(Run(Server(wsPaths, accepts), segments))
  {
    if segments != [] {
      var app, n := Server(wsPaths, accepts), |segments| - 1;
      SaidInTurn(wsPaths, accepts, segments[..n]);
      var c := Run(app, segments[..n]);
      var data := c.buf + segments[n].bytes;
      RefusalExplained(data);
      if c.status == Open && segments[n].bytes != "" { ActInTurn(app, c.(buf := data), app.head(data), app.seen(data)); }
    }
  }
}
