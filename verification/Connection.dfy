/** The read callback of a TCP connection, and what it hands to the router for every way of cutting
    the client's bytes into reads. */
module Connection {
  import opened Text
  import opened HttpParser
  import opened ParserProperties
  import ParserObject
  import RequestViews
  import ErasedViews

  const MAX_REQUESTS := 100

  datatype Status = Open | Closed | Upgraded

  /** The state of a connection, with the requests taken from the buffer for dispatch so far, as they were parsed, and
      as router, middleware and handlers saw them; and the status codes of what the read callback itself has written. */
  datatype Conn = Conn(
    buf: string,
    handled: nat,
    sent100: bool,
    status: Status,
    taken: seq<Request>,
    dispatched: seq<Request>,
    said: seq<nat>
  )

  const ACCEPTED := Conn("", 0, false, Open, [], [], [])

  /** What the parser makes of the front of a buffer. */
  datatype Head = Refused(code: nat) | Partial(expects: bool) | Whole(req: Request, size: nat)

  /** A whole request takes some of the bytes, and is the same whatever follows it. */
  ghost predicate Stable(head: string -> Head) {
    && (forall s {:trigger head(s)} :: head(s).Whole? ==> 0 < head(s).size <= |s|)
    && (forall s, ext {:trigger head(s + ext)} :: head(s).Whole? ==> head(s + ext) == head(s))
  }

  type Reader = head: string -> Head | Stable(head) witness (s: string) => Refused(400)

  /** The request reader; what is seen of the request at the front of a buffer once its bytes have been erased; the
      routes that take a WebSocket upgrade; and whether every middleware lets a request through. */
  datatype App = App(head: Reader, seen: string -> Request, wsPaths: set<string>, accepts: Request -> bool)

  predicate Contains(s: string, p: string) { IndexOf(s, p, 0).Some? }

  /** The path guard. For a path of two bytes the unsigned `size() - 3` wraps around to "not found". */
  predicate PathRejected(p: string) {
    || Contains(p, "/../")
    || (match IndexOf(p, "/..", 0) case Some(k) => k + 3 == |p| case None => |p| == 2)
    || Contains(p, "%2e%2e") || Contains(p, "%2E%2E") || Contains(p, "%2e.") || Contains(p, ".%2e")
  }

  /** A path with nothing in it to guard against is refused all the same exactly if it has two bytes. */
  lemma PlainPathRejectedIff(p: string)
    requires '.' !in p && '%' !in p
    ensures PathRejected(p) <==> |p| == 2
  {
    NotContained(p, "/../", 1);
    NotContained(p, "/..", 1);
    NotContained(p, "%2e%2e", 0);
    NotContained(p, "%2E%2E", 0);
    NotContained(p, "%2e.", 0);
    NotContained(p, ".%2e", 0);
  }

  function ToLower(c: char): char {
    if 'A' <= c <= 'Z' then c - 'A' + 'a' else c
  }

  predicate IsWebSocket(up: string) {
    |up| == 9 && forall k :: 0 <= k < 9 ==> ToLower(up[k]) == "websocket"[k]
  }

  predicate IsUpgrade(app: App, req: Request) {
    app.wsPaths != {} && IsWebSocket(Lookup(req.headers, "Upgrade")) && req.path in app.wsPaths
  }

  predicate KeepAlive(req: Request, handled: nat) {
    Lookup(req.headers, "Connection") != "close" && handled < MAX_REQUESTS
  }

  /** The request goes to the router. */
  predicate Served(app: App, req: Request) { !PathRejected(req.path) && !IsUpgrade(app, req) }

  /** The connection lives on after the request, the `handled`-th. */
  predicate Stays(app: App, req: Request, handled: nat) { KeepAlive(req, handled) && app.accepts(req) }

  /** A complete request of `n` bytes at the front of the buffer. Path guard and upgrade look at it before its bytes are
      erased, everything else after. */
  function Handle(app: App, c: Conn, req: Request, n: nat, seen: Request): Conn
    requires n <= |c.buf|
  {
    if PathRejected(req.path) then c.(status := Closed, said := c.said + [400])
    else if IsUpgrade(app, req) then c.(status := Upgraded)
    else
      c.(buf := c.buf[n..], taken := c.taken + [req], dispatched := c.dispatched + [seen],
         status := if KeepAlive(seen, c.handled) && app.accepts(seen) then Open else Closed)
  }

  /** Acting on what was read of the buffer. */
  function Act(app: App, c: Conn, head: Head, seen: Request): Conn
    requires head.Whole? ==> head.size <= |c.buf|
  {
    match head
    case Refused(code) => c.(status := Closed, said := c.said + [code])
    case Partial(expects) => if expects && !c.sent100 then c.(sent100 := true, said := c.said + [100]) else c
    case Whole(req, n) => Handle(app, c.(sent100 := false, handled := c.handled + 1), req, n, seen)
  }

  /** One read: append, parse the whole buffer afresh, act on the verdict. A read that returns nothing, because
      the client is done or the read failed, closes the connection. */
  function Receive(app: App, c: Conn, bytes: string): Conn {
    var data := c.buf + bytes;
    if bytes == "" then c.(status := Closed) else Act(app, c.(buf := data), app.head(data), app.seen(data))
  }

  /** What one read returns. */
  datatype Segment = Segment(bytes: string)

  /** A connection after the given reads; once closed or handed over it stays so. */
  function Run(app: App, segments: seq<Segment>): Conn {
    if segments == [] then ACCEPTED
    else
      var c := Run(app, segments[..|segments| - 1]);
      if c.status == Open then Receive(app, c, segments[|segments| - 1].bytes) else c
  }

  /** The bytes of all reads. */
  function Stream(segments: seq<Segment>): string {
    if segments == [] then "" else Stream(segments[..|segments| - 1]) + segments[|segments| - 1].bytes
  }

  // ---------- The reference: parse the whole stream from the start ----------

  function Pipeline(head: Reader, stream: string): seq<Request>
    decreases |stream|
  {
    match head(stream)
    case Whole(req, n) => [req] + Pipeline(head, stream[n..])
    case _ => []
  }

  /** Where the bytes behind the first `k` requests begin. */
  function Offset(head: Reader, stream: string, k: nat): (n: nat)
    requires k <= |Pipeline(head, stream)|
    ensures n <= |stream|
    decreases k
  {
    if k == 0 then 0
    else
      var n := head(stream).size;
      n + Offset(head, stream[n..], k - 1)
  }

  /** More bytes only add requests; the ones that were there keep their place. */
  lemma {:induction false} PipelineExtend(head: Reader, stream: string, ext: string, k: nat)
    requires k <= |Pipeline(head, stream)|
    ensures k <= |Pipeline(head, stream + ext)|
    ensures Pipeline(head, stream + ext)[..k] == Pipeline(head, stream)[..k]
    ensures Offset(head, stream + ext, k) == Offset(head, stream, k)
    decreases k
  {
    if k > 0 {
      var n := head(stream).size;
      assert (stream + ext)[n..] == stream[n..] + ext;
      PipelineExtend(head, stream[n..], ext, k - 1);
    }
  }

  /** What is behind the first `k` requests is parsed on its own, and the next request ends where it ends. */
  lemma {:induction false} PipelineSplit(head: Reader, stream: string, k: nat)
    requires k <= |Pipeline(head, stream)|
    ensures var rest := stream[Offset(head, stream, k)..];
            && Pipeline(head, stream) == Pipeline(head, stream)[..k] + Pipeline(head, rest)
            && (k < |Pipeline(head, stream)| ==> Offset(head, stream, k + 1) == Offset(head, stream, k) + head(rest).size)
    decreases k
  {
    if k == 0 {
      assert stream[0..] == stream;
    } else {
      var n := head(stream).size;
      PipelineSplit(head, stream[n..], k - 1);
      assert stream[n..][Offset(head, stream[n..], k - 1)..] == stream[Offset(head, stream, k)..];
    }
  }

  // ---------- Segmentation ----------

  /** The connection has taken the first requests of the stream and holds the bytes behind them. */
  ghost predicate Follows(head: Reader, c: Conn, stream: string) {
    && |c.dispatched| == |c.taken| <= |Pipeline(head, stream)|
    && c.taken == Pipeline(head, stream)[..|c.taken|]
    && (c.status == Open ==> c.handled == |c.taken| && c.buf == stream[Offset(head, stream, |c.taken|)..])
  }

  /** The bytes kept behind `k` requests, with more appended, begin with request `k` if the longer stream has one. */
  lemma Ahead(head: Reader, stream: string, bytes: string, k: nat, s: string, data: string)
    requires k <= |Pipeline(head, stream)| && s == stream + bytes && data == stream[Offset(head, stream, k)..] + bytes
    ensures k <= |Pipeline(head, s)| && Pipeline(head, s)[..k] == Pipeline(head, stream)[..k]
    ensures s[Offset(head, s, k)..] == data
    ensures head(data).Whole? <==> k < |Pipeline(head, s)|
    ensures head(data).Whole? ==>
              && Pipeline(head, s)[k] == head(data).req
              && s[Offset(head, s, k + 1)..] == data[head(data).size..]
  {
    PipelineExtend(head, stream, bytes, k);
    PipelineSplit(head, s, k);
    var o := Offset(head, s, k);
    assert s[o..] == data;
    if head(data).Whole? {
      assert s[o..][head(data).size..] == s[o + head(data).size..];
    }
  }

  /** One read takes the next request of the stream if the stream now holds it whole and it is to be served, and nothing
      otherwise; what is dispatched is what is seen of it. Without bytes it only closes the connection. */
  lemma ReceiveFollows(app: App, c: Conn, stream: string, bytes: string)
    requires c.status == Open && Follows(app.head, c, stream)
    ensures Follows(app.head, Receive(app, c, bytes), stream + bytes)
    ensures var d, p, c' := |c.taken|, Pipeline(app.head, stream + bytes), Receive(app, c, bytes);
            var rest := (stream + bytes)[Offset(app.head, stream + bytes, d)..];
            if bytes == "" then c' == c.(status := Closed)
            else if |p| > d then
              && c'.handled == d + 1
              && c'.taken == (if Served(app, p[d]) then p[..d + 1] else p[..d])
              && c'.dispatched == (if Served(app, p[d]) then c.dispatched + [app.seen(rest)] else c.dispatched)
              && (c'.status == Open <==> Served(app, p[d]) && Stays(app, app.seen(rest), d + 1))
            else
              && c'.handled == d && c'.taken == p && c'.dispatched == c.dispatched
              && (c'.status == Open <==> !app.head(rest).Refused?)
  {
    var s, data, k := stream + bytes, c.buf + bytes, |c.taken|;
    Ahead(app.head, stream, bytes, k, s, data);
    Acted(app, c.(buf := data), app.head(data), app.seen(data), Pipeline(app.head, s), k);
  }

  /** What acting on a whole request, or none, makes of the requests taken. */
  lemma Acted(app: App, c: Conn, head: Head, seen: Request, p: seq<Request>, k: nat)
    requires c.status == Open && k == |c.taken| == c.handled == |c.dispatched| && k <= |p| && c.taken == p[..k]
    requires head.Whole? <==> k < |p|
    requires head.Whole? ==> head.size <= |c.buf| && p[k] == head.req
    ensures var c' := Act(app, c, head, seen);
            && |c'.dispatched| == |c'.taken|
            && (if k < |p| then
                  && c'.handled == k + 1
                  && c'.taken == (if Served(app, p[k]) then p[..k + 1] else p[..k])
                  && c'.dispatched == (if Served(app, p[k]) then c.dispatched + [seen] else c.dispatched)
                  && (c'.status == Open <==> Served(app, p[k]) && Stays(app, seen, k + 1))
                  && (c'.status == Open ==> c'.buf == c.buf[head.size..])
                else
                  && c'.handled == k && c'.taken == p && c'.dispatched == c.dispatched && c'.buf == c.buf
                  && (c'.status == Open <==> !head.Refused?))
  {
  }

  lemma {:induction false} RunFollows(app: App, segments: seq<Segment>)
    ensures Follows(app.head, Run(app, segments), Stream(segments))
  {
    if segments == [] {
      assert Stream(segments)[0..] == "";
    } else {
      var n := |segments| - 1;
      var c, stream := Run(app, segments[..n]), Stream(segments[..n]);
      RunFollows(app, segments[..n]);
      if c.status == Open {
        ReceiveFollows(app, c, stream, segments[n].bytes);
      } else {
        PipelineExtend(app.head, stream, segments[n].bytes, |c.taken|);
      }
    }
  }

  /** Every request taken was to be served, and each but the last, as it was seen, left the connection open. */
  predicate Kept(app: App, c: Conn) {
    && |c.dispatched| == |c.taken|
    && (c.status == Open ==> c.handled == |c.taken|)
    && (forall i :: 0 <= i < |c.taken| ==> Served(app, c.taken[i]))
    && (forall i :: 0 <= i < |c.dispatched| && (i + 1 < |c.dispatched| || c.status == Open) ==> Stays(app, c.dispatched[i], i + 1))
  }

  /** Nothing is dispatched behind a request that, as it was seen, ends the connection, and at most a hundred in all. */
  lemma {:induction false} RunKept(app: App, segments: seq<Segment>)
    ensures Kept(app, Run(app, segments)) && |Run(app, segments).dispatched| <= MAX_REQUESTS
  {
    if segments != [] {
      var n := |segments| - 1;
      RunKept(app, segments[..n]);
      var c := Run(app, segments[..n]);
      if c.status == Open && segments[n].bytes != "" {
        var data := c.buf + segments[n].bytes;
        ActKept(app, c.(buf := data), app.head(data), app.seen(data));
      }
    }
    var c := Run(app, segments);
    assert |c.dispatched| > MAX_REQUESTS ==> Stays(app, c.dispatched[MAX_REQUESTS - 1], MAX_REQUESTS);
  }

  lemma ActKept(app: App, c: Conn, head: Head, seen: Request)
    requires c.status == Open && Kept(app, c) && (head.Whole? ==> head.size <= |c.buf|)
    ensures Kept(app, Act(app, c, head, seen))
  {}

  /** However the same bytes are cut into reads, one run takes a beginning of the requests that the other does, and
      both take a beginning of what parsing the uncut stream yields. */
  lemma CutsAgree(app: App, s: seq<Segment>, t: seq<Segment>)
    requires Stream(s) == Stream(t)
    ensures Run(app, s).taken <= Run(app, t).taken || Run(app, t).taken <= Run(app, s).taken
    ensures Run(app, s).taken <= Pipeline(app.head, Stream(s))
  {
    RunFollows(app, s);
    RunFollows(app, t);
  }

  // ---------- What is seen of the requests ----------

  /** What is seen of the request at the front of the buffer is what was parsed. */
  predicate Faithful(app: App, data: string) {
    app.head(data).Whole? ==> app.seen(data) == app.head(data).req
  }

  /** The read takes a request. */
  predicate Takes(app: App, c: Conn, bytes: string) {
    c.status == Open && bytes != "" && app.head(c.buf + bytes).Whole? && Served(app, app.head(c.buf + bytes).req)
  }

  /** Every request that the reads take is seen as it was parsed. */
  predicate Unharmed(app: App, segments: seq<Segment>) {
    segments == [] ||
    var before, bytes := segments[..|segments| - 1], segments[|segments| - 1].bytes;
    var c := Run(app, before);
    Unharmed(app, before) && (Takes(app, c, bytes) ==> Faithful(app, c.buf + bytes))
  }

  /** What is dispatched is what was parsed exactly if no request is harmed. */
  lemma {:induction false} UnharmedIff(app: App, segments: seq<Segment>)
    ensures Run(app, segments).dispatched == Run(app, segments).taken <==> Unharmed(app, segments)
  {
    if segments != [] {
      var before, bytes := segments[..|segments| - 1], segments[|segments| - 1].bytes;
      var c := Run(app, before);
      UnharmedIff(app, before);
      RunFollows(app, before);
      if Takes(app, c, bytes) {
        AppendSame(c.dispatched, app.seen(c.buf + bytes), c.taken, app.head(c.buf + bytes).req);
      }
    }
  }

  /** Where no request is harmed, the cut makes no difference to what is dispatched, but for how much of it. */
  lemma CutsDispatchAlike(app: App, s: seq<Segment>, t: seq<Segment>)
    requires Stream(s) == Stream(t) && Unharmed(app, s) && Unharmed(app, t)
    ensures Run(app, s).dispatched <= Run(app, t).dispatched || Run(app, t).dispatched <= Run(app, s).dispatched
    ensures Run(app, s).dispatched <= Pipeline(app.head, Stream(s))
  {
    CutsAgree(app, s, t);
    UnharmedIff(app, s);
    UnharmedIff(app, t);
  }

  // ---------- How many are dispatched ----------

  /** The requests whole in the bytes of the first `k` reads. */
  function Completed(app: App, segments: seq<Segment>, k: nat): nat
    requires k <= |segments|
  {
    |Pipeline(app.head, Stream(segments[..k]))|
  }

  /** The reads from `k` on are at least as many as the requests they complete. */
  predicate Paced(app: App, segments: seq<Segment>, k: nat)
    requires k <= |segments|
  {
    Completed(app, segments, |segments|) - Completed(app, segments, k) <= |segments| - k
  }

  lemma CompletedAll(app: App, segments: seq<Segment>, stream: string)
    requires stream == Stream(segments)
    ensures Completed(app, segments, |segments|) == |Pipeline(app.head, stream)|
  {
    assert segments[..|segments|] == segments;
  }

  function Count(app: App, segments: seq<Segment>): nat { |Run(app, segments).taken| }

  /** The count after one more read: one more if there was a request to dispatch, else all there are. */
  lemma LastRead(app: App, segments: seq<Segment>, before: seq<Segment>)
    requires segments != [] && before == segments[..|segments| - 1] && Run(app, segments).status == Open
    ensures Run(app, before).status == Open
    ensures var d, all := Count(app, before), Completed(app, segments, |segments|);
            d <= all && Count(app, segments) == if d < all then d + 1 else d
  {
    var last := segments[|segments| - 1].bytes;
    RunFollows(app, before);
    ReceiveFollows(app, Run(app, before), Stream(before), last);
    CompletedAll(app, segments, Stream(before) + last);
  }

  lemma CompletedBefore(app: App, segments: seq<Segment>, n: nat, j: nat)
    requires j <= n <= |segments|
    ensures Completed(app, segments[..n], j) == Completed(app, segments, j)
  {
    assert segments[..n][..j] == segments[..j];
  }

  /** The requests dispatched are at most those whole after `j` reads plus one for each later read, whatever `j`
      is and whether the connection is still open or not. */
  lemma {:induction false} AtMost(app: App, segments: seq<Segment>, j: nat)
    requires j <= |segments|
    ensures Count(app, segments) <= Completed(app, segments, j) + |segments| - j
  {
    if j == |segments| {
      RunFollows(app, segments);
      CompletedAll(app, segments, Stream(segments));
    } else {
      var n := |segments| - 1;
      AtMost(app, segments[..n], j);
      CompletedBefore(app, segments, n, j);
      AtMostOne(app, segments, segments[..n]);
    }
  }

  /** A read dispatches at most one request. */
  lemma AtMostOne(app: App, segments: seq<Segment>, before: seq<Segment>)
    requires segments != [] && before == segments[..|segments| - 1]
    ensures Count(app, segments) <= Count(app, before) + 1
  {
    if Run(app, before).status == Open {
      RunFollows(app, before);
      ReceiveFollows(app, Run(app, before), Stream(before), segments[|segments| - 1].bytes);
    }
  }

  /** For one `k` they are exactly as many. */
  lemma {:induction false} Backlog(app: App, segments: seq<Segment>) returns (k: nat)
    requires Run(app, segments).status == Open
    ensures k <= |segments| && Count(app, segments) == Completed(app, segments, k) + |segments| - k
  {
    if segments == [] {
      k := 0;
    } else {
      var n := |segments| - 1;
      LastRead(app, segments, segments[..n]);
      k := Backlog(app, segments[..n]);
      CompletedBefore(app, segments, n, k);
      if Completed(app, segments, n + 1) <= Count(app, segments[..n]) {
        k := n + 1;
      }
    }
  }

  /** While the connection stays open, every whole request has been taken exactly when no tail of the
      reads completed more requests than it has reads: a read takes at most one, and requests that are
      whole in the buffer wait for further bytes to arrive. */
  lemma TakenUpIff(app: App, segments: seq<Segment>)
    requires Run(app, segments).status == Open
    ensures Run(app, segments).taken == Pipeline(app.head, Stream(segments))
       <==> forall k :: 0 <= k <= |segments| ==> Paced(app, segments, k)
  {
    AllTaken(app, segments);
    PacedIff(app, segments, |segments|);
  }

  /** And they have been dispatched as they are exactly if, besides, none of them is harmed. */
  lemma CaughtUpIff(app: App, segments: seq<Segment>)
    requires Run(app, segments).status == Open
    ensures Run(app, segments).dispatched == Pipeline(app.head, Stream(segments))
       <==> Unharmed(app, segments) && forall k :: 0 <= k <= |segments| ==> Paced(app, segments, k)
  {
    TakenUpIff(app, segments);
    UnharmedIff(app, segments);
    DispatchedAll(Run(app, segments), Pipeline(app.head, Stream(segments)), app, segments);
  }

  /** As many are dispatched as are taken, so all of them only if all are taken. */
  lemma DispatchedAll(c: Conn, p: seq<Request>, app: App, segments: seq<Segment>)
    requires c == Run(app, segments) && p == Pipeline(app.head, Stream(segments))
    ensures c.dispatched == p <==> c.taken == p && c.dispatched == c.taken
  {
    RunFollows(app, segments);
  }

  lemma AllTaken(app: App, segments: seq<Segment>)
    ensures Run(app, segments).taken == Pipeline(app.head, Stream(segments))
       <==> Count(app, segments) >= Completed(app, segments, |segments|)
  {
    RunFollows(app, segments);
    CompletedAll(app, segments, Stream(segments));
  }

  lemma PacedIff(app: App, segments: seq<Segment>, n: nat)
    requires Run(app, segments).status == Open && n == |segments|
    ensures Count(app, segments) >= Completed(app, segments, n) <==> forall k :: 0 <= k <= n ==> Paced(app, segments, k)
  {
    var k := Backlog(app, segments);
    assert Paced(app, segments, k) <==> Count(app, segments) >= Completed(app, segments, n);
    forall j | 0 <= j <= n ensures Count(app, segments) >= Completed(app, segments, n) ==> Paced(app, segments, j) {
      AtMost(app, segments, j);
    }
  }

  /** A stream that gives no reason to close: every read brings bytes, every request is to be served, leaves the connection
      open and is seen as it is, and what is behind the whole requests is never refused. */
  ghost predicate Orderly(app: App, segments: seq<Segment>) {
    && (forall k :: 0 <= k < |segments| ==> segments[k].bytes != "")
    && Welcome(app, Pipeline(app.head, Stream(segments)))
    && forall k :: 0 <= k <= |segments| ==> Decent(app, Stream(segments[..k]))
  }

  predicate Welcome(app: App, requests: seq<Request>) {
    forall i :: 0 <= i < |requests| ==> Served(app, requests[i]) && Stays(app, requests[i], i + 1)
  }

  /** Wherever a request of the stream begins, it is seen as it is; behind the last nothing is refused. */
  predicate Decent(app: App, stream: string) {
    && (forall j :: 0 <= j < |Pipeline(app.head, stream)| ==> Faithful(app, stream[Offset(app.head, stream, j)..]))
    && !app.head(stream[Offset(app.head, stream, |Pipeline(app.head, stream)|)..]).Refused?
  }

  lemma {:induction false} StaysOpen(app: App, segments: seq<Segment>)
    requires Orderly(app, segments)
    ensures Run(app, segments).status == Open
  {
    if segments != [] {
      var n := |segments| - 1;
      var before, bytes := segments[..n], segments[n].bytes;
      OrderlyBefore(app, segments, n);
      StaysOpen(app, before);
      RunFollows(app, before);
      assert segments[..n + 1] == segments;
      ReceiveStays(app, Run(app, before), Stream(before), bytes);
    }
  }

  lemma ReceiveStays(app: App, c: Conn, stream: string, bytes: string)
    requires c.status == Open && Follows(app.head, c, stream) && bytes != "" && Decent(app, stream + bytes)
    requires Welcome(app, Pipeline(app.head, stream + bytes))
    ensures Receive(app, c, bytes).status == Open
  {
    var s, d := stream + bytes, |c.taken|;
    ReceiveFollows(app, c, stream, bytes);
    PipelineExtend(app.head, stream, bytes, d);
    if d < |Pipeline(app.head, s)| {
      PipelineSplit(app.head, s, d);
      assert Faithful(app, s[Offset(app.head, s, d)..]);
    }
  }

  lemma WelcomeBefore(app: App, requests: seq<Request>, more: seq<Request>)
    requires Welcome(app, more) && |requests| <= |more| && more[..|requests|] == requests[..|requests|]
    ensures Welcome(app, requests)
  {
    forall i | 0 <= i < |requests| ensures requests[i] == more[i] {
      assert requests[i] == requests[..|requests|][i] == more[..|requests|][i];
    }
  }

  lemma OrderlyBefore(app: App, segments: seq<Segment>, n: nat)
    requires Orderly(app, segments) && n + 1 == |segments|
    ensures Orderly(app, segments[..n])
  {
    var before := Stream(segments[..n]);
    PipelineExtend(app.head, before, segments[n].bytes, |Pipeline(app.head, before)|);
    WelcomeBefore(app, Pipeline(app.head, before), Pipeline(app.head, Stream(segments)));
    forall k | 0 <= k <= n ensures Decent(app, Stream(segments[..n][..k])) {
      assert segments[..n][..k] == segments[..k];
    }
  }

  /** A connection that has taken and dispatched all but the last of the requests, and holds nothing behind them, does so
      with the last on the read that brings it. */
  lemma ReceivesLast(app: App, c: Conn, stream: string, text: string, p: seq<Request>, n: nat)
    requires c.status == Open && Follows(app.head, c, stream) && c.buf == "" && text != ""
    requires n + 1 == |p| && c.taken == p[..n] && c.dispatched == p[..n]
    requires p == Pipeline(app.head, stream + text) && Welcome(app, p) && Faithful(app, text)
    ensures var d := Receive(app, c, text); d.status == Open && d.taken == p && d.dispatched == p
  {
    assert "" + text == text;
    Ahead(app.head, stream, text, n, stream + text, text);
    Acted(app, c.(buf := text), app.head(text), app.seen(text), p, n);
    assert p[..n + 1] == p && p[..n] + [p[n]] == p;
  }

  lemma RunOn(app: App, segments: seq<Segment>, text: string)
    requires Run(app, segments).status == Open
    ensures Run(app, segments + [Segment(text)]) == Receive(app, Run(app, segments), text)
    ensures Stream(segments + [Segment(text)]) == Stream(segments) + text
  {
    assert (segments + [Segment(text)])[..|segments|] == segments;
  }

  lemma DispatchesLast(app: App, segments: seq<Segment>, text: string, p: seq<Request>, n: nat)
    requires Run(app, segments).status == Open && text != "" && n + 1 == |p| && Run(app, segments).taken == p[..n]
    requires Run(app, segments).dispatched == p[..n] && Run(app, segments).buf == ""
    requires p == Pipeline(app.head, Stream(segments) + text) && Welcome(app, p) && Faithful(app, text)
    ensures var more := segments + [Segment(text)];
            Run(app, more).status == Open && Run(app, more).taken == p && Run(app, more).dispatched == p
  {
    RunOn(app, segments, text);
    RunFollows(app, segments);
    ReceivesLast(app, Run(app, segments), Stream(segments), text, p, n);
  }

  // ---------- The server ----------

  function HeadOf(out: Outcome): Head {
    if out.consumed.None? then Refused(if out.p.errorStatus != 0 then out.p.errorStatus else 400)
    else if out.p.state == Complete then Whole(out.p.req, out.consumed.value)
    else Partial(out.p.headersComplete && Lookup(out.p.req.headers, "Expect") == "100-continue")
  }

  /** A parser made for this buffer alone, and what it says. */
  function ReadHead(data: string): Head { HeadOf(Parse(FRESH, data)) }

  lemma ParserIsStable()
    ensures Stable(ReadHead)
  {
    forall s | ReadHead(s).Whole? ensures 0 < ReadHead(s).size <= |s| {
      CompleteConsumes(s);
    }
    forall s, ext | ReadHead(s).Whole? ensures ReadHead(s + ext) == ReadHead(s) {
      VerdictIsFinal(s, ext);
    }
  }

  function Server(wsPaths: set<string>, accepts: Request -> bool): App {
    ParserIsStable();
    App(ReadHead, ErasedViews.Seen, wsPaths, accepts)
  }

  /** For the server, a request is seen as it was parsed exactly if what moves under its views agrees with what they
      covered. */
  lemma FaithfulIff(wsPaths: set<string>, accepts: Request -> bool, data: string)
    ensures Faithful(Server(wsPaths, accepts), data) <==>
            match ReadHead(data)
            case Whole(_, n) => 0 < n <= |data| && ErasedViews.Undisturbed(data, n, RequestViews.ViewsOf(data))
            case _ => true
  {
    if ReadHead(data).Whole? { ErasedViews.SeenIsParsedIff(data, ReadHead(data).size); }
  }

  /** The verdict on a buffer, by a parser object made for it. */
  method ParseBuffer(buf: string) returns (verdict: Head)
    ensures verdict == ReadHead(buf)
  {
    var parser := new ParserObject.ParserState();
    var parsed := parser.Parse(buf);
    if parsed.None? {
      return Refused(if parser.errorStatus != 0 then parser.errorStatus else 400);
    }
    if parser.state == Complete {
      return Whole(parser.req, parsed.value);
    }
    return Partial(parser.headersComplete && Lookup(parser.req.headers, "Expect") == "100-continue");
  }

  /** The buffer, counters and requests of one connection. */
  class ConnCtx {
    const wsPaths: set<string>
    const accepts: Request -> bool
    var buf: string
    var handled: nat
    var sent100: bool
    var status: Status
    var taken: seq<Request>
    var dispatched: seq<Request>
    var said: seq<nat>

    function View(): Conn reads this { Conn(buf, handled, sent100, status, taken, dispatched, said) }

    constructor (wsPaths: set<string>, accepts: Request -> bool)
      ensures View() == ACCEPTED && this.wsPaths == wsPaths && this.accepts == accepts
    {
      this.wsPaths, this.accepts := wsPaths, accepts;
      buf, handled, sent100, status, taken, dispatched, said := "", 0, false, Open, [], [], [];
    }

    /** A complete request: guard the path, hand over an upgrade, or erase its bytes and dispatch what its views then
        read. */
    method Dispatch(req: Request, views: RequestViews.Views, n: nat)
      requires status == Open && 0 < n <= |buf|
      modifies this
      ensures View() == Handle(Server(wsPaths, accepts), old(View()), req, n,
                               RequestViews.ReadAll(ErasedViews.Erase(old(buf), n), views))
    {
      if PathRejected(req.path) {
        said := said + [400];
        status := Closed;
        return;
      }
      if wsPaths != {} && IsWebSocket(Lookup(req.headers, "Upgrade")) && req.path in wsPaths {
        status := Upgraded;
        return;
      }
      var storage := ErasedViews.Erase(buf, n);
      buf := buf[n..];
      var seen := RequestViews.ReadAll(storage, views);
      var keepAlive := Lookup(seen.headers, "Connection") != "close" && handled < MAX_REQUESTS;
      taken := taken + [req];
      dispatched := dispatched + [seen];
      if !accepts(seen) || !keepAlive {
        status := Closed;
      }
    }

    /** The read callback, for a read of `bytes`. */
    method OnReadable(bytes: string)
      requires status == Open
      modifies this
      ensures View() == Receive(Server(wsPaths, accepts), old(View()), bytes)
    {
      if bytes == "" {
        status := Closed;
        return;
      }
      buf := buf + bytes;
      var head := ParseBuffer(buf);
      match head
      case Refused(code) =>
        said := said + [code];
        status := Closed;
      case Partial(expects) =>
        if !sent100 && expects {
          said := said + [100];
          sent100 := true;
        }
      case Whole(req, n) =>
        CompleteConsumes(buf);
        var views := RequestViews.ViewsOf(buf);
        sent100 := false;
        handled := handled + 1;
        Dispatch(req, views, n);
    }
  }
}
