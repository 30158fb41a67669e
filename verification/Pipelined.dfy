/** Requests sent back to back, through the real parser. */
module Pipelined {
  import opened Text
  import opened HttpParser
  import opened ParserProperties
  import opened Connection
  import ErasedViews
  import RequestRoundTrip
  import RequestViews

  type Message = RequestRoundTrip.Message

  /** Well formed, and within the limit on header bytes by the parser's own count. */
  predicate Sendable(m: Message) {
    RequestRoundTrip.WellFormed(m) && RequestRoundTrip.Charges(m.headers) < MAX_HEADER_SIZE
  }

  function PrintAll(ms: seq<Message>): string {
    if ms == [] then "" else RequestRoundTrip.Print(ms[0]) + PrintAll(ms[1..])
  }

  function Meanings(ms: seq<Message>): seq<Request> {
    if ms == [] then [] else [RequestRoundTrip.Meaning(ms[0])] + Meanings(ms[1..])
  }

  lemma ReadsMessage(m: Message, rest: string)
    requires Sendable(m)
    ensures ReadHead(RequestRoundTrip.Print(m) + rest) == Whole(RequestRoundTrip.Meaning(m), |RequestRoundTrip.Print(m)|)
  {
    RequestRoundTrip.PrintParse(m, rest);
  }

  /** The whole requests of the printed messages are the messages. */
  lemma {:induction false} PipelineOfMessages(head: Reader, ms: seq<Message>)
    requires head == ReadHead && forall m :: m in ms ==> Sendable(m)
    ensures Pipeline(head, PrintAll(ms)) == Meanings(ms)
  {
    if ms == [] {
      assert head("") == ReadHead("");
    } else {
      var text, rest := RequestRoundTrip.Print(ms[0]), PrintAll(ms[1..]);
      ReadsMessage(ms[0], rest);
      assert (text + rest)[|text|..] == rest;
      PipelineOfMessages(head, ms[1..]);
    }
  }

  lemma {:induction false} MeaningsCount(ms: seq<Message>)
    ensures |Meanings(ms)| == |ms|
  {
    if ms != [] { MeaningsCount(ms[1..]); }
  }

  /** Behind the last of the messages nothing is left. */
  lemma {:induction false} MessagesEnd(head: Reader, ms: seq<Message>)
    requires head == ReadHead && forall m :: m in ms ==> Sendable(m)
    ensures |Pipeline(head, PrintAll(ms))| == |ms| && Offset(head, PrintAll(ms), |ms|) == |PrintAll(ms)|
  {
    PipelineOfMessages(head, ms);
    MeaningsCount(ms);
    if ms != [] {
      var text, rest := RequestRoundTrip.Print(ms[0]), PrintAll(ms[1..]);
      ReadsMessage(ms[0], rest);
      assert (text + rest)[|text|..] == rest;
      MessagesEnd(head, ms[1..]);
    }
  }

  /** Messages that arrive in one read are all whole, and at most the first is dispatched. */
  lemma OneReadDispatchesOne(wsPaths: set<string>, accepts: Request -> bool, ms: seq<Message>)
    requires forall m :: m in ms ==> Sendable(m)
    ensures var app, once := Server(wsPaths, accepts), [Segment(PrintAll(ms))];
            && Pipeline(app.head, Stream(once)) == Meanings(ms) && |Meanings(ms)| == |ms|
            && |Run(app, once).dispatched| == |Run(app, once).taken| <= 1
            && (|ms| >= 2 ==> Run(app, once).taken != Pipeline(app.head, Stream(once)))
  {
    var app, once := Server(wsPaths, accepts), [Segment(PrintAll(ms))];
    assert once[..0] == [];
    assert Stream(once) == "" + PrintAll(ms) == PrintAll(ms);
    PipelineOfMessages(app.head, ms);
    MeaningsCount(ms);
    AtMostOne(app, once, []);
    RunFollows(app, once);
    assert Run(app, []).taken == [];
  }

  /** One read for each message. */
  function OwnReads(ms: seq<Message>): seq<Segment> {
    if ms == [] then [] else OwnReads(ms[..|ms| - 1]) + [Segment(RequestRoundTrip.Print(ms[|ms| - 1]))]
  }

  lemma {:induction false} PrintAllAppend(ms: seq<Message>, m: Message)
    ensures PrintAll(ms + [m]) == PrintAll(ms) + RequestRoundTrip.Print(m)
    ensures Meanings(ms + [m]) == Meanings(ms) + [RequestRoundTrip.Meaning(m)]
  {
    if ms == [] {
      assert [] + [m] == [m] && [m][1..] == [];
    } else {
      assert (ms + [m])[1..] == ms[1..] + [m];
      PrintAllAppend(ms[1..], m);
    }
  }

  /** A message alone in the buffer is seen as it is. */
  lemma AloneIsFaithful(app: App, m: Message)
    requires app.head == ReadHead && app.seen == ErasedViews.Seen && Sendable(m)
    ensures RequestRoundTrip.Print(m) != "" && Faithful(app, RequestRoundTrip.Print(m))
  {
    var text := RequestRoundTrip.Print(m);
    assert text + "" == text;
    ReadsMessage(m, "");
    ErasedViews.NothingBehind(text);
  }

  /** Messages that each come in a read of their own are all dispatched as they are, as long as each leaves the
      connection open. */
  lemma {:induction false} OwnReadsDispatchAll(wsPaths: set<string>, accepts: Request -> bool, ms: seq<Message>)
    requires forall m :: m in ms ==> Sendable(m)
    requires Welcome(Server(wsPaths, accepts), Meanings(ms))
    ensures var c := Run(Server(wsPaths, accepts), OwnReads(ms));
            c.status == Open && c.taken == Meanings(ms) && c.dispatched == Meanings(ms) && Stream(OwnReads(ms)) == PrintAll(ms)
  {
    if ms != [] {
      var app, before, m := Server(wsPaths, accepts), ms[..|ms| - 1], ms[|ms| - 1];
      assert ms == before + [m];
      PrintAllAppend(before, m);
      MeaningsCount(ms);
      WelcomeBefore(app, Meanings(before), Meanings(ms));
      OwnReadsDispatchAll(wsPaths, accepts, before);
      DispatchesNext(app, before, m, OwnReads(before), RequestRoundTrip.Print(m));
    }
  }

  lemma NothingKept(app: App, ms: seq<Message>, segments: seq<Segment>)
    requires app.head == ReadHead && (forall m :: m in ms ==> Sendable(m)) && Stream(segments) == PrintAll(ms)
    requires Run(app, segments).status == Open && Run(app, segments).taken == Meanings(ms)
    ensures Run(app, segments).buf == ""
  {
    RunFollows(app, segments);
    MeaningsCount(ms);
    MessagesEnd(app.head, ms);
  }

  lemma DispatchesNext(app: App, before: seq<Message>, m: Message, segments: seq<Segment>, text: string)
    requires app.head == ReadHead && app.seen == ErasedViews.Seen && (forall n :: n in before + [m] ==> Sendable(n))
    requires text == RequestRoundTrip.Print(m)
    requires Welcome(app, Meanings(before + [m])) && Stream(segments) == PrintAll(before)
    requires var c := Run(app, segments); c.status == Open && c.taken == Meanings(before) && c.dispatched == Meanings(before)
    ensures var c := Run(app, segments + [Segment(text)]);
            && c.status == Open && c.taken == Meanings(before + [m]) && c.dispatched == Meanings(before + [m])
            && Stream(segments + [Segment(text)]) == PrintAll(before + [m])
  {
    var p := Meanings(before + [m]);
    PrintAllAppend(before, m);
    MeaningsCount(before);
    PipelineOfMessages(app.head, before + [m]);
    AloneIsFaithful(app, m);
    NothingKept(app, before, segments);
    RunOn(app, segments, text);
    assert p[..|before|] == Meanings(before);
    DispatchesLast(app, segments, text, p, |before|);
  }

  // ---------- What the bytes behind a request do to it ----------

  /** Verb and target at the front of a text. */
  predicate Fronts(data: string, at: nat, verb: string, target: string) {
    var k := at + |verb|;
    var j := k + 1 + |target|;
    j < |data| && data[at..k] == verb && data[k] == ' ' && data[k + 1..j] == target && data[j] == ' '
  }

  lemma FrontsText(before: string, verb: string, target: string, tail: string, data: string)
    requires data == before + (verb + " " + target + " " + tail)
    ensures Fronts(data, |before|, verb, target)
  {
    var k := |before| + |verb|;
    var j := k + 1 + |target|;
    assert data[|before|..k] == verb;
    assert data[k + 1..j] == target;
  }

  lemma PrintedFronts(before: string, m: Message, rest: string)
    ensures Fronts(before + (RequestRoundTrip.Print(m) + rest), |before|, m.verb, m.target)
  {
    var tail := m.version + CRLF + RequestRoundTrip.PrintHeaders(m.headers) + CRLF + RequestRoundTrip.PrintPayload(m.payload) + rest;
    assert RequestRoundTrip.Print(m) + rest == m.verb + " " + m.target + " " + tail;
    FrontsText(before, m.verb, m.target, tail, before + (RequestRoundTrip.Print(m) + rest));
  }

  lemma ReadsMoved(data: string, n: nat, s: RequestViews.Span)
    requires 0 < n <= |data| && n + RequestViews.End(s) <= |data|
    ensures RequestViews.Read(ErasedViews.Erase(data, n), s) == data[n + s.from..n + RequestViews.End(s)]
  {
    var e := ErasedViews.Erase(data, n);
    assert e[..|data| - n] == data[n..];
    assert e[s.from..RequestViews.End(s)] == data[n..][s.from..RequestViews.End(s)];
  }

  lemma SeenPath(data: string, n: nat, s: RequestViews.Span)
    requires Parse(FRESH, data).p.state == Complete && Parse(FRESH, data).consumed == Some(n) && 0 < n <= |data|
    requires RequestViews.ViewsOf(data).path == s
    ensures ErasedViews.Seen(data).path == RequestViews.Read(ErasedViews.Erase(data, n), s)
  {
  }

  lemma FrontSpan(data: string, verb: string, target: string, k: nat)
    requires Fronts(data, 0, verb, target) && ' ' !in verb && ' ' !in target && '?' !in target && k == |verb|
    ensures RequestViews.ViewsOf(data).path == RequestViews.Span(k + 1, |target|)
  {
    assert data[0..k] == data[..k];
    ErasedViews.PathBetween(data, k, k + 1 + |target|);
  }

  lemma PathSeen(data: string, n: nat, verb: string, target: string, verb': string, target': string)
    requires Parse(FRESH, data).p.state == Complete && Parse(FRESH, data).consumed == Some(n) && 0 < n <= |data|
    requires Fronts(data, 0, verb, target) && Fronts(data, n, verb', target')
    requires |verb| == |verb'| && |target| == |target'| && ' ' !in verb && ' ' !in target && '?' !in target
    ensures ErasedViews.Seen(data).path == target'
  {
    var s := RequestViews.Span(|verb| + 1, |target|);
    FrontSpan(data, verb, target, |verb|);
    SeenPath(data, n, s);
    ReadsMoved(data, n, s);
  }

  lemma ReadWhole(m: Message, rest: string, data: string)
    requires Sendable(m) && data == RequestRoundTrip.Print(m) + rest
    ensures var out := Parse(FRESH, data);
            && out.p.state == Complete && out.consumed == Some(|RequestRoundTrip.Print(m)|)
            && out.p.req == RequestRoundTrip.Meaning(m) && RequestRoundTrip.Print(m) != ""
  {
    RequestRoundTrip.PrintParse(m, rest);
    CompleteConsumes(data);
  }

  /** Two requests in one buffer, with verbs and targets of the same lengths: the path that is seen of the first is the
      target of the second. */
  lemma SecondTargetSeen(a: Message, b: Message, rest: string, data: string)
    requires Sendable(a) && |a.verb| == |b.verb| && |a.target| == |b.target| && '?' !in a.target
    requires data == RequestRoundTrip.Print(a) + (RequestRoundTrip.Print(b) + rest)
    ensures ErasedViews.Seen(data).path == b.target
  {
    var text, more := RequestRoundTrip.Print(a), RequestRoundTrip.Print(b) + rest;
    ReadWhole(a, more, data);
    assert "" + data == data;
    PrintedFronts("", a, more);
    PrintedFronts(text, b, rest);
    PathSeen(data, |text|, a.verb, a.target, b.verb, b.target);
  }

  /** A connection's first read, with a request that is to be served. */
  lemma FirstRead(app: App, data: string)
    requires data != "" && app.head(data).Whole? && Served(app, app.head(data).req)
    ensures Run(app, [Segment(data)]).taken == [app.head(data).req] && Run(app, [Segment(data)]).dispatched == [app.seen(data)]
  {
    assert [Segment(data)][..0] == [];
    assert "" + data == data;
  }

  /** What was dispatched stays dispatched. */
  lemma DispatchedBefore(app: App, segments: seq<Segment>, text: string)
    ensures Run(app, segments).dispatched <= Run(app, segments + [Segment(text)]).dispatched
  {
    assert (segments + [Segment(text)])[..|segments|] == segments;
  }

  /** Both in one read. */
  lemma SeenTogether(app: App, a: Message, b: Message, x: string, y: string)
    requires app.head == ReadHead && app.seen == ErasedViews.Seen && x == RequestRoundTrip.Print(a) && y == RequestRoundTrip.Print(b)
    requires Sendable(a) && |a.verb| == |b.verb| && |a.target| == |b.target| && '?' !in a.target
    requires Served(app, RequestRoundTrip.Meaning(a))
    ensures var once := Run(app, [Segment(x + y)]).dispatched; |once| == 1 && once[0].path == b.target
  {
    ReadWhole(a, y, x + y);
    FirstRead(app, x + y);
    assert y + "" == y;
    SecondTargetSeen(a, b, "", x + y);
  }

  /** The first in a read of its own. */
  lemma SeenApart(app: App, a: Message, x: string, y: string)
    requires app.head == ReadHead && app.seen == ErasedViews.Seen && x == RequestRoundTrip.Print(a)
    requires Sendable(a) && Served(app, RequestRoundTrip.Meaning(a))
    ensures var twice := Run(app, [Segment(x), Segment(y)]).dispatched; twice != [] && twice[0] == RequestRoundTrip.Meaning(a)
  {
    assert x + "" == x;
    ReadWhole(a, "", x);
    FirstRead(app, x);
    ErasedViews.NothingBehind(x);
    DispatchedBefore(app, [Segment(x)], y);
    assert [Segment(x)] + [Segment(y)] == [Segment(x), Segment(y)];
  }

  /** The same bytes in one read and in two: the first request goes to the router under the second's path, or its own. */
  lemma CutChangesPath(wsPaths: set<string>, accepts: Request -> bool, a: Message, b: Message)
    requires Sendable(a) && |a.verb| == |b.verb| && |a.target| == |b.target| && '?' !in a.target
    requires Served(Server(wsPaths, accepts), RequestRoundTrip.Meaning(a))
    ensures var app, x, y := Server(wsPaths, accepts), RequestRoundTrip.Print(a), RequestRoundTrip.Print(b);
            var once, twice := Run(app, [Segment(x + y)]).dispatched, Run(app, [Segment(x), Segment(y)]).dispatched;
            once != [] && once[0].path == b.target && twice != [] && twice[0].path == a.target
  {
    var app, x, y := Server(wsPaths, accepts), RequestRoundTrip.Print(a), RequestRoundTrip.Print(b);
    SeenTogether(app, a, b, x, y);
    SeenApart(app, a, x, y);
    NotContained(a.target, "?", 0);
  }

  // ---------- One input ----------

  const ONE := RequestRoundTrip.Message("GET", "/one", "HTTP/1.1", [], RequestRoundTrip.NoBody)
  const TWO := RequestRoundTrip.Message("GET", "/two", "HTTP/1.1", [], RequestRoundTrip.NoBody)

  lemma OneIsServed(wsPaths: set<string>, accepts: Request -> bool)
    ensures Sendable(ONE) && RequestRoundTrip.Meaning(ONE).path == "/one" && Served(Server(wsPaths, accepts), RequestRoundTrip.Meaning(ONE))
  {
    NotContained("/one", "?", 0);
    PlainPathRejectedIff("/one");
  }

  /** "GET /one" and "GET /two", sent together, are routed as "/two"; sent apart, the first is routed as "/one". */
  lemma OneBecomesTwo(wsPaths: set<string>, accepts: Request -> bool)
    ensures var app, x, y := Server(wsPaths, accepts), RequestRoundTrip.Print(ONE), RequestRoundTrip.Print(TWO);
            var once, twice := Run(app, [Segment(x + y)]).dispatched, Run(app, [Segment(x), Segment(y)]).dispatched;
            once != [] && once[0].path == "/two" && twice != [] && twice[0].path == "/one"
  {
    OneIsServed(wsPaths, accepts);
    CutChangesPath(wsPaths, accepts, ONE, TWO);
  }
}
