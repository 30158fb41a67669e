/** What a request's views read once the bytes it consumed have been erased from the front of the buffer: the rest
    has moved down under them. */
module ErasedViews {
  import opened Text
  import opened HttpParser
  import opened ParserProperties
  import opened RequestViews

  /** The storage of a string after `erase(0, n)`: the rest, its terminator, and behind that what stood there. */
  function Erase(mem: string, n: nat): (r: string)
    requires 0 < n <= |mem|
    ensures |r| == |mem|
  {
    mem[n..] + ['\0'] + mem[|mem| - n + 1..]
  }

  /** The byte at `i` is the same after the erase. */
  predicate Stays(mem: string, n: nat, i: nat)
    requires 0 < n <= |mem| && i < |mem|
  {
    if i < |mem| - n then mem[n + i] == mem[i] else i == |mem| - n ==> mem[i] == '\0'
  }

  lemma StaysIff(mem: string, n: nat, i: nat)
    requires 0 < n <= |mem| && i < |mem|
    ensures Erase(mem, n)[i] == mem[i] <==> Stays(mem, n, i)
  {
  }

  predicate Covers(s: Span, i: nat) { s.from <= i < End(s) }

  /** Some view of the request covers the offset. */
  ghost predicate Covered(v: Views, i: nat) {
    || Covers(v.path, i) || Covers(v.query, i) || (v.body.InBuffer? && Covers(v.body.span, i))
    || exists k :: 0 <= k < |v.headers| && (Covers(v.headers[k].key, i) || Covers(v.headers[k].value, i))
  }

  /** A view reads what it read. */
  ghost predicate Intact(mem: string, n: nat, s: Span)
    requires 0 < n <= |mem|
  {
    forall i: nat {:trigger Covers(s, i)} :: Covers(s, i) && i < |mem| ==> Stays(mem, n, i)
  }

  lemma SliceSame(a: string, b: string, from: nat, to: nat)
    requires from <= to <= |a| == |b|
    ensures a[from..to] == b[from..to] <==> forall i :: from <= i < to ==> a[i] == b[i]
  {
    if a[from..to] == b[from..to] {
      forall i | from <= i < to ensures a[i] == b[i] { assert a[from..to][i - from] == b[from..to][i - from]; }
    }
  }

  lemma IntactIff(mem: string, n: nat, s: Span)
    requires 0 < n <= |mem| && End(s) <= |mem|
    ensures Read(Erase(mem, n), s) == Read(mem, s) <==> Intact(mem, n, s)
  {
    SliceSame(Erase(mem, n), mem, s.from, End(s));
    if Intact(mem, n, s) {
      forall i | s.from <= i < End(s) ensures Erase(mem, n)[i] == mem[i] {
        assert Covers(s, i);
        StaysIff(mem, n, i);
      }
    } else {
      var i: nat :| Covers(s, i) && i < |mem| && !Stays(mem, n, i);
      StaysIff(mem, n, i);
      assert Erase(mem, n)[i] != mem[i];
    }
  }

  ghost predicate HeaderIntact(mem: string, n: nat, hs: seq<HeaderView>, k: int)
    requires 0 < n <= |mem|
  {
    0 <= k < |hs| ==> Intact(mem, n, hs[k].key) && Intact(mem, n, hs[k].value)
  }

  ghost predicate HeadersIntact(mem: string, n: nat, hs: seq<HeaderView>)
    requires 0 < n <= |mem|
  {
    forall k {:trigger HeaderIntact(mem, n, hs, k)} :: HeaderIntact(mem, n, hs, k)
  }

  lemma {:induction false} HeadersIntactIff(mem: string, n: nat, hs: seq<HeaderView>)
    requires 0 < n <= |mem| && HeadersPlaced(hs, |mem|)
    ensures ReadHeaders(Erase(mem, n), hs) == ReadHeaders(mem, hs) <==> HeadersIntact(mem, n, hs)
    decreases |hs|
  {
    if |hs| > 0 {
      var last, front := |hs| - 1, hs[..|hs| - 1];
      forall k ensures HeaderPlaced(front, k, |mem|) { assert HeaderPlaced(hs, k, |mem|); }
      HeadersIntactIff(mem, n, front);
      assert HeaderPlaced(hs, last, |mem|);
      IntactIff(mem, n, hs[last].key);
      IntactIff(mem, n, hs[last].value);
      FrontIntact(mem, n, hs, front, last);
      HeadersCount(Erase(mem, n), front);
      HeadersCount(mem, front);
      AppendSame(ReadHeaders(Erase(mem, n), front), ReadHeader(Erase(mem, n), hs[last]), ReadHeaders(mem, front), ReadHeader(mem, hs[last]));
    }
  }

  lemma FrontIntact(mem: string, n: nat, hs: seq<HeaderView>, front: seq<HeaderView>, last: nat)
    requires 0 < n <= |mem| && last + 1 == |hs| && front == hs[..last]
    ensures HeadersIntact(mem, n, hs) <==> HeadersIntact(mem, n, front) && HeaderIntact(mem, n, hs, last)
  {
    if HeadersIntact(mem, n, hs) {
      forall k ensures HeaderIntact(mem, n, front, k) { assert HeaderIntact(mem, n, hs, k); }
    }
    if HeadersIntact(mem, n, front) && HeaderIntact(mem, n, hs, last) {
      forall k ensures HeaderIntact(mem, n, hs, k) { assert HeaderIntact(mem, n, front, k); }
    }
  }

  lemma {:induction false} HeadersCount(mem: string, hs: seq<HeaderView>)
    ensures |ReadHeaders(mem, hs)| == |hs|
  {
    if |hs| > 0 { HeadersCount(mem, hs[..|hs| - 1]); }
  }

  ghost predicate AllIntact(mem: string, n: nat, v: Views)
    requires 0 < n <= |mem|
  {
    && Intact(mem, n, v.path) && Intact(mem, n, v.query) && HeadersIntact(mem, n, v.headers)
    && (v.body.InBuffer? ==> Intact(mem, n, v.body.span))
  }

  lemma AllIntactIff(mem: string, n: nat, v: Views)
    requires 0 < n <= |mem| && AllPlaced(v, |mem|)
    ensures ReadAll(Erase(mem, n), v) == ReadAll(mem, v) <==> AllIntact(mem, n, v)
  {
    IntactIff(mem, n, v.path);
    IntactIff(mem, n, v.query);
    HeadersIntactIff(mem, n, v.headers);
    if v.body.InBuffer? { IntactIff(mem, n, v.body.span); }
  }

  lemma CoveredIff(mem: string, n: nat, v: Views)
    requires 0 < n <= |mem| && AllPlaced(v, |mem|)
    ensures AllIntact(mem, n, v) <==> forall i: nat :: Covered(v, i) ==> i < |mem| && Stays(mem, n, i)
  {
    if AllIntact(mem, n, v) {
      forall i: nat | Covered(v, i) ensures i < |mem| && Stays(mem, n, i) {
        if k :| 0 <= k < |v.headers| && (Covers(v.headers[k].key, i) || Covers(v.headers[k].value, i)) {
          assert HeaderIntact(mem, n, v.headers, k) && HeaderPlaced(v.headers, k, |mem|);
        }
      }
    } else {
      var i := Broken(mem, n, v);
      assert Covered(v, i) && !Stays(mem, n, i);
    }
  }

  lemma Broken(mem: string, n: nat, v: Views) returns (i: nat)
    requires 0 < n <= |mem| && !AllIntact(mem, n, v)
    ensures Covered(v, i) && i < |mem| && !Stays(mem, n, i)
  {
    if !Intact(mem, n, v.path) {
      i :| Covers(v.path, i) && i < |mem| && !Stays(mem, n, i);
    } else if !Intact(mem, n, v.query) {
      i :| Covers(v.query, i) && i < |mem| && !Stays(mem, n, i);
    } else if !HeadersIntact(mem, n, v.headers) {
      var k :| !HeaderIntact(mem, n, v.headers, k);
      if !Intact(mem, n, v.headers[k].key) {
        i :| Covers(v.headers[k].key, i) && i < |mem| && !Stays(mem, n, i);
      } else {
        i :| Covers(v.headers[k].value, i) && i < |mem| && !Stays(mem, n, i);
      }
    } else {
      i :| Covers(v.body.span, i) && i < |mem| && !Stays(mem, n, i);
    }
  }

  // ---------- Requests ----------

  /** What router, middleware and handler see of the request at the front of the buffer: its views, after the erase. */
  function Seen(data: string): Request {
    var out := Parse(FRESH, data);
    if out.p.state == Complete && out.consumed.Some? && 0 < out.consumed.value <= |data|
    then ReadAll(Erase(data, out.consumed.value), ViewsOf(data))
    else EMPTY_REQUEST
  }

  /** The bytes that move, and the terminator behind them, agree with the old ones wherever a view of the request looks. */
  ghost predicate Undisturbed(data: string, n: nat, v: Views)
    requires 0 < n <= |data|
  {
    forall i: nat :: Covered(v, i) ==> i < |data| && Stays(data, n, i)
  }

  /** The request that is handed on is the one that was parsed exactly if what moves under its views agrees with what
      they covered. */
  lemma SeenIsParsedIff(data: string, n: nat)
    requires Parse(FRESH, data).p.state == Complete && Parse(FRESH, data).consumed == Some(n)
    ensures 0 < n <= |data| && (Seen(data) == Parse(FRESH, data).p.req <==> Undisturbed(data, n, ViewsOf(data)))
  {
    var v := ViewsOf(data);
    ViewsRead(data, n);
    PlacedLater(v, n, |data|);
    AllIntactIff(data, n, v);
    CoveredIff(data, n, v);
  }

  lemma CoveredInside(v: Views, end: nat, i: nat)
    requires AllPlaced(v, end) && Covered(v, i)
    ensures 0 < i < end
  {
    if k :| 0 <= k < |v.headers| && (Covers(v.headers[k].key, i) || Covers(v.headers[k].value, i)) {
      assert HeaderPlaced(v.headers, k, end);
    }
  }

  lemma WholeUndisturbed(data: string, v: Views)
    requires data != "" && AllPlaced(v, |data|)
    ensures Undisturbed(data, |data|, v)
  {
    forall i: nat | Covered(v, i) ensures i < |data| && Stays(data, |data|, i) { CoveredInside(v, |data|, i); }
  }

  lemma TwiceUndisturbed(data: string, n: nat, v: Views)
    requires 0 < n && 2 * n <= |data| && data[n..2 * n] == data[..n] && AllPlaced(v, n)
    ensures Undisturbed(data, n, v)
  {
    forall i: nat | Covered(v, i) ensures i < |data| && Stays(data, n, i) {
      CoveredInside(v, n, i);
      assert data[n..2 * n][i] == data[..n][i];
    }
  }

  /** With nothing behind it, a request is handed on as it was parsed. */
  lemma NothingBehind(data: string)
    requires Parse(FRESH, data).p.state == Complete && Parse(FRESH, data).consumed == Some(|data|)
    ensures Seen(data) == Parse(FRESH, data).p.req
  {
    ViewsRead(data, |data|);
    SeenIsParsedIff(data, |data|);
    WholeUndisturbed(data, ViewsOf(data));
  }

  /** And so it is with the same bytes once more behind it. */
  lemma SameBehind(data: string, n: nat)
    requires Parse(FRESH, data).p.state == Complete && Parse(FRESH, data).consumed == Some(n)
    requires 2 * n <= |data| && data[n..2 * n] == data[..n]
    ensures Seen(data) == Parse(FRESH, data).p.req
  {
    ViewsRead(data, n);
    SeenIsParsedIff(data, n);
    TwiceUndisturbed(data, n, ViewsOf(data));
  }

  // ---------- Where the path is ----------

  lemma {:induction false} MethodRuns(data: string, c: Cursor, m: Marks, k: nat) returns (d: Cursor, w: Marks)
    requires c.p.state == InMethod && c.start <= c.pos <= k < |data| && data[k] == ' ' && ' ' !in data[c.pos..k]
    ensures d.p.state == InPath && d.start == d.pos == k + 1 && MarkAll(data, c, m) == MarkAll(data, d, w)
    decreases k - c.pos
  {
    d, w := Step(data, c), Mark(data, c, m);
    if c.pos < k {
      assert data[c.pos] == data[c.pos..k][0] && data[c.pos + 1..k] == data[c.pos..k][1..];
      d, w := MethodRuns(data, d, w, k);
    }
  }

  lemma {:induction false} TargetRuns(data: string, c: Cursor, m: Marks, j: nat) returns (d: Cursor, w: Marks)
    requires c.p.state == InPath && c.start <= c.pos <= j < |data| && data[j] == ' ' && ' ' !in data[c.pos..j]
    ensures d.p.state == InVersion && d.start <= d.pos <= |data| && MarkAll(data, c, m) == MarkAll(data, d, w)
    ensures w.views.path == MarkPath(w.views, data, c.start, j).path
    decreases j - c.pos
  {
    d, w := Step(data, c), Mark(data, c, m);
    if c.pos < j {
      assert data[c.pos] == data[c.pos..j][0] && data[c.pos + 1..j] == data[c.pos..j][1..];
      d, w := TargetRuns(data, d, w, j);
    }
  }

  lemma {:induction false} PathFixed(data: string, c: Cursor, m: Marks)
    requires c.p.state in {InVersion, InKey, InValue} && c.start <= c.pos <= |data|
    ensures MarkAll(data, c, m).views.path == m.views.path
    decreases |data| - c.pos
  {
    if c.pos < |data| {
      var d, w := Step(data, c), Mark(data, c, m);
      if d.p.state in {InVersion, InKey, InValue} { PathFixed(data, d, w); }
    }
  }

  /** The path stands between the first two spaces. */
  lemma PathBetween(data: string, k: nat, j: nat)
    requires k < j < |data| && data[k] == ' ' && ' ' !in data[..k] && data[j] == ' ' && ' ' !in data[k + 1..j] && '?' !in data[k + 1..j]
    ensures ViewsOf(data).path == Span(k + 1, j - k - 1)
  {
    assert data[0..k] == data[..k];
    var c, m := MethodRuns(data, BEGIN, UNMARKED, k);
    var d, w := TargetRuns(data, c, m, j);
    PathFixed(data, d, w);
    NotContained(data[k + 1..j], "?", 0);
  }
}
