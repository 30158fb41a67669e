/** A client's reading of a whole response: the head, the framing it announces (section 3.3.3 of RFC 7230), the body. */
module ResponseHead {
  import opened Text
  import opened HttpParser
  import opened ChunkCodec
  import opened ResponseReader

  /** The value in the first line of the head with this name; the status line is not looked at. */
  function FieldOf(head: string, name: string): Option<string> {
    var mark := CRLF + name + ": ";
    match IndexOf(head, mark, 0)
    case None => None
    case Some(k) =>
      match IndexOf(head, CRLF, k + |mark|)
      case None => Some(head[k + |mark|..])
      case Some(eol) => Some(head[k + |mark|..eol])
  }

  /** Chunks if that is what is announced, otherwise as many bytes as are; without either the client waits for the end of
      the connection. */
  function ReadResponse(wire: string): Reading {
    match IndexOf(wire, CRLFCRLF, 0)
    case None => Waiting
    case Some(e) =>
      if FieldOf(wire[..e], "Transfer-Encoding") == Some("chunked") then ReadChunked(wire, e + 4, "")
      else
        match FieldOf(wire[..e], "Content-Length")
        case None => Waiting
        case Some(v) =>
          if v == "" || !AllDigits(v) then Malformed
          else if e + 4 + DecimalValue(v) > |wire| then Waiting
          else Done(wire[e + 4..e + 4 + DecimalValue(v)], e + 4 + DecimalValue(v))
  }

  /** Lines that leave the framing to the response: whole lines, none of them empty, and no framing line among them. */
  predicate Plain(lines: string) {
    && |lines| >= 2 && lines[|lines| - 2..] == CRLF && IndexOf(lines, CRLFCRLF, 0).None?
    && IndexOf(lines, CRLF + "Transfer-Encoding" + ": ", 0).None? && IndexOf(lines, CRLF + "Content-Length" + ": ", 0).None?
  }

  /** The two last bytes of the lines. */
  lemma LinesEnd(lines: string)
    requires |lines| >= 2 && lines[|lines| - 2..] == CRLF
    ensures lines[|lines| - 2] == '\r' && lines[|lines| - 1] == '\n'
  {
    assert lines[|lines| - 2..][0] == lines[|lines| - 2] && lines[|lines| - 2..][1] == lines[|lines| - 1];
  }

  lemma MatchesFront(a: string, b: string, p: string, k: nat)
    requires k + |p| <= |a|
    ensures Matches(a + b, p, k) <==> Matches(a, p, k)
  {
    assert (a + b)[k..k + |p|] == a[k..k + |p|];
  }

  /** One byte is enough to tell. */
  lemma Differs(s: string, p: string, k: nat, i: nat)
    requires i < |p| && (k + i < |s| ==> s[k + i] != p[i])
    ensures !Matches(s, p, k)
  {
    if k + |p| <= |s| { assert s[k..k + |p|][i] == s[k + i]; }
  }

  lemma NoEarlierEnd(lines: string, line: string, wire: string, rest: string, k: nat)
    requires |lines| >= 2 && lines[|lines| - 2..] == CRLF && IndexOf(lines, CRLFCRLF, 0).None?
    requires line != "" && '\r' !in line && wire == lines + line + rest && k < |lines| + |line|
    ensures !Matches(wire, CRLFCRLF, k)
  {
    LinesEnd(lines);
    var n := |lines|;
    assert wire == lines + (line + rest);
    if k + 4 <= n {
      MatchesFront(lines, line + rest, CRLFCRLF, k);
    } else if k >= n - 1 {
      assert wire[k] == if k < n then lines[k] else line[k - n];
      Differs(wire, CRLFCRLF, k, 0);
    } else {
      assert wire[k + 2] == if k + 2 < n then lines[k + 2] else line[0];
      Differs(wire, CRLFCRLF, k, 2);
    }
  }

  /** The head ends behind the last line. */
  lemma EndsAt(lines: string, line: string, wire: string, rest: string)
    requires |lines| >= 2 && lines[|lines| - 2..] == CRLF && IndexOf(lines, CRLFCRLF, 0).None?
    requires line != "" && '\r' !in line && wire == lines + line + (CRLFCRLF + rest)
    ensures IndexOf(wire, CRLFCRLF, 0) == Some(|lines| + |line|)
  {
    var e := |lines| + |line|;
    assert wire[e..e + 4] == CRLFCRLF;
    forall k: nat | k < e ensures !Matches(wire, CRLFCRLF, k) { NoEarlierEnd(lines, line, wire, CRLFCRLF + rest, k); }
    IndexOfIs(wire, CRLFCRLF, 0, e);
  }

  /** Among lines and one more, a mark that is not in the lines is nowhere but at their end. */
  lemma OnlyAtEnd(lines: string, line: string, head: string, mark: string, p: string, k: nat)
    requires |lines| >= 2 && lines[|lines| - 2..] == CRLF && IndexOf(lines, p, 0).None? && head == lines + line && p == CRLF + mark
    requires '\r' !in line && '\r' !in mark && k != |lines| - 2
    ensures !Matches(head, p, k)
  {
    LinesEnd(lines);
    var n := |lines|;
    if k + |p| <= n {
      MatchesFront(lines, line, p, k);
    } else if k >= n - 1 {
      assert k < |head| ==> head[k] == if k < n then lines[k] else line[k - n];
      Differs(head, p, k, 0);
    } else {
      var i := n - 2 - k;
      assert head[n - 2] == lines[n - 2];
      assert i == 1 || p[i] == mark[i - 2];
      Differs(head, p, k, i);
    }
  }

  lemma MarkIs(name: string)
    ensures CRLF + name + ": " == CRLF + (name + ": ")
  {
  }

  lemma MarkPlaced(lines: string, k: nat, head: string, mark: string, p: string, value: string)
    requires k == |lines| - 2 && lines[k..] == CRLF && head == lines + (mark + value) && p == CRLF + mark
    ensures k + |p| <= |head| && Matches(head, p, k) && head[k + |p|..] == value
  {
    var tail := head[k..];
    assert tail == lines[k..] + (mark + value);
    Assoc(CRLF, mark, value);
    assert tail[..|p|] == p && tail[|p|..] == value;
    assert head[k..k + |p|] == tail[..|p|] && head[k + |p|..] == tail[|p|..];
  }

  lemma NoEarlierMark(lines: string, line: string, head: string, mark: string, p: string)
    requires |lines| >= 2 && lines[|lines| - 2..] == CRLF && IndexOf(lines, p, 0).None? && head == lines + line && p == CRLF + mark
    requires '\r' !in line && '\r' !in mark
    ensures forall i: nat :: i < |lines| - 2 ==> !Matches(head, p, i)
  {
    forall i: nat | i < |lines| - 2 ensures !Matches(head, p, i) { OnlyAtEnd(lines, line, head, mark, p, i); }
  }

  lemma NoBreakBehind(head: string, value: string, at: nat)
    requires at <= |head| && head[at..] == value && '\r' !in value
    ensures IndexOf(head, CRLF, at).None?
  {
    forall i: nat | at <= i ensures !Matches(head, CRLF, i) {
      assert i < |head| ==> head[i] == value[i - at];
      Differs(head, CRLF, i, 0);
    }
  }

  lemma FieldIs(head: string, name: string, p: string, k: nat, value: string)
    requires p == CRLF + name + ": " && Matches(head, p, k) && head[k + |p|..] == value && '\r' !in value
    requires forall i: nat :: i < k ==> !Matches(head, p, i)
    ensures FieldOf(head, name) == Some(value)
  {
    IndexOfIs(head, p, 0, k);
    NoBreakBehind(head, value, k + |p|);
  }

  /** The last line's field is found. */
  lemma FieldFound(lines: string, name: string, mark: string, p: string, value: string, line: string, head: string)
    requires |lines| >= 2 && lines[|lines| - 2..] == CRLF && IndexOf(lines, p, 0).None? && p == CRLF + name + ": "
    requires mark == name + ": " && line == mark + value && head == lines + line && '\r' !in line && '\r' !in mark && '\r' !in value
    ensures FieldOf(head, name) == Some(value)
  {
    MarkIs(name);
    MarkPlaced(lines, |lines| - 2, head, mark, p, value);
    NoEarlierMark(lines, line, head, mark, p);
    FieldIs(head, name, p, |lines| - 2, value);
  }

  /** A field of another name is not. */
  lemma FieldAbsent(lines: string, line: string, name: string)
    requires |lines| >= 2 && lines[|lines| - 2..] == CRLF && IndexOf(lines, CRLF + name + ": ", 0).None?
    requires '\r' !in line && '\r' !in name && line != "" && name != "" && line[0] != name[0]
    ensures FieldOf(lines + line, name) == None
  {
    var p, head := CRLF + name + ": ", lines + line;
    MarkIs(name);
    forall k: nat ensures !Matches(head, p, k) {
      if k != |lines| - 2 {
        OnlyAtEnd(lines, line, head, name + ": ", p, k);
      } else {
        assert head[k + 2] == line[0] && p[2] == name[0];
        Differs(head, p, k, 2);
      }
    }
  }

  /** A length and exactly so many bytes: the client has them, and nothing is left over. */
  lemma SizedRead(lines: string, digits: string, body: string, wire: string)
    requires Plain(lines) && digits != "" && AllDigits(digits) && DecimalValue(digits) == |body|
    requires wire == lines + ("Content-Length" + ": " + digits) + (CRLFCRLF + body)
    ensures ReadResponse(wire) == Done(body, |wire|)
  {
    var line := "Content-Length" + ": " + digits;
    var e := |lines| + |line|;
    NoBreakIn(digits);
    EndsAt(lines, line, wire, body);
    FieldAbsent(lines, line, "Transfer-Encoding");
    FieldFound(lines, "Content-Length", "Content-Length" + ": ", CRLF + "Content-Length" + ": ", digits, line, lines + line);
    HeadAndBody(lines + line, body, wire, e);
  }

  lemma NoBreakIn(digits: string)
    requires AllDigits(digits)
    ensures '\r' !in digits
  {
  }

  lemma HeadAndBody(head: string, body: string, wire: string, e: nat)
    requires wire == head + (CRLFCRLF + body) && e == |head|
    ensures |wire| == e + 4 + |body| && wire[..e] == head && wire[e + 4..e + 4 + |body|] == body
  {
  }

  /** Chunks: the client goes on with the chunked coding right behind the head. */
  lemma ChunkedHead(lines: string, rest: string, wire: string)
    requires Plain(lines) && wire == lines + ("Transfer-Encoding" + ": " + "chunked") + (CRLFCRLF + rest)
    ensures |lines| + 30 <= |wire| && ReadResponse(wire) == ReadChunked(wire, |lines| + 30, "")
  {
    var line := "Transfer-Encoding" + ": " + "chunked";
    assert |line| == 26;
    EndsAt(lines, line, wire, rest);
    assert wire[..|lines| + 26] == lines + line;
    FieldFound(lines, "Transfer-Encoding", "Transfer-Encoding" + ": ", CRLF + "Transfer-Encoding" + ": ", "chunked", line, lines + line);
  }
}
