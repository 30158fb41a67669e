/** A reader of chunked bodies as section 4.1 of RFC 7230 defines them: chunks, the last chunk, trailer fields, and an
    empty line. */
module ResponseReader {
  import opened Text
  import opened HttpParser
  import opened ParserProperties
  import opened ChunkCodec

  datatype Reading = Done(body: string, end: nat) | Waiting | Malformed

  /** A character of a field name, section 3.2.6. */
  predicate IsTokenChar(c: char) {
    '0' <= c <= '9' || 'a' <= c <= 'z' || 'A' <= c <= 'Z' || c in "!#$%&'*+-.^_`|~"
  }

  predicate IsToken(s: string) { s != "" && forall i :: 0 <= i < |s| ==> IsTokenChar(s[i]) }

  /** A field name and a colon. */
  predicate IsField(line: string) {
    match IndexOf(line, ":", 0) case None => false case Some(k) => k <= |line| && IsToken(line[..k])
  }

  /** The characters of a token, by their codes: section 3.2.6 of RFC 7230, with letters and digits as in section B.1 of
      RFC 5234. */
  lemma TokenCharIff(c: char)
    ensures IsTokenChar(c) <==>
            var n := c as int;
            || 0x30 <= n <= 0x39 || 0x41 <= n <= 0x5A || 0x61 <= n <= 0x7A
            || n in {0x21, 0x23, 0x24, 0x25, 0x26, 0x27, 0x2A, 0x2B, 0x2D, 0x2E, 0x5E, 0x5F, 0x60, 0x7C, 0x7E}
  {
    var marks := "!#$%&'*+-.^_`|~";
    assert marks == ['!', '#', '$', '%', '&', '\'', '*', '+', '-', '.', '^', '_', '`', '|', '~'];
  }

  /** A field line has a colon behind a name of at least one character of a token. */
  lemma FieldIff(line: string)
    ensures IsField(line) <==>
            exists k :: 0 < k < |line| && line[k] == ':' && forall i :: 0 <= i < k ==> line[i] != ':' && IsTokenChar(line[i])
  {
    match IndexOf(line, ":", 0)
    case None =>
      forall k | 0 < k < |line| ensures line[k] != ':' { assert !Matches(line, ":", k); assert line[k..k + 1] == [line[k]]; }
    case Some(k) =>
      assert line[k..k + 1] == [line[k]];
      forall i | 0 <= i < k ensures line[i] != ':' { assert !Matches(line, ":", i); assert line[i..i + 1] == [line[i]]; }
      forall j | 0 < j < |line| && line[j] == ':' && (forall i :: 0 <= i < j ==> line[i] != ':') ensures j == k {}
  }

  /** A turn of the reader: on to the next position, on to the trailers, or an end. */
  datatype Turn = Next(pos: nat, body: string) | Trailers(pos: nat) | Stop(out: Reading)

  /** What a size line says, and where it ends. */
  datatype SizeLine = NoLine | BadLine | SizeIs(n: nat, from: nat)

  function SizeAt(data: string, pos: nat): (r: SizeLine)
    requires pos <= |data|
    ensures r.SizeIs? ==> pos < r.from <= |data|
  {
    match IndexOf(data, CRLF, pos)
    case None => NoLine
    case Some(eol) =>
      var tok := SizeToken(data[pos..eol]);
      if tok == "" || !IsHex(tok) then BadLine else SizeIs(HexValue(tok), eol + 2)
  }

  /** One chunk. */
  function ChunkTurn(data: string, pos: nat, body: string): (r: Turn)
    requires pos <= |data|
    ensures r.Next? || r.Trailers? ==> pos < r.pos <= |data|
  {
    match SizeAt(data, pos)
    case NoLine => Stop(Waiting)
    case BadLine => Stop(Malformed)
    case SizeIs(n, from) =>
      if n == 0 then Trailers(from)
      else if from + n + 2 > |data| then Stop(Waiting)
      else if data[from + n..from + n + 2] != CRLF then Stop(Malformed)
      else Next(from + n + 2, body + data[from..from + n])
  }

  /** One line of the trailer. */
  function TrailerTurn(data: string, pos: nat, body: string): (r: Turn)
    requires pos <= |data|
    ensures r.Next? || r.Trailers? ==> pos < r.pos <= |data|
  {
    match IndexOf(data, CRLF, pos)
    case None => Stop(Waiting)
    case Some(eol) =>
      if eol == pos then Stop(Done(body, pos + 2))
      else if IsField(data[pos..eol]) then Trailers(eol + 2)
      else Stop(Malformed)
  }

  function ReadTrailers(data: string, pos: nat, body: string): Reading
    requires pos <= |data|
    decreases |data| - pos
  {
    match TrailerTurn(data, pos, body)
    case Stop(out) => out
    case Trailers(next) => ReadTrailers(data, next, body)
    case Next(_, _) => Malformed
  }

  /** The chunks from `pos` on, `body` having been read. */
  function ReadChunked(data: string, pos: nat, body: string): Reading
    requires pos <= |data|
    decreases |data| - pos
  {
    match ChunkTurn(data, pos, body)
    case Stop(out) => out
    case Trailers(next) => ReadTrailers(data, next, body)
    case Next(next, more) => ReadChunked(data, next, more)
  }

  // ---------- Turn by turn ----------

  /** A key for one place. */
  predicate Turned(key: bool, pos: nat) { key }

  /** Facts about the loops at a place, used only where the key for it is turned. */
  ghost predicate Chunks(data: string, pos: nat, body: string, out: Reading) {
    pos <= |data| && forall key {:trigger Turned(key, pos)} :: Turned(key, pos) ==> ReadChunked(data, pos, body) == out
  }

  ghost predicate Tail(data: string, pos: nat, body: string, out: Reading) {
    pos <= |data| && forall key {:trigger Turned(key, pos)} :: Turned(key, pos) ==> ReadTrailers(data, pos, body) == out
  }

  lemma ChunkMore(data: string, pos: nat, body: string, next: nat, more: string, out: Reading)
    requires pos <= |data| && ChunkTurn(data, pos, body) == Next(next, more) && Chunks(data, next, more, out)
    ensures Chunks(data, pos, body, out)
  {
    assert Turned(true, next);
  }

  lemma ChunkLast(data: string, pos: nat, body: string, next: nat, out: Reading)
    requires pos <= |data| && ChunkTurn(data, pos, body) == Trailers(next) && Tail(data, next, body, out)
    ensures Chunks(data, pos, body, out)
  {
    assert Turned(true, next);
  }

  lemma TailMore(data: string, pos: nat, body: string, next: nat, out: Reading)
    requires pos <= |data| && TrailerTurn(data, pos, body) == Trailers(next) && Tail(data, next, body, out)
    ensures Tail(data, pos, body, out)
  {
    assert Turned(true, next);
  }

  lemma TailStop(data: string, pos: nat, body: string, out: Reading)
    requires pos <= |data| && TrailerTurn(data, pos, body) == Stop(out)
    ensures Tail(data, pos, body, out)
  {
  }

  // ---------- Chunks ----------

  lemma SizeAtIs(data: string, pos: nat, eol: nat, line: string, n: nat)
    requires pos <= |data| && IndexOf(data, CRLF, pos) == Some(eol) && data[pos..eol] == line
    requires SizeToken(line) == line && line != "" && IsHex(line) && HexValue(line) == n
    ensures SizeAt(data, pos) == SizeIs(n, eol + 2)
  {
  }

  lemma NumeralText(n: nat, s: string)
    requires s == Hex(n)
    ensures s != "" && IsHex(s) && HexValue(s) == n && SizeToken(s) == s && '\r' !in s && ':' !in s
  {
    HexRoundTrip(n);
    NoSemicolon(s);
  }

  lemma LineAt(data: string, pos: nat, line: string)
    requires Matches(data, line + CRLF, pos) && '\r' !in line
    ensures pos + |line| + 2 <= |data| && IndexOf(data, CRLF, pos) == Some(pos + |line|) && data[pos..pos + |line|] == line
  {
    FirstCrlf(data, line, pos);
    SplitMatch(data, line, CRLF, pos);
  }

  /** The text is a numeral of this value. */
  ghost predicate Sized(s: string, n: nat) {
    forall key {:trigger Unfold(key)} :: Unfold(key) ==>
      s != "" && IsHex(s) && HexValue(s) == n && SizeToken(s) == s && '\r' !in s && ':' !in s
  }

  lemma HexIsSized(n: nat)
    ensures Sized(Hex(n), n)
  {
    NumeralText(n, Hex(n));
  }

  lemma SizeThere(data: string, pos: nat, n: nat, s: string)
    requires Sized(s, n) && Matches(data, s + CRLF, pos)
    ensures pos <= |data| && SizeAt(data, pos) == SizeIs(n, pos + |s| + 2)
  {
    assert Unfold(true);
    LineAt(data, pos, s);
    SizeAtIs(data, pos, pos + |s|, s, n);
  }

  lemma ChunkAt(data: string, pos: nat, body: string, from: nat, chunk: string)
    requires pos <= |data| && SizeAt(data, pos) == SizeIs(|chunk|, from) && chunk != ""
    requires Matches(data, chunk, from) && Matches(data, CRLF, from + |chunk|)
    ensures ChunkTurn(data, pos, body) == Next(from + |chunk| + 2, body + chunk)
  {
  }

  lemma FrameTurn(data: string, pos: nat, body: string, chunk: string, s: string)
    requires Sized(s, |chunk|) && Matches(data, s + CRLF + chunk + CRLF, pos) && chunk != ""
    ensures pos <= |data| && ChunkTurn(data, pos, body) == Next(pos + |s| + 2 + |chunk| + 2, body + chunk)
  {
    FrameParts(data, pos, s, chunk);
    SizeThere(data, pos, |chunk|, s);
    ChunkAt(data, pos, body, pos + |s| + 2, chunk);
  }

  lemma NothingBehind(s: string)
    ensures s + "" == s
  {}

  lemma NothingBefore(s: string)
    ensures "" + s == s
  {}

  /** Frames are read as what was written, whatever follows. */
  lemma {:induction false} FramesRead(data: string, pos: nat, body: string, chunks: seq<string>, end: nat, text: string, out: Reading)
    requires Matches(data, Frames(chunks), pos) && end == pos + |Frames(chunks)| && text == body + Concat(chunks)
    requires Chunks(data, end, text, out)
    ensures Chunks(data, pos, body, out)
    decreases |chunks|
  {
    if chunks == [] {
      NothingBehind(body);
    } else if chunks[0] == "" {
      FramesRead(data, pos, body, chunks[1..], end, text, out);
    } else {
      var s, next := FirstPart(data, pos, chunks);
      Assoc(body, chunks[0], Concat(chunks[1..]));
      FramesRead(data, next, body + chunks[0], chunks[1..], end, text, out);
      FrameMore(data, pos, body, chunks[0], s, next, out);
    }
  }

  lemma FrameMore(data: string, pos: nat, body: string, chunk: string, s: string, next: nat, out: Reading)
    requires Sized(s, |chunk|) && Matches(data, s + CRLF + chunk + CRLF, pos) && chunk != "" && next == pos + |s| + 2 + |chunk| + 2
    requires Chunks(data, next, body + chunk, out)
    ensures Chunks(data, pos, body, out)
  {
    FrameTurn(data, pos, body, chunk, s);
    ChunkMore(data, pos, body, next, body + chunk, out);
  }

  lemma FirstPart(data: string, pos: nat, chunks: seq<string>) returns (s: string, next: nat)
    requires chunks != [] && chunks[0] != "" && Matches(data, Frames(chunks), pos)
    ensures Sized(s, |chunks[0]|) && Matches(data, s + CRLF + chunks[0] + CRLF, pos) && next == pos + |s| + 2 + |chunks[0]| + 2
    ensures Matches(data, Frames(chunks[1..]), next) && next + |Frames(chunks[1..])| == pos + |Frames(chunks)|
  {
    s := Hex(|chunks[0]|);
    next := pos + |s| + 2 + |chunks[0]| + 2;
    HexIsSized(|chunks[0]|);
    SplitMatch(data, Frame(chunks[0]), Frames(chunks[1..]), pos);
  }

  /** The last chunk. */
  lemma ZeroTurn(data: string, pos: nat, body: string)
    requires Matches(data, "0" + CRLF, pos)
    ensures pos <= |data| && ChunkTurn(data, pos, body) == Trailers(pos + 3)
  {
    assert Hex(0) == "0";
    HexIsSized(0);
    SizeThere(data, pos, 0, "0");
  }

  lemma LastRead(data: string, pos: nat, body: string, out: Reading)
    requires Matches(data, "0" + CRLF, pos) && Tail(data, pos + 3, body, out)
    ensures Chunks(data, pos, body, out)
  {
    ZeroTurn(data, pos, body);
    ChunkLast(data, pos, body, pos + 3, out);
  }

  /** Frames, the last chunk, and what the trailer loop makes of the rest. */
  lemma FramesThenZero(data: string, pos: nat, chunks: seq<string>, f: string, text: string, out: Reading)
    requires f == Frames(chunks) && text == Concat(chunks) && Matches(data, f, pos) && Matches(data, "0" + CRLF, pos + |f|)
    requires Tail(data, pos + |f| + 3, text, out)
    ensures Chunks(data, pos, "", out)
  {
    var end := pos + |f|;
    LastRead(data, end, text, out);
    NothingBefore(text);
    FramesRead(data, pos, "", chunks, end, text, out);
  }

  // ---------- Trailers ----------

  /** A field as the sender writes it, with a proper name and a value of one line. */
  predicate IsTrailer(key: string, value: string) { IsToken(key) && !HasLineBreak(value) }

  lemma ColonAt(line: string, k: nat)
    requires k < |line| && line[k] == ':' && ':' !in line[..k]
    ensures IndexOf(line, ":", 0) == Some(k)
  {
    forall i: nat | i < k ensures !Matches(line, ":", i) {
      assert line[..k][i] == line[i] == line[i..i + 1][0];
    }
    assert line[k..k + 1] == ":";
    IndexOfIs(line, ":", 0, k);
  }

  lemma FieldLine(key: string, value: string, line: string)
    requires IsTrailer(key, value) && line == key + ": " + value
    ensures IsField(line) && '\r' !in line && line != ""
  {
    assert line[..|key|] == key;
    ColonAt(line, |key|);
  }

  /** Where the first line of a text ends. */
  function FirstBreak(text: string): (k: nat)
    ensures k <= |text|
  {
    match IndexOf(text, CRLF, 0) case None => |text| case Some(k) => k
  }

  /** The text, broken into lines, is fields. */
  predicate AreFields(text: string)
    decreases |text|
  {
    match IndexOf(text, CRLF, 0)
    case None => IsField(text)
    case Some(k) => IsField(text[..k]) && AreFields(text[k + 2..])
  }

  lemma FieldsAre(key: string, value: string)
    requires IsTrailer(key, value)
    ensures AreFields(key + ": " + value)
  {
    FieldLine(key, value, key + ": " + value);
    NotContained(key + ": " + value, CRLF, 0);
  }

  lemma MatchSlice(data: string, pos: nat, t: string, i: nat, j: nat)
    requires Matches(data, t, pos) && i <= j <= |t|
    ensures data[pos + i..pos + j] == t[i..j]
  {
    forall k | 0 <= k < j - i ensures data[pos + i..pos + j][k] == t[i..j][k] {
      assert data[pos..pos + |t|][i + k] == data[pos + i + k];
    }
  }

  lemma SameBreak(data: string, pos: nat, text: string, i: nat)
    requires Matches(data, text + CRLF, pos) && i < |text|
    ensures Matches(data, CRLF, pos + i) <==> Matches(text, CRLF, i)
  {
    var t := text + CRLF;
    MatchSlice(data, pos, t, i, i + 2);
    if i + 2 <= |text| {
      assert t[i..i + 2] == text[i..i + 2];
    } else {
      assert t[i..i + 2][1] == '\r';
    }
  }

  lemma BreakThere(data: string, pos: nat, text: string, k: nat)
    requires Matches(data, text + CRLF, pos) && k == FirstBreak(text)
    ensures pos <= |data| && IndexOf(data, CRLF, pos) == Some(pos + k) && data[pos..pos + k] == text[..k]
  {
    var t := text + CRLF;
    MatchSlice(data, pos, t, 0, k);
    assert t[0..k] == text[..k];
    MatchSlice(data, pos, t, |text|, |t|);
    if k < |text| { SameBreak(data, pos, text, k); }
    forall j: nat | pos <= j < pos + k ensures !Matches(data, CRLF, j) { SameBreak(data, pos, text, j - pos); }
    IndexOfIs(data, CRLF, pos, pos + k);
  }

  lemma RestThere(data: string, pos: nat, text: string, k: nat)
    requires Matches(data, text + CRLF, pos) && k + 2 <= |text|
    ensures Matches(data, text[k + 2..] + CRLF, pos + k + 2)
  {
    var t := text + CRLF;
    MatchSlice(data, pos, t, k + 2, |t|);
    assert t[k + 2..] == text[k + 2..] + CRLF;
  }

  lemma NoEmptyField()
    ensures !IsField("")
  {
    NotContained("", ":", 0);
  }

  /** Whether a text is fields, used only where the key is turned. */
  ghost predicate FieldsOrNot(text: string, yes: bool) {
    forall key {:trigger Unfold(key)} :: Unfold(key) ==> (AreFields(text) <==> yes)
  }

  /** The first line of a text, and what is behind it. */
  lemma FirstLine(text: string, yes: bool) returns (k: nat, rest: Option<string>, good: bool, others: bool)
    requires FieldsOrNot(text, yes)
    ensures k == FirstBreak(text) && good == IsField(text[..k]) && (k == 0 ==> !good) && (yes <==> good && others)
    ensures rest.None? ==> k == |text| && others
    ensures rest.Some? ==> k + 2 <= |text| && rest.value == text[k + 2..] && FieldsOrNot(rest.value, others)
  {
    assert Unfold(true);
    k := FirstBreak(text);
    good := IsField(text[..k]);
    if k == 0 { NoEmptyField(); }
    if k == |text| {
      assert text[..|text|] == text;
      rest, others := None, true;
    } else {
      rest, others := Some(text[k + 2..]), AreFields(text[k + 2..]);
    }
  }

  /** A text and a line break stand there; the next turn goes on. Both used only where the key is turned. */
  ghost predicate Closed(data: string, pos: nat, text: string) {
    forall key {:trigger Unfold(key)} :: Unfold(key) ==> Matches(data, text + CRLF, pos)
  }

  ghost predicate Onward(data: string, pos: nat, body: string, next: nat) {
    pos <= |data| && forall key {:trigger Unfold(key)} :: Unfold(key) ==> TrailerTurn(data, pos, body) == Trailers(next)
  }

  lemma IsClosed(data: string, pos: nat, text: string)
    requires Closed(data, pos, text)
    ensures Matches(data, text + CRLF, pos)
  {
    assert Unfold(true);
  }

  lemma TailOnward(data: string, pos: nat, body: string, next: nat, out: Reading)
    requires Onward(data, pos, body, next) && Tail(data, next, body, out)
    ensures Tail(data, pos, body, out)
  {
    assert Unfold(true);
    TailMore(data, pos, body, next, out);
  }

  /** The turn at a line of a text that a line break closes. */
  lemma LineTurn(data: string, pos: nat, body: string, text: string, k: nat)
    requires Closed(data, pos, text) && k == FirstBreak(text)
    ensures k > 0 && IsField(text[..k]) ==> Onward(data, pos, body, pos + k + 2)
    ensures !(k > 0 && IsField(text[..k])) ==> Tail(data, pos, body, if k == 0 then Done(body, pos + 2) else Malformed)
  {
    IsClosed(data, pos, text);
    BreakThere(data, pos, text, k);
    if !(k > 0 && IsField(text[..k])) { TailStop(data, pos, body, if k == 0 then Done(body, pos + 2) else Malformed); }
  }

  lemma TextTurn(data: string, pos: nat, body: string, text: string, yes: bool)
      returns (k: nat, rest: Option<string>, good: bool, others: bool)
    requires Closed(data, pos, text) && FieldsOrNot(text, yes)
    ensures k <= |text| && (yes <==> good && others)
    ensures good ==> Onward(data, pos, body, pos + k + 2)
    ensures !good ==> Tail(data, pos, body, if k == 0 then Done(body, pos + 2) else Malformed)
    ensures rest.None? ==> k == |text| && others
    ensures rest.Some? ==>
              k + 2 + |rest.value| == |text| && FieldsOrNot(rest.value, others) && Closed(data, pos + k + 2, rest.value)
  {
    k, rest, good, others := FirstLine(text, yes);
    LineTurn(data, pos, body, text, k);
    if rest.Some? {
      IsClosed(data, pos, text);
      RestThere(data, pos, text, k);
    }
  }

  /** Fields are read, and what follows them decides. */
  lemma {:induction false} FieldsRead(data: string, pos: nat, body: string, text: string, next: nat, out: Reading)
    requires Closed(data, pos, text) && next == pos + |text| + 2 && FieldsOrNot(text, true) && Tail(data, next, body, out)
    ensures Tail(data, pos, body, out)
    decreases |text|
  {
    var k, rest, good, others := TextTurn(data, pos, body, text, true);
    if rest.Some? { FieldsRead(data, pos + k + 2, body, rest.value, next, out); }
    TailOnward(data, pos, body, pos + k + 2, out);
  }

  /** A text that is not fields ends the reading, inside it. */
  lemma {:induction false} OthersRead(data: string, pos: nat, body: string, text: string, next: nat) returns (out: Reading)
    requires Closed(data, pos, text) && next == pos + |text| + 2 && FieldsOrNot(text, false)
    ensures Tail(data, pos, body, out) && (out.Done? ==> out.end <= next)
    decreases |text|
  {
    var k, rest, good, others := TextTurn(data, pos, body, text, false);
    if good {
      out := OthersRead(data, pos + k + 2, body, rest.value, next);
      TailOnward(data, pos, body, pos + k + 2, out);
    } else {
      out := if k == 0 then Done(body, pos + 2) else Malformed;
    }
  }

  lemma EmptyTurn(data: string, pos: nat, body: string)
    requires Matches(data, CRLF, pos)
    ensures pos <= |data| && TrailerTurn(data, pos, body) == Stop(Done(body, pos + 2))
  {
  }

  /** A size line where a field should be. */
  lemma NumeralTurn(data: string, pos: nat, body: string, n: nat, s: string)
    requires Sized(s, n) && Matches(data, s + CRLF, pos)
    ensures pos <= |data| && TrailerTurn(data, pos, body) == Stop(Malformed)
  {
    assert Unfold(true);
    LineAt(data, pos, s);
    NoColon(s);
  }

  lemma NoColon(s: string)
    requires ':' !in s
    ensures !IsField(s)
  {
    NotContained(s, ":", 0);
  }
}
