/** The parser object: the fields and loops of `HttpParser`, proved against `HttpParser.Parse`. */
module ParserObject {
  import opened Text
  import opened HttpParser
  import HeaderScan

  class ParserState {
    var state: State
    var headersComplete: bool
    var chunked: bool
    var currentKey: string
    var bodyLength: nat
    var chunkRemaining: nat
    var chunkBody: string
    var errorStatus: nat
    var headerBytes: nat
    var req: Request

    function View(): Parser reads this {
      Parser(state, headersComplete, chunked, currentKey, bodyLength, chunkRemaining, chunkBody, errorStatus, headerBytes, req)
    }

    constructor ()
      ensures View() == FRESH
    {
      state, headersComplete, chunked, currentKey := InMethod, false, false, "";
      bodyLength, chunkRemaining, chunkBody, errorStatus, headerBytes := 0, 0, "", 0, 0;
      req := EMPTY_REQUEST;
    }

    method Reject(status: nat)
      modifies this
      ensures View() == Fail(old(View()), status)
    {
      errorStatus := status;
      state := Error;
    }

    /** The empty header line. */
    method FinishHeaders()
      modifies this
      ensures View() == EndHeaders(old(View()))
    {
      headersComplete := true;
      var te := Lookup(req.headers, "Transfer-Encoding");
      var cl := Lookup(req.headers, "Content-Length");
      if te != "" && cl != "" {
        Reject(400);
        return;
      }
      if te == "chunked" {
        chunked := true;
        state := ChunkSize;
      } else if cl != "" {
        var parsed := ParseUnsignedLong(cl);
        if parsed.None? {
          Reject(400);
          return;
        }
        bodyLength := parsed.value;
        if bodyLength > MAX_BODY_SIZE {
          Reject(413);
          return;
        }
        state := Body;
      } else {
        state := Complete;
      }
    }

    /** The line feed that ends a header value. */
    method FinishValue(data: string, pos: nat, start: nat) returns (pos': nat, start': nat)
      requires start <= pos < |data|
      modifies this
      ensures Cursor(View(), pos', start') == EndValue(data, Cursor(old(View()), pos, start))
    {
      pos', start' := pos, start;
      var value := if pos > start then data[start..pos - 1] else data[start..];
      for i := 0 to |value|
        invariant View() == old(View())
        invariant !HasLineBreak(value[..i])
      {
        if value[i] == '\r' || value[i] == '\n' {
          Reject(400);
          return;
        }
        assert value[..i + 1] == value[..i] + [value[i]];
      }
      assert value[..|value|] == value;
      headerBytes := headerBytes + |currentKey| + |value| + 4;
      if headerBytes > MAX_HEADER_SIZE {
        Reject(400);
        return;
      }
      req := AddHeader(req, Header(currentKey, value));
      state := InKey;
      pos', start' := pos + 1, pos + 1;
    }

    /** One byte of phase 1. */
    method StepByte(data: string, pos: nat, start: nat) returns (pos': nat, start': nat)
      requires start <= pos < |data| && Scanning(state)
      modifies this
      ensures Cursor(View(), pos', start') == Step(data, Cursor(old(View()), pos, start))
    {
      var c := data[pos];
      pos', start' := pos, start;
      match state {
        case InMethod =>
          if c == ' ' {
            req := req.(verb := StringToMethod(data[start..pos]));
            state, start' := InPath, pos + 1;
          }
        case InPath =>
          if c == ' ' {
            req := SetPath(req, data[start..pos]);
            state, start' := InVersion, pos + 1;
          }
        case InVersion =>
          if c == '\n' {
            state, start' := InKey, pos + 1;
          }
        case InKey =>
          if c == ':' {
            currentKey := data[start..pos];
            state, start' := InValue, pos + 1;
            if pos + 1 < |data| && data[pos + 1] == ' ' {
              pos', start' := pos + 1, start' + 1;
            }
          } else if c == '\n' {
            FinishHeaders();
            start' := pos + 1;
          } else {
            headerBytes := headerBytes + 1;
            if headerBytes > MAX_HEADER_SIZE {
              Reject(400);
              return;
            }
          }
        case InValue =>
          if c == '\n' {
            pos', start' := FinishValue(data, pos, start);
            return;
          }
        case _ =>
      }
      pos' := pos' + 1;
    }

    /** Phase 1. */
    method ScanHeaders(data: string) returns (pos: nat, start: nat)
      modifies this
      ensures Cursor(View(), pos, start) == Scan(data, Cursor(old(View()), 0, 0))
    {
      pos, start := 0, 0;
      while pos < |data| && Scanning(state)
        invariant start <= pos <= |data|
        invariant Scan(data, Cursor(View(), pos, start)) == Scan(data, Cursor(old(View()), 0, 0))
        decreases |data| - pos, if Scanning(state) then 1 else 0
      {
        pos, start := StepByte(data, pos, start);
      }
    }

    /** The digits of a chunk size. */
    method ReadChunkSize(tok: string) returns (ok: bool)
      requires state != Error
      modifies this
      ensures ok <==> ReadSize(tok, 0).Size?
      ensures var q := old(View()).(chunkRemaining := ReadSize(tok, 0).n);
              View() == if ok then q else Fail(q, ReadSize(tok, 0).status)
    {
      chunkRemaining := 0;
      assert tok[0..] == tok;
      for i := 0 to |tok|
        invariant View() == old(View()).(chunkRemaining := chunkRemaining)
        invariant chunkRemaining <= MAX_BODY_SIZE && ReadSize(tok[i..], chunkRemaining) == ReadSize(tok, 0)
      {
        assert tok[i..][1..] == tok[i + 1..];
        var d := HexDigit(tok[i]);
        if d < 0 {
          Reject(400);
          return false;
        }
        chunkRemaining := chunkRemaining * 16 + d;
        if chunkRemaining > MAX_BODY_SIZE {
          Reject(413);
          return false;
        }
      }
      ok := true;
    }

    /** The last chunk and the line after it. */
    method FinishChunks(data: string, pos: nat) returns (consumed: Option<nat>)
      modifies this
      ensures Outcome(View(), consumed) == LastChunk(data, old(View()), pos)
    {
      var trailerEnd := IndexOf(data, CRLF, pos);
      if trailerEnd.None? { return Some(pos); }
      req := req.(body := chunkBody);
      state := Complete;
      consumed := Some(trailerEnd.value + 2);
    }

    /** A chunk-size line, once its end is known. */
    method ReadSizeLine(data: string, line: string, next: nat) returns (ret: bool, consumed: Option<nat>)
      requires state == ChunkSize && next <= |data|
      modifies this
      ensures SizeLine(data, old(View()), line, next) == if ret then Return(Outcome(View(), consumed)) else More(View(), next)
    {
      consumed := None;
      var sizeTok := line;
      var ext := IndexOf(sizeTok, ";", 0);
      if ext.Some? { sizeTok := sizeTok[..ext.value]; }
      var ok := ReadChunkSize(sizeTok);
      if !ok { return true, None; }
      if chunkRemaining == 0 {
        ret := true;
        consumed := FinishChunks(data, next);
      } else if |chunkBody| + chunkRemaining > MAX_BODY_SIZE {
        Reject(413);
        ret := true;
      } else {
        state := ChunkData;
        ret := false;
      }
    }

    /** The chunk-size branch of the chunk loop. */
    method StepChunkSize(data: string, pos: nat) returns (ret: bool, consumed: Option<nat>, pos': nat)
      requires state == ChunkSize && pos <= |data|
      modifies this
      ensures StepChunk(data, old(View()), pos) == if ret then Return(Outcome(View(), consumed)) else More(View(), pos')
    {
      var eol := IndexOf(data, CRLF, pos);
      if eol.None? { return true, Some(pos), pos; }
      pos' := eol.value + 2;
      ret, consumed := ReadSizeLine(data, data[pos..eol.value], pos');
    }

    /** The other two branches of the chunk loop. */
    method StepChunkData(data: string, pos: nat) returns (ret: bool, consumed: Option<nat>, pos': nat)
      requires state in {ChunkData, ChunkDataEnd} && pos <= |data|
      modifies this
      ensures StepChunk(data, old(View()), pos) == if ret then Return(Outcome(View(), consumed)) else More(View(), pos')
    {
      ret, consumed, pos' := false, None, pos;
      if state == ChunkData {
        var avail := |data| - pos;
        if avail < chunkRemaining {
          chunkBody := chunkBody + data[pos..];
          chunkRemaining := chunkRemaining - avail;
          return true, Some(|data|), |data|;
        }
        chunkBody := chunkBody + data[pos..pos + chunkRemaining];
        pos' := pos + chunkRemaining;
        chunkRemaining := 0;
        state := ChunkDataEnd;
      } else {
        if pos + 2 > |data| { return true, Some(pos), pos; }
        assert data[pos..pos + 2] == [data[pos], data[pos + 1]];
        if data[pos] != '\r' || data[pos + 1] != '\n' {
          Reject(400);
          return true, None, pos;
        }
        pos' := pos + 2;
        state := ChunkSize;
      }
    }

    /** Phase 2b. */
    method ReadChunks(data: string, from: nat) returns (consumed: Option<nat>)
      requires state in {ChunkSize, ChunkData, ChunkDataEnd} && from <= |data|
      modifies this
      ensures Outcome(View(), consumed) == Chunks(data, old(View()), from)
    {
      var pos := from;
      var ret := false;
      consumed := None;
      while !ret
        invariant !ret ==> state in {ChunkSize, ChunkData, ChunkDataEnd} && pos <= |data|
        invariant !ret ==> Chunks(data, View(), pos) == Chunks(data, old(View()), from)
        invariant ret ==> Outcome(View(), consumed) == Chunks(data, old(View()), from)
        decreases if ret then 0 else 1, |data| - pos, if state == ChunkData then 1 else 0
      {
        if state == ChunkSize {
          ret, consumed, pos := StepChunkSize(data, pos);
        } else {
          ret, consumed, pos := StepChunkData(data, pos);
        }
      }
    }

    /** Phase 2. */
    method ReadBody(data: string, pos: nat, start: nat) returns (consumed: Option<nat>)
      requires start <= pos <= |data|
      modifies this
      ensures Outcome(View(), consumed) == AfterScan(data, Cursor(old(View()), pos, start))
    {
      if state == Error { return None; }
      if state == Complete { return Some(pos); }
      if state == Body {
        if |data| - start < bodyLength { return Some(start); }
        req := req.(body := data[start..start + bodyLength]);
        state := Complete;
        return Some(start + bodyLength);
      }
      if state in {ChunkSize, ChunkData, ChunkDataEnd} {
        consumed := ReadChunks(data, pos);
        return;
      }
      consumed := Some(pos);
    }

    /** `parse`. */
    method Parse(data: string) returns (consumed: Option<nat>)
      modifies this
      ensures Outcome(View(), consumed) == HttpParser.Parse(old(View()), data)
    {
      if !headersComplete && Scanning(state) {
        var end := HeaderScan.FindHeaderEnd(data, 32, 1);
        if end.None? {
          headerBytes := headerBytes + |data|;
          if headerBytes > MAX_HEADER_SIZE {
            Reject(400);
            return None;
          }
          return Some(|data|);
        }
        headerBytes := 0;
      }
      var pos, start := ScanHeaders(data);
      consumed := ReadBody(data, pos, start);
    }
  }
}
