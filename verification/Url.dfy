/** Percent-encoding of URL components. */
module Url {
  import opened Text

  const UPPER_HEX := "0123456789ABCDEF"

  predicate IsByte(c: char) { c as int < 256 }

  predicate AreBytes(s: string) { forall i :: 0 <= i < |s| ==> IsByte(s[i]) }

  /** `std::isalnum` of the C locale, and the four marks. */
  predicate Unreserved(c: char) {
    'A' <= c <= 'Z' || 'a' <= c <= 'z' || '0' <= c <= '9' || c in "-_.~"
  }

  function HexDigit(c: char): Option<nat> {
    if '0' <= c <= '9' then Some((c - '0') as nat)
    else if 'A' <= c <= 'F' then Some((c - 'A') as nat + 10)
    else if 'a' <= c <= 'f' then Some((c - 'a') as nat + 10)
    else None
  }

  function Escape(c: char): string
    requires IsByte(c)
  {
    if Unreserved(c) then [c] else ['%', UPPER_HEX[c as int / 16], UPPER_HEX[c as int % 16]]
  }

  function Encode(raw: string): string
    requires AreBytes(raw)
  {
    if raw == "" then "" else Escape(raw[0]) + Encode(raw[1..])
  }

  /** The byte that an escape at the front stands for. */
  function Escaped(s: string): Option<char> {
    if |s| > 2 && s[0] == '%' && HexDigit(s[1]).Some? && HexDigit(s[2]).Some?
    then Some((HexDigit(s[1]).value * 16 + HexDigit(s[2]).value) as char) else None
  }

  function Decode(s: string): string {
    if s == "" then ""
    else if s[0] == '+' then " " + Decode(s[1..])
    else match Escaped(s) case Some(c) => [c] + Decode(s[3..]) case None => [s[0]] + Decode(s[1..])
  }

  lemma DigitRoundTrip(d: nat)
    requires d < 16
    ensures HexDigit(UPPER_HEX[d]) == Some(d)
  {
  }

  lemma ByteRoundTrip(c: char, rest: string)
    requires IsByte(c)
    ensures Decode(Escape(c) + rest) == [c] + Decode(rest)
  {
    var s := Escape(c) + rest;
    if Unreserved(c) {
      assert s[0] == c && s[1..] == rest;
    } else {
      DigitRoundTrip(c as int / 16);
      DigitRoundTrip(c as int % 16);
      assert s[0] == '%' && s[1] == UPPER_HEX[c as int / 16] && s[2] == UPPER_HEX[c as int % 16] && s[3..] == rest;
      assert Escaped(s) == Some(c);
    }
  }

  /** Decoding undoes encoding, for every string of bytes. */
  lemma {:induction false} DecodeEncode(raw: string)
    requires AreBytes(raw)
    ensures Decode(Encode(raw)) == raw
  {
    if raw != "" {
      ByteRoundTrip(raw[0], Encode(raw[1..]));
      DecodeEncode(raw[1..]);
    }
  }

  /** No two strings encode alike. */
  lemma EncodeInjective(a: string, b: string)
    requires AreBytes(a) && AreBytes(b) && Encode(a) == Encode(b)
    ensures a == b
  {
    DecodeEncode(a);
    DecodeEncode(b);
  }

  /** Decoding never lengthens its input: the space reserved for it is enough. */
  lemma {:induction false} DecodeShortens(s: string)
    ensures |Decode(s)| <= |s|
    decreases |s|
  {
    if s != "" {
      DecodeShortens(s[1..]);
      if Escaped(s).Some? { DecodeShortens(s[3..]); }
    }
  }

  /** The unreserved characters of section 2.3 of RFC 3986, by the codes that section B.1 of RFC 5234 gives letters and
      digits. */
  predicate IsUnreservedCode(n: int) {
    0x41 <= n <= 0x5A || 0x61 <= n <= 0x7A || 0x30 <= n <= 0x39 || n == 0x2D || n == 0x2E || n == 0x5F || n == 0x7E
  }

  lemma UnreservedIff(c: char)
    ensures Unreserved(c) <==> IsUnreservedCode(c as int)
  {
    assert "-_.~" == ['-', '_', '.', '~'];
  }

  /** A byte is left as it is exactly if it is unreserved; any other becomes a percent sign and two upper-case digits of
      its value. */
  lemma EscapeIs(c: char)
    requires IsByte(c)
    ensures if IsUnreservedCode(c as int) then Escape(c) == [c]
            else exists i: nat, j: nat :: i < 16 && j < 16 && 16 * i + j == c as int
                   && Escape(c) == ['%', "0123456789ABCDEF"[i], "0123456789ABCDEF"[j]]
  {
    UnreservedIff(c);
    var i, j := c as int / 16, c as int % 16;
    assert 16 * i + j == c as int;
    assert !Unreserved(c) ==> Escape(c) == ['%', "0123456789ABCDEF"[i], "0123456789ABCDEF"[j]];
  }

  /** A digit of either case, and nothing else. */
  lemma DigitIff(c: char, d: nat)
    ensures HexDigit(c) == Some(d) <==> d < 16 && (c == "0123456789ABCDEF"[d] || c == "0123456789abcdef"[d])
  {
  }

  /** An escape is its byte, in either case of its digits; a plus sign is a space; anything else is itself. */
  lemma DecodeFirst(s: string)
    requires s != ""
    ensures s[0] == '+' ==> Decode(s) == " " + Decode(s[1..])
    ensures forall i: nat, j: nat {:trigger HexDigits(s, i, j)} :: HexDigits(s, i, j) ==> Decode(s) == [(16 * i + j) as char] + Decode(s[3..])
    ensures s[0] != '+' && (forall i: nat, j: nat {:trigger HexDigits(s, i, j)} :: !HexDigits(s, i, j)) ==> Decode(s) == [s[0]] + Decode(s[1..])
  {
    forall i: nat, j: nat | HexDigits(s, i, j) ensures Decode(s) == [(16 * i + j) as char] + Decode(s[3..]) {
      DigitIff(s[1], i);
      DigitIff(s[2], j);
    }
    if Escaped(s).Some? {
      var i, j := HexDigit(s[1]).value, HexDigit(s[2]).value;
      DigitIff(s[1], i);
      DigitIff(s[2], j);
      assert HexDigits(s, i, j);
    }
  }

  /** A percent sign and two hexadecimal digits of these values. */
  predicate HexDigits(s: string, i: nat, j: nat) {
    && |s| > 2 && s[0] == '%' && i < 16 && j < 16
    && (s[1] == "0123456789ABCDEF"[i] || s[1] == "0123456789abcdef"[i])
    && (s[2] == "0123456789ABCDEF"[j] || s[2] == "0123456789abcdef"[j])
  }

  /** Encoding leaves unreserved characters and percent signs only, and at most triples the length. */
  lemma {:induction false} EncodedText(raw: string)
    requires AreBytes(raw)
    ensures |raw| <= |Encode(raw)| <= 3 * |raw|
    ensures forall i :: 0 <= i < |Encode(raw)| ==> Unreserved(Encode(raw)[i]) || Encode(raw)[i] == '%'
  {
    if raw != "" { EncodedText(raw[1..]); }
  }

  /** `url_encode`. */
  method UrlEncode(raw: string) returns (out: string)
    requires AreBytes(raw)
    ensures out == Encode(raw)
  {
    out := "";
    for i := 0 to |raw|
      invariant out + Encode(raw[i..]) == Encode(raw)
    {
      var c := raw[i];
      assert raw[i..][1..] == raw[i + 1..];
      Assoc(out, Escape(c), Encode(raw[i + 1..]));
      if Unreserved(c) {
        out := out + [c];
      } else {
        out := out + ['%', UPPER_HEX[c as int / 16], UPPER_HEX[c as int % 16]];
      }
    }
    assert out + "" == out;
  }

  /** What stands at `i`, and where the next character starts. */
  lemma DecodeAt(s: string, i: nat, piece: string, n: nat)
    requires i < n <= |s|
    requires var e := Escaped(s[i..]);
             if s[i] == '+' then piece == " " && n == i + 1
             else if e.Some? then piece == [e.value] && n == i + 3
             else piece == [s[i]] && n == i + 1
    ensures Decode(s[i..]) == piece + Decode(s[n..])
  {
    assert s[i..][n - i..] == s[n..];
  }

  /** `url_decode`. */
  method UrlDecode(encoded: string) returns (out: string)
    ensures out == Decode(encoded)
  {
    out := "";
    var i := 0;
    while i < |encoded|
      invariant i <= |encoded| && out + Decode(encoded[i..]) == Decode(encoded)
    {
      var c := encoded[i];
      var piece, n := [c], i + 1;
      if c == '+' {
        piece := " ";
      } else if c == '%' && i + 2 < |encoded| {
        var hi, lo := HexDigit(encoded[i + 1]), HexDigit(encoded[i + 2]);
        if hi.Some? && lo.Some? {
          piece, n := [(hi.value * 16 + lo.value) as char], i + 3;
        }
      }
      DecodeAt(encoded, i, piece, n);
      Assoc(out, piece, Decode(encoded[n..]));
      out := out + piece;
      i := n;
    }
    assert out + "" == out;
  }
}
