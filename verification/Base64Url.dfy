/** Base64url without padding (section 5 of RFC 4648): the block encoder, the scalar encoder, and decoding. */
module Base64Url {

  /** `n` consecutive characters. */
  function Span(first: char, n: nat): string
    requires first as int + n <= 128
  {
    seq(n, i requires 0 <= i < n => (first as int + i) as char)
  }

  /** Upper case, lower case, digits, and the two signs of the URL-safe alphabet. */
  const TABLE := Span('A', 26) + Span('a', 26) + Span('0', 10) + "-_"

  type Byte = x: nat | x < 256

  /** An alphabet of 64 signs; the encoders are given the one above. */
  type Alphabet = t: string | |t| == 64 witness TABLE

  /** Three bytes as 24 bits. */
  function Pack(b0: nat, b1: nat, b2: nat): nat { b0 * 0x10000 + b1 * 0x100 + b2 }

  /** The four sextets of 24 bits: shifting and masking are division and remainder. */
  function First(b: nat): (x: nat)
    ensures x < 64
  {
    b / 0x40000 % 64
  }

  function Second(b: nat): (x: nat)
    ensures x < 64
  {
    b / 0x1000 % 64
  }

  function Third(b: nat): (x: nat)
    ensures x < 64
  {
    b / 0x40 % 64
  }

  function Fourth(b: nat): (x: nat)
    ensures x < 64
  {
    b % 64
  }

  /** The bytes from `i` on, at most three, as 24 bits. */
  function Bits(data: seq<Byte>, i: nat): nat
    requires i < |data|
  {
    Pack(data[i], if i + 1 < |data| then data[i + 1] else 0, if i + 2 < |data| then data[i + 2] else 0)
  }

  /** The signs of one, two or three bytes. */
  function Signs(table: Alphabet, b: nat, bytes: nat): string {
    [table[First(b)], table[Second(b)]]
    + (if bytes > 1 then [table[Third(b)]] else [])
    + (if bytes > 2 then [table[Fourth(b)]] else [])
  }

  function Group(table: Alphabet, data: seq<Byte>, i: nat): string
    requires i < |data|
  {
    Signs(table, Bits(data, i), |data| - i)
  }

  function EncodeFrom(table: Alphabet, data: seq<Byte>, i: nat): string
    decreases |data| - i
  {
    if i >= |data| then "" else Group(table, data, i) + EncodeFrom(table, data, i + 3)
  }

  method CollectBits(data: seq<Byte>, i: nat) returns (b: nat)
    requires i < |data|
    ensures b == Bits(data, i)
  {
    b := data[i] as int * 0x10000;
    if i + 1 < |data| { b := b + data[i + 1] as int * 0x100; }
    if i + 2 < |data| { b := b + data[i + 2]; }
  }

  /** One turn of the scalar loop. */
  method EncodeGroup(table: Alphabet, data: seq<Byte>, i: nat) returns (signs: string)
    requires i < |data|
    ensures signs == Group(table, data, i)
  {
    var b := CollectBits(data, i);
    signs := [table[First(b)], table[Second(b)]];
    if i + 1 < |data| { signs := signs + [table[Third(b)]]; }
    if i + 2 < |data| { signs := signs + [table[Fourth(b)]]; }
  }

  lemma Shift(out: string, signs: string, rest: string)
    ensures out + (signs + rest) == out + signs + rest
  {}

  /** The scalar loop, from where the blocks end. */
  method EncodeTail(table: Alphabet, data: seq<Byte>, from: nat, done: string) returns (out: string)
    ensures out == done + EncodeFrom(table, data, from)
  {
    out := done;
    var i := from;
    while i < |data|
      invariant out + EncodeFrom(table, data, i) == done + EncodeFrom(table, data, from)
      decreases |data| - i
    {
      var signs := EncodeGroup(table, data, i);
      Shift(out, signs, EncodeFrom(table, data, i + 3));
      out := out + signs;
      i := i + 3;
    }
  }

  method EncodeScalar(data: seq<Byte>) returns (out: string)
    ensures out == EncodeFrom(TABLE, data, 0)
  {
    out := EncodeTail(TABLE, data, 0, "");
  }

  // ---------- Blocks of twelve bytes ----------

  /** The four sextets of three bytes, picked out byte by byte. */
  function Sextets(b0: Byte, b1: Byte, b2: Byte): (s: seq<nat>)
    ensures |s| == 4 && s[0] < 64 && s[1] < 64 && s[2] < 64 && s[3] < 64
  {
    [b0 / 4, (b0 % 4) * 16 + b1 / 16, (b1 % 16) * 4 + b2 / 64, b2 % 64]
  }

  /** A sixteen-entry lookup in one quarter of the table, masked to nothing outside it. */
  function Lookup(table: Alphabet, start: nat, x: nat): nat
    requires start <= 48 && x < 64
  {
    if start <= x <= start + 15 then table[start + (x + 256 - start) % 256 % 16] as nat else 0
  }

  /** The four results combined. */
  function QuarterSign(table: Alphabet, x: nat): nat
    requires x < 64
  {
    Lookup(table, 0, x) + Lookup(table, 16, x) + Lookup(table, 32, x) + Lookup(table, 48, x)
  }

  lemma LookupIs(table: Alphabet, start: nat, x: nat)
    requires start <= 48 && x < 64
    ensures Lookup(table, start, x) == if start <= x <= start + 15 then table[x] as nat else 0
  {
  }

  /** Exactly one of the four lookups answers, and it answers like the whole table. */
  lemma QuartersAgree(table: Alphabet, x: nat)
    requires x < 64
    ensures QuarterSign(table, x) == table[x] as nat
  {
    LookupIs(table, 0, x);
    LookupIs(table, 16, x);
    LookupIs(table, 32, x);
    LookupIs(table, 48, x);
  }

  lemma Split(b: Byte, unit: nat) returns (q: nat, r: nat)
    requires unit == 4 || unit == 16 || unit == 64
    ensures b == q * unit + r && r < unit && q == b / unit && r == b % unit
  {
    q, r := b / unit, b % unit;
  }

  lemma Pick0(b0: Byte, b1: Byte, b2: Byte)
    ensures First(Pack(b0, b1, b2)) == b0 / 4
  {
    var q, r := Split(b0, 4);
    FirstSextet(q, r, b1, b2);
  }

  lemma Pick1(b0: Byte, b1: Byte, b2: Byte)
    ensures Second(Pack(b0, b1, b2)) == (b0 % 4) * 16 + b1 / 16
  {
    var q, r := Split(b0, 4);
    var q1, r1 := Split(b1, 16);
    SecondSextet(q, r, q1, r1, b2);
  }

  lemma Pick2(b0: Byte, b1: Byte, b2: Byte)
    ensures Third(Pack(b0, b1, b2)) == (b1 % 16) * 4 + b2 / 64
  {
    var q1, r1 := Split(b1, 16);
    var q2, r2 := Split(b2, 64);
    ThirdSextet(b0, q1, r1, q2, r2);
  }

  lemma Pick3(b0: Byte, b1: Byte, b2: Byte)
    ensures Fourth(Pack(b0, b1, b2)) == b2 % 64
  {
    var q2, r2 := Split(b2, 64);
    FourthSextet(b0, b1, q2, r2);
  }

  /** Picking sextets byte by byte is shifting the 24 bits. */
  lemma ShiftsPick(table: Alphabet, b0: Byte, b1: Byte, b2: Byte, b: nat, s: seq<nat>)
    requires b == Pack(b0, b1, b2) && s == Sextets(b0, b1, b2)
    ensures Signs(table, b, 1) == [table[s[0]], table[s[1]]]
    ensures Signs(table, b, 2) == [table[s[0]], table[s[1]], table[s[2]]]
    ensures forall n :: n > 2 ==> Signs(table, b, n) == [table[s[0]], table[s[1]], table[s[2]], table[s[3]]]
  {
    Pick0(b0, b1, b2);
    Pick1(b0, b1, b2);
    Pick2(b0, b1, b2);
    Pick3(b0, b1, b2);
  }

  lemma FirstSextet(q: nat, r: nat, b1: Byte, b2: Byte)
    requires q < 64 && r < 4
    ensures First(Pack(q * 4 + r, b1, b2)) == q
  {}

  lemma SecondSextet(q: nat, r: nat, q1: nat, r1: nat, b2: Byte)
    requires q < 64 && r < 4 && q1 < 16 && r1 < 16
    ensures Second(Pack(q * 4 + r, q1 * 16 + r1, b2)) == r * 16 + q1
  {
    var b := Pack(q * 4 + r, q1 * 16 + r1, b2);
    assert b / 0x1000 == q * 64 + (r * 16 + q1);
  }

  lemma ThirdSextet(b0: Byte, q1: nat, r1: nat, q2: nat, r2: nat)
    requires q1 < 16 && r1 < 16 && q2 < 4 && r2 < 64
    ensures Third(Pack(b0, q1 * 16 + r1, q2 * 64 + r2)) == r1 * 4 + q2
  {
    var b := Pack(b0, q1 * 16 + r1, q2 * 64 + r2);
    assert b / 0x40 == (b0 * 16 + q1) * 64 + (r1 * 4 + q2);
  }

  lemma FourthSextet(b0: Byte, b1: Byte, q2: nat, r2: nat)
    requires q2 < 4 && r2 < 64
    ensures Fourth(Pack(b0, b1, q2 * 64 + r2)) == r2
  {
    assert Pack(b0, b1, q2 * 64 + r2) == (b0 * 1024 + b1 * 4 + q2) * 64 + r2;
  }

  /** Three bytes of a block: four indices, then four lookups. */
  method EncodeTriple(table: Alphabet, data: seq<Byte>, at: nat) returns (signs: string)
    requires at + 3 <= |data|
    ensures signs == Group(table, data, at)
  {
    var idx := Sextets(data[at], data[at + 1], data[at + 2]);
    ShiftsPick(table, data[at], data[at + 1], data[at + 2], Bits(data, at), idx);
    QuartersAgree(table, idx[0]);
    QuartersAgree(table, idx[1]);
    QuartersAgree(table, idx[2]);
    QuartersAgree(table, idx[3]);
    signs := [QuarterSign(table, idx[0]) as char, QuarterSign(table, idx[1]) as char,
              QuarterSign(table, idx[2]) as char, QuarterSign(table, idx[3]) as char];
  }

  method Extend(table: Alphabet, data: seq<Byte>, at: nat, out: string) returns (out': string, at': nat)
    requires at + 3 <= |data|
    ensures at' == at + 3 && out' + EncodeFrom(table, data, at') == out + EncodeFrom(table, data, at)
  {
    var signs := EncodeTriple(table, data, at);
    Shift(out, signs, EncodeFrom(table, data, at + 3));
    out', at' := out + signs, at + 3;
  }

  /** One block of four triples. */
  method EncodeBlock(table: Alphabet, data: seq<Byte>, i: nat) returns (out: string)
    requires i + 12 <= |data|
    ensures out + EncodeFrom(table, data, i + 12) == EncodeFrom(table, data, i)
  {
    out := "";
    var at := i;
    for g := 0 to 4
      invariant at == i + g * 3 && out + EncodeFrom(table, data, at) == EncodeFrom(table, data, i)
    {
      out, at := Extend(table, data, at, out);
    }
  }

  /** Blocks while they last, then the scalar tail: the same text as the scalar encoder's, for every length. */
  method EncodeBlocks(data: seq<Byte>) returns (out: string)
    ensures out == EncodeFrom(TABLE, data, 0)
  {
    var table: Alphabet := TABLE;
    out := EncodeWith(table, data);
  }

  method EncodeWith(table: Alphabet, data: seq<Byte>) returns (out: string)
    ensures out == EncodeFrom(table, data, 0)
  {
    out := "";
    var i := 0;
    while i + 12 <= |data|
      invariant out + EncodeFrom(table, data, i) == EncodeFrom(table, data, 0)
      decreases |data| - i
    {
      var block := EncodeBlock(table, data, i);
      Shift(out, block, EncodeFrom(table, data, i + 12));
      out := out + block;
      i := i + 12;
    }
    out := EncodeTail(table, data, i, out);
  }

  // ---------- Length and inverse ----------

  /** Exactly four thirds, rounded up: the space that is reserved. */
  lemma {:induction false} EncodedLength(table: Alphabet, data: seq<Byte>, i: nat)
    requires i <= |data|
    ensures |EncodeFrom(table, data, i)| == ((|data| - i) * 4 + 2) / 3
    decreases |data| - i
  {
    if i + 3 <= |data| { EncodedLength(table, data, i + 3); }
  }

  function IndexIn(table: Alphabet, c: char, k: nat): (j: nat)
    requires k <= 64
    ensures j <= 64
    decreases 64 - k
  {
    if k == 64 || table[k] == c then k else IndexIn(table, c, k + 1)
  }

  /** The sextet of a sign; a character outside the alphabet counts as zero. */
  function Unsign(table: Alphabet, c: char): (x: nat)
    ensures x < 64
  {
    var k := IndexIn(table, c, 0);
    if k < 64 then k else 0
  }

  predicate Distinct(table: Alphabet) { forall i, j :: 0 <= i < j < 64 ==> table[i] != table[j] }

  lemma {:induction false} IndexInIs(table: Alphabet, x: nat, k: nat)
    requires Distinct(table) && k <= x < 64
    ensures IndexIn(table, table[x], k) == x
    decreases x - k
  {
    if k < x { IndexInIs(table, x, k + 1); }
  }

  lemma UnsignSign(table: Alphabet, x: nat)
    requires Distinct(table) && x < 64
    ensures Unsign(table, table[x]) == x
  {
    IndexInIs(table, x, 0);
  }

  /** Sextets back to bytes. */
  function Unpick(x: nat, y: nat, z: nat, u: nat): (b: seq<Byte>)
    requires x < 64 && y < 64 && z < 64 && u < 64
    ensures |b| == 3
  {
    [x * 4 + y / 16, (y % 16) * 16 + z / 4, (z % 4) * 64 + u]
  }

  lemma UnpickSextets(b0: Byte, b1: Byte, b2: Byte, z: nat, u: nat)
    requires z < 64 && u < 64
    ensures var s := Sextets(b0, b1, b2);
            && Unpick(s[0], s[1], z, u)[0] == b0
            && Unpick(s[0], s[1], s[2], u)[1] == b1
            && Unpick(s[0], s[1], s[2], s[3])[2] == b2
  {
  }

  /** Two to four signs back to one to three bytes. */
  function Ungroup(table: Alphabet, s: string): seq<Byte>
    requires 2 <= |s| <= 4
  {
    var z := if |s| > 2 then Unsign(table, s[2]) else 0;
    var u := if |s| > 3 then Unsign(table, s[3]) else 0;
    Unpick(Unsign(table, s[0]), Unsign(table, s[1]), z, u)[..|s| - 1]
  }

  function Decode(table: Alphabet, s: string): seq<Byte> {
    if |s| < 2 then [] else if |s| <= 4 then Ungroup(table, s) else Ungroup(table, s[..4]) + Decode(table, s[4..])
  }

  /** A group of `n` bytes, `bytes`, from the 24 bits `b`. */
  lemma UngroupSigns(table: Alphabet, b0: Byte, b1: Byte, b2: Byte, n: nat)
    requires Distinct(table) && 1 <= n
    ensures var g := Signs(table, Pack(b0, b1, b2), n);
            |g| == (if n < 3 then n + 1 else 4) && Ungroup(table, g) == [b0, b1, b2][..|g| - 1]
  {
    var s := Sextets(b0, b1, b2);
    ShiftsPick(table, b0, b1, b2, Pack(b0, b1, b2), s);
    UnsignSign(table, s[0]);
    UnsignSign(table, s[1]);
    UnsignSign(table, s[2]);
    UnsignSign(table, s[3]);
    UnpickAll(b0, b1, b2, s);
  }

  lemma UnpickAll(b0: Byte, b1: Byte, b2: Byte, s: seq<nat>)
    requires s == Sextets(b0, b1, b2)
    ensures Unpick(s[0], s[1], 0, 0)[..1] == [b0]
    ensures Unpick(s[0], s[1], s[2], 0)[..2] == [b0, b1]
    ensures Unpick(s[0], s[1], s[2], s[3])[..3] == [b0, b1, b2]
  {
    UnpickSextets(b0, b1, b2, 0, 0);
    UnpickSextets(b0, b1, b2, s[2], 0);
    UnpickSextets(b0, b1, b2, s[2], s[3]);
  }

  lemma UngroupGroup(table: Alphabet, data: seq<Byte>, i: nat, g: string)
    requires Distinct(table) && i < |data| && g == Group(table, data, i)
    ensures |g| == (if i + 3 <= |data| then 4 else |data| - i + 1)
    ensures Ungroup(table, g) == if i + 3 <= |data| then data[i..i + 3] else data[i..]
  {
    var b1 := if i + 1 < |data| then data[i + 1] else 0;
    var b2 := if i + 2 < |data| then data[i + 2] else 0;
    UngroupSigns(table, data[i], b1, b2, |data| - i);
  }

  lemma DecodeFirst(table: Alphabet, data: seq<Byte>, i: nat, g: string, rest: string)
    requires i + 3 < |data| && |g| == 4 && rest != "" && Ungroup(table, g) == data[i..i + 3] && Decode(table, rest) == data[i + 3..]
    ensures Decode(table, g + rest) == data[i..]
  {
    DecodeMore(table, g, rest);
    assert data[i..] == data[i..i + 3] + data[i + 3..];
  }

  lemma EncodeSplits(table: Alphabet, data: seq<Byte>, i: nat, g: string, rest: string)
    requires i < |data| && g == Group(table, data, i) && rest == EncodeFrom(table, data, i + 3)
    ensures EncodeFrom(table, data, i) == g + rest && (i + 3 < |data| ==> rest != "") && (i + 3 >= |data| ==> g + rest == g)
  {
    if i + 3 < |data| { EncodedLength(table, data, i + 3); } else { assert g + "" == g; }
  }

  /** Decoding undoes encoding, for every sequence of bytes; so no two encode alike. */
  lemma {:induction false} DecodeEncode(table: Alphabet, data: seq<Byte>, i: nat)
    requires Distinct(table) && i <= |data|
    ensures Decode(table, EncodeFrom(table, data, i)) == data[i..]
    decreases |data| - i
  {
    if i < |data| {
      var g, rest := Group(table, data, i), EncodeFrom(table, data, i + 3);
      EncodeSplits(table, data, i, g, rest);
      UngroupGroup(table, data, i, g);
      if i + 3 < |data| {
        DecodeEncode(table, data, i + 3);
        DecodeFirst(table, data, i, g, rest);
      }
    }
  }

  lemma DecodeMore(table: Alphabet, g: string, rest: string)
    requires |g| == 4 && rest != ""
    ensures Decode(table, g + rest) == Ungroup(table, g) + Decode(table, rest)
  {
    assert (g + rest)[..4] == g && (g + rest)[4..] == rest;
  }

  /** Where a sign stands in the alphabet, told from its character code. */
  function Place(c: char): int {
    if 'A' <= c <= 'Z' then c as int - 'A' as int
    else if 'a' <= c <= 'z' then c as int - 'a' as int + 26
    else if '0' <= c <= '9' then c as int - '0' as int + 52
    else if c == '-' then 62
    else 63
  }

  lemma PlaceOf(i: nat)
    requires i < 64
    ensures Place(TABLE[i]) == i
  {
    assert 26 <= i < 52 ==> TABLE[i] == Span('a', 26)[i - 26];
    assert 52 <= i < 62 ==> TABLE[i] == Span('0', 10)[i - 52];
  }

  lemma TableDistinct()
    ensures Distinct(TABLE)
  {
    forall i, j | 0 <= i < j < 64 ensures TABLE[i] != TABLE[j] {
      PlaceOf(i);
      PlaceOf(j);
    }
  }

  lemma Injective(a: seq<Byte>, b: seq<Byte>)
    requires EncodeFrom(TABLE, a, 0) == EncodeFrom(TABLE, b, 0)
    ensures a == b
  {
    TableDistinct();
    DecodeEncode(TABLE, a, 0);
    DecodeEncode(TABLE, b, 0);
  }
}
