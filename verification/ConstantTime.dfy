/** Comparing secrets without a branch on their bytes. */
module ConstantTime {
  type Byte = bv8

  /** Eight bytes as a little-endian word. */
  function Word(a: seq<Byte>, k: nat): bv64
    requires k + 8 <= |a|
  {
    Pack(a[k], a[k + 1], a[k + 2], a[k + 3], a[k + 4], a[k + 5], a[k + 6], a[k + 7])
  }

  function Pack(b0: Byte, b1: Byte, b2: Byte, b3: Byte, b4: Byte, b5: Byte, b6: Byte, b7: Byte): bv64 {
    (b0 as bv64) | ((b1 as bv64) << 8) | ((b2 as bv64) << 16) | ((b3 as bv64) << 24)
    | ((b4 as bv64) << 32) | ((b5 as bv64) << 40) | ((b6 as bv64) << 48) | ((b7 as bv64) << 56)
  }

  /** The shifts that gather all set bits in the low byte. */
  function Fold(v: bv64): Byte {
    var v1 := v | (v >> 32);
    var v2 := v1 | (v1 >> 16);
    var v3 := v2 | (v2 >> 8);
    (v3 & 0xFF) as Byte
  }

  lemma FoldIsZeroIff(v: bv64)
    ensures Fold(v) == 0 <==> v == 0
  {
  }

  lemma PackInjective(a: seq<Byte>, b: seq<Byte>, k: nat)
    requires k + 8 <= |a| && k + 8 <= |b|
    ensures Word(a, k) == Word(b, k) <==> a[k..k + 8] == b[k..k + 8]
  {
  }

  predicate Same(a: seq<Byte>, b: seq<Byte>, n: nat)
    requires n <= |a| && n <= |b|
  {
    forall i :: 0 <= i < n ==> a[i] == b[i]
  }

  lemma SameMore(a: seq<Byte>, b: seq<Byte>, k: nat)
    requires k + 8 <= |a| && k + 8 <= |b|
    ensures Same(a, b, k + 8) <==> Same(a, b, k) && a[k..k + 8] == b[k..k + 8]
  {
    if Same(a, b, k) && a[k..k + 8] == b[k..k + 8] {
      forall i | k <= i < k + 8 ensures a[i] == b[i] { assert a[i] == a[k..k + 8][i - k] && b[i] == b[k..k + 8][i - k]; }
    }
  }

  /** A difference once gathered stays. */
  method MixWord(acc: bv64, x: bv64, y: bv64) returns (r: bv64)
    ensures r == 0 <==> acc == 0 && x == y
  {
    r := acc | (x ^ y);
  }

  method MixByte(diff: Byte, x: Byte, y: Byte) returns (r: Byte)
    ensures r == 0 <==> diff == 0 && x == y
  {
    r := diff | (x ^ y);
  }

  method FoldWord(v: bv64) returns (r: Byte)
    ensures r == 0 <==> v == 0
  {
    FoldIsZeroIff(v);
    r := Fold(v);
  }

  /** The block loop, eight bytes of a block at a time: the gathered word is zero exactly if the blocks agree. */
  method GatherBlocks(a: seq<Byte>, b: seq<Byte>, n: nat, width: nat) returns (i: nat, fold: bv64)
    requires n <= |a| && n <= |b| && width > 0
    ensures i <= n && (fold == 0 <==> Same(a, b, i)) && i + 8 * width > n
  {
    i, fold := 0, 0;
    while i + 8 * width <= n
      invariant i <= n && (fold == 0 <==> Same(a, b, i))
    {
      var start := i;
      for j := 0 to width
        invariant i == start + 8 * j && start + 8 * width <= n && (fold == 0 <==> Same(a, b, i))
      {
        PackInjective(a, b, i);
        SameMore(a, b, i);
        fold := MixWord(fold, Word(a, i), Word(b, i));
        i := i + 8;
      }
    }
  }

  /** The number that bytes stand for, the least first. */
  function Value(s: seq<Byte>): nat {
    if s == [] then 0 else s[0] as int + 256 * Value(s[1..])
  }

  lemma ByteIsNumber(x: Byte, y: Byte)
    requires x as int == y as int
    ensures x == y
  {
  }

  /** Numbers are equal exactly if their bytes are. */
  lemma {:induction false} ValueInjective(s: seq<Byte>, t: seq<Byte>)
    requires |s| == |t| && Value(s) == Value(t)
    ensures s == t
  {
    if s != [] {
      var x, y := s[0] as int, t[0] as int;
      Lowest(x, y, Value(s[1..]), Value(t[1..]));
      ByteIsNumber(s[0], t[0]);
      ValueInjective(s[1..], t[1..]);
      assert s == [s[0]] + s[1..] && t == [t[0]] + t[1..];
    }
  }

  lemma Lowest(x: int, y: int, p: int, q: int)
    requires 0 <= x < 256 && 0 <= y < 256 && x + 256 * p == y + 256 * q
    ensures x == y && p == q
  {
  }

  /** `constant_time_equal`: true exactly for equal strings, whatever the width of the blocks (two words for SSE2, four
      for AVX2). `la` and `lb` are the bytes of the two length words. */
  method ConstantTimeEqual(a: seq<Byte>, b: seq<Byte>, la: seq<Byte>, lb: seq<Byte>, width: nat) returns (equal: bool)
    requires |la| == |lb| == 8 && Value(la) == |a| && Value(lb) == |b| && width > 0
    ensures equal <==> a == b
  {
    var sizes := MixWord(0, Word(la, 0), Word(lb, 0));
    SizesEqual(a, b, la, lb);
    var diff := FoldWord(sizes);
    var n := if |a| < |b| then |a| else |b|;
    var i, fold := GatherBlocks(a, b, n, width);
    var blocks := FoldWord(fold);
    diff := MixByte(diff, blocks, 0);
    while i < n
      invariant i <= n && (diff == 0 <==> |a| == |b| && Same(a, b, i))
    {
      diff := MixByte(diff, a[i], b[i]);
      i := i + 1;
    }
    equal := diff == 0;
  }

  lemma SizesEqual(a: seq<Byte>, b: seq<Byte>, la: seq<Byte>, lb: seq<Byte>)
    requires |la| == |lb| == 8 && Value(la) == |a| && Value(lb) == |b|
    ensures Word(la, 0) == Word(lb, 0) <==> |a| == |b|
  {
    PackInjective(la, lb, 0);
    assert la[0..8] == la && lb[0..8] == lb;
    if |a| == |b| { ValueInjective(la, lb); }
  }
}
