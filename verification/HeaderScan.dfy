/** Finding the header terminator a block at a time, from a bit mask of the carriage returns. */
module HeaderScan {
  import opened Text

  // ---------- Bit masks, least significant bit first ----------

  type Bits = seq<bool>

  /** The number of zero bits below the lowest set one; the width if the mask is zero. */
  function Ctz(m: Bits): (k: nat)
    ensures k <= |m|
    ensures k < |m| ==> m[k]
    ensures forall i :: 0 <= i < k ==> !m[i]
  {
    if m == [] || m[0] then 0 else 1 + Ctz(m[1..])
  }

  /** The unsigned number that a mask stands for. */
  function Number(m: Bits): nat {
    if m == [] then 0 else (if m[0] then 1 else 0) + 2 * Number(m[1..])
  }

  lemma {:induction false} NumberIs(m: Bits)
    ensures Number(m) == 0 <==> forall i :: 0 <= i < |m| ==> !m[i]
    ensures Number(m + [true]) > Number(m) == Number(m + [false])
  {
    if m != [] {
      NumberIs(m[1..]);
      assert (m + [true])[1..] == m[1..] + [true] && (m + [false])[1..] == m[1..] + [false];
      assert forall i :: 0 < i < |m| ==> m[i] == m[1..][i - 1];
    }
  }

  /** Subtracting one borrows through the trailing zeros. */
  function MinusOne(m: Bits): (r: Bits)
    requires Ctz(m) < |m|
    ensures |r| == |m| && Number(r) == Number(m) - 1
  {
    if m[0] then [false] + m[1..] else [true] + MinusOne(m[1..])
  }

  function And(a: Bits, b: Bits): (r: Bits)
    requires |a| == |b|
    ensures |r| == |a|
  {
    seq(|a|, i requires 0 <= i < |a| => a[i] && b[i])
  }

  /** `m & (m - 1)` clears the lowest set bit and no other. */
  lemma {:induction false} ClearsLowest(m: Bits)
    requires Ctz(m) < |m|
    ensures And(m, MinusOne(m)) == m[Ctz(m) := false]
    decreases |m|
  {
    var r := And(m, MinusOne(m));
    if m[0] {
      assert r == [false] + m[1..];
    } else {
      ClearsLowest(m[1..]);
      assert r == [false] + And(m[1..], MinusOne(m[1..]));
    }
  }

  // ---------- The scanner ----------

  /** The byte of the block that a bit stands for: `movemask` has one bit per byte, the narrowed NEON
      comparison four. */
  function Lane(bit: nat, bitsPerLane: nat): nat {
    if bitsPerLane == 4 then bit / 4 else bit
  }

  function Width(lanes: nat, bitsPerLane: nat): nat {
    if bitsPerLane == 4 then lanes * 4 else lanes
  }

  predicate LaneIsCr(data: string, at: nat, lane: nat) {
    at + lane < |data| && data[at + lane] == '\r'
  }

  function CrMask(data: string, at: nat, width: nat, bitsPerLane: nat): (m: Bits)
    requires bitsPerLane == 1 || bitsPerLane == 4
    ensures |m| == Width(width, bitsPerLane)
    ensures forall k :: 0 <= k < |m| ==> m[k] == LaneIsCr(data, at, Lane(k, bitsPerLane))
  {
    seq(Width(width, bitsPerLane), k requires 0 <= k < Width(width, bitsPerLane) => LaneIsCr(data, at, Lane(k, bitsPerLane)))
  }

  lemma Terminator(data: string, k: nat)
    ensures Matches(data, CRLFCRLF, k) <==>
      k + 3 < |data| && data[k] == '\r' && data[k + 1] == '\n' && data[k + 2] == '\r' && data[k + 3] == '\n'
  {
    if k + 4 <= |data| { assert data[k..k + 4] == [data[k], data[k + 1], data[k + 2], data[k + 3]]; }
  }

  /** The bits that are gone from the mask were candidates that failed. */
  ghost predicate Tried(data: string, at: nat, bitsPerLane: nat, all: Bits, mask: Bits) {
    && |mask| == |all|
    && (forall k :: 0 <= k < |mask| && mask[k] ==> all[k])
    && (forall k :: 0 <= k < |mask| && all[k] && !mask[k] ==> Failed(data, at, Lane(k, bitsPerLane)))
  }

  predicate Failed(data: string, at: nat, lane: nat) {
    !Matches(data, CRLFCRLF, at + lane)
  }

  lemma TriedNext(data: string, at: nat, bitsPerLane: nat, all: Bits, mask: Bits, bit: nat)
    requires Tried(data, at, bitsPerLane, all, mask) && bit < |mask| && Failed(data, at, Lane(bit, bitsPerLane))
    ensures Tried(data, at, bitsPerLane, all, mask[bit := false])
  {
    var mask' := mask[bit := false];
    forall k | 0 <= k < |mask'| && all[k] && !mask'[k] ensures Failed(data, at, Lane(k, bitsPerLane)) {
      assert k == bit || !mask[k];
    }
  }

  lemma NoneBelow(data: string, at: nat, width: nat, bitsPerLane: nat, all: Bits, mask: Bits, lanes: nat)
    requires bitsPerLane == 1 || bitsPerLane == 4
    requires lanes <= width && at + width <= |data| && all == CrMask(data, at, width, bitsPerLane)
    requires Tried(data, at, bitsPerLane, all, mask)
    requires forall k :: 0 <= k < |mask| && Lane(k, bitsPerLane) < lanes ==> !mask[k]
    ensures forall k: nat :: at <= k < at + lanes ==> !Matches(data, CRLFCRLF, k)
  {
    forall k: nat | at <= k < at + lanes ensures !Matches(data, CRLFCRLF, k) {
      BitOfLane(k - at, width, bitsPerLane);
      var bit := Width(k - at, bitsPerLane);
      Terminator(data, k);
      if data[k] == '\r' {
        assert all[bit] && !mask[bit];
        assert Failed(data, at, Lane(bit, bitsPerLane));
      }
    }
  }

  lemma BitOfLane(lane: nat, width: nat, bitsPerLane: nat)
    requires lane < width && (bitsPerLane == 1 || bitsPerLane == 4)
    ensures Width(lane, bitsPerLane) < Width(width, bitsPerLane) && Lane(Width(lane, bitsPerLane), bitsPerLane) == lane
  {
  }

  /** The candidates of one block, lowest first; a lane of four bits is tried up to four times. */
  method ScanBlock(data: string, at: nat, width: nat, bitsPerLane: nat) returns (r: Option<nat>)
    requires bitsPerLane == 1 || bitsPerLane == 4
    requires at + width <= |data|
    ensures r.Some? ==> at <= r.value < at + width && Matches(data, CRLFCRLF, r.value)
    ensures forall k: nat :: at <= k < at + width && (r.Some? ==> k < r.value) ==> !Matches(data, CRLFCRLF, k)
  {
    var all := CrMask(data, at, width, bitsPerLane);
    var mask := all;
    while Ctz(mask) < |mask|
      invariant Tried(data, at, bitsPerLane, all, mask)
      decreases |mask| - Ctz(mask)
    {
      var off := at + Lane(Ctz(mask), bitsPerLane);
      assert LaneIsCr(data, at, Lane(Ctz(mask), bitsPerLane));
      Terminator(data, off);
      if off + 3 < |data| && data[off + 1] == '\n' && data[off + 2] == '\r' && data[off + 3] == '\n' {
        NoneBelow(data, at, width, bitsPerLane, all, mask, off - at);
        return Some(off);
      }
      ClearsLowest(mask);
      TriedNext(data, at, bitsPerLane, all, mask, Ctz(mask));
      mask := And(mask, MinusOne(mask));
    }
    NoneBelow(data, at, width, bitsPerLane, all, mask, width);
    r := None;
  }

  /** `find_header_end`, for any block width: the least offset of the terminator. */
  method FindHeaderEnd(data: string, width: nat, bitsPerLane: nat) returns (r: Option<nat>)
    requires width > 0 && (bitsPerLane == 1 || bitsPerLane == 4)
    ensures r == IndexOf(data, CRLFCRLF, 0)
  {
    if |data| < 4 { return None; }
    var i := 0;
    while i + width <= |data|
      invariant 0 <= i <= |data|
      invariant forall k: nat :: k < i ==> !Matches(data, CRLFCRLF, k)
    {
      r := ScanBlock(data, i, width, bitsPerLane);
      if r.Some? {
        IndexOfIs(data, CRLFCRLF, 0, r.value);
        return;
      }
      i := i + width;
    }
    while i + 3 < |data|
      invariant 0 <= i <= |data|
      invariant forall k: nat :: k < i ==> !Matches(data, CRLFCRLF, k)
    {
      Terminator(data, i);
      if data[i] == '\r' && data[i + 1] == '\n' && data[i + 2] == '\r' && data[i + 3] == '\n' {
        IndexOfIs(data, CRLFCRLF, 0, i);
        return Some(i);
      }
      i := i + 1;
    }
    r := None;
  }
}
