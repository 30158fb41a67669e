/** Searching in strings; the bytes of the wire are modelled as characters. */
module Text {

  datatype Option<+T> = None | Some(value: T)

  const CRLF := "\r\n"
  const CRLFCRLF := "\r\n\r\n"

  predicate Matches(s: string, p: string, k: nat) {
    k + |p| <= |s| && s[k..k + |p|] == p
  }

  /** The least offset, from `from` on, at which `p` occurs in `s`. */
  function IndexOf(s: string, p: string, from: nat): (r: Option<nat>)
    ensures r.Some? ==> from <= r.value && Matches(s, p, r.value)
    ensures forall k: nat {:trigger Matches(s, p, k)} :: from <= k && (r.Some? ==> k < r.value) ==> !Matches(s, p, k)
    decreases |s| - from
  {
    if from + |p| > |s| then None
    else if Matches(s, p, from) then Some(from)
    else IndexOf(s, p, from + 1)
  }

  /** An occurrence that has been found stays the first one when bytes are appended. */
  lemma IndexOfExtend(s: string, p: string, from: nat, ext: string)
    requires IndexOf(s, p, from).Some?
    ensures IndexOf(s + ext, p, from) == IndexOf(s, p, from)
    decreases |s| - from
  {
    assert Matches(s + ext, p, from) == Matches(s, p, from) by {
      if from + |p| <= |s| { assert (s + ext)[from..from + |p|] == s[from..from + |p|]; }
    }
    if !Matches(s, p, from) { IndexOfExtend(s, p, from + 1, ext); }
  }

  /** The least match is what `IndexOf` returns. */
  lemma IndexOfIs(s: string, p: string, from: nat, at: nat)
    requires from <= at && Matches(s, p, at)
    requires forall k: nat :: from <= k < at ==> !Matches(s, p, k)
    ensures IndexOf(s, p, from) == Some(at)
  {
    assert IndexOf(s, p, from).Some? by { assert Matches(s, p, at); }
    assert IndexOf(s, p, from).value <= at;
  }

  function Concat(parts: seq<string>): string {
    if parts == [] then "" else parts[0] + Concat(parts[1..])
  }

  lemma SliceBehind(z: string, n: nat, y: string, i: nat, j: nat)
    requires n <= |z| && z[n..] == y && i <= j <= |y|
    ensures z[n + i..n + j] == y[i..j]
  {
    forall k | 0 <= k < j - i ensures z[n + i..n + j][k] == y[i..j][k] { assert z[n..][i + k] == z[n + i + k]; }
  }

  /** What has a character that the text has not is not in it. */
  lemma NotContained(s: string, p: string, i: nat)
    requires i < |p| && p[i] !in s
    ensures IndexOf(s, p, 0).None?
  {
    forall k: nat ensures !Matches(s, p, k) {
      if k + |p| <= |s| { assert s[k..k + |p|][i] == s[k + i]; }
    }
  }

  lemma Assoc<T>(a: seq<T>, b: seq<T>, c: seq<T>)
    ensures a + (b + c) == a + b + c
  {}

  lemma AppendSame<T>(a: seq<T>, x: T, b: seq<T>, y: T)
    requires |a| == |b|
    ensures a + [x] == b + [y] <==> a == b && x == y
  {
    if a + [x] == b + [y] {
      assert (a + [x])[..|a|] == a && (b + [y])[..|b|] == b;
      assert (a + [x])[|a|] == x && (b + [y])[|b|] == y;
    }
  }

  /** Some proofs unfold a loop one iteration at a time: a fact under `Unfold` is used only where the key is turned. */
  predicate Unfold(key: bool) { key }

  predicate NoDup(s: seq<nat>) {
    forall i, j :: 0 <= i < j < |s| ==> s[i] != s[j]
  }
}
