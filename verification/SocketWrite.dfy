/** Writing to a socket that takes part of what it is offered. */
module SocketWrite {
  import opened Text

  /** The answer to one `write` or `writev`: bytes taken, a signal, a full buffer (and whether it drained
      within the wait), or an error. */
  datatype Sys = Sent(n: nat) | Interrupted | Full(drained: bool) | Failed

  /** `write_all` and `writev_response` retry after a signal and wait a while for a full buffer; the
      coroutine's `WriteAll` gives up on a signal and waits for a full buffer as long as it takes. */
  datatype Policy = Blocking | Awaiting

  predicate Stops(policy: Policy, call: Sys) {
    match call
    case Sent(n) => n == 0
    case Interrupted => policy.Awaiting?
    case Full(drained) => policy.Blocking? && !drained
    case Failed => true
  }

  /** The answers after which the loop goes on: some bytes taken; then, for the blocking writers, a signal or a full buffer
      that drained, and for the coroutine a full buffer. */
  predicate GoesOn(policy: Policy, call: Sys) {
    || (call.Sent? && call.n > 0)
    || (policy == Blocking && (call == Interrupted || call == Full(true)))
    || (policy == Awaiting && call.Full?)
  }

  lemma StopsIff(policy: Policy, call: Sys)
    ensures Stops(policy, call) <==> !GoesOn(policy, call)
  {
  }

  function Min(a: nat, b: nat): nat { if a < b then a else b }

  function Taken(call: Sys, left: nat): nat { if call.Sent? then Min(call.n, left) else 0 }

  /** How many of `left` bytes reach the wire. */
  function Flow(policy: Policy, left: nat, calls: seq<Sys>): (n: nat)
    ensures n <= left
    decreases |calls|
  {
    if left == 0 || calls == [] || Stops(policy, calls[0]) then 0
    else
      var m := Taken(calls[0], left);
      m + Flow(policy, left - m, calls[1..])
  }

  /** Of `total` bytes, `sent` are out and the calls from `i` on carry the count to `all`. */
  predicate OnCourse(policy: Policy, total: nat, sent: nat, calls: seq<Sys>, i: nat, all: nat) {
    sent <= total && i <= |calls| && sent + Flow(policy, total - sent, calls[i..]) == all
  }

  lemma FlowStep(policy: Policy, total: nat, sent: nat, calls: seq<Sys>, i: nat, all: nat)
    requires OnCourse(policy, total, sent, calls, i, all) && i < |calls| && sent < total && !Stops(policy, calls[i])
    ensures OnCourse(policy, total, sent + Taken(calls[i], total - sent), calls, i + 1, all)
  {
    assert calls[i..][1..] == calls[i + 1..];
  }

  function Offered(calls: seq<Sys>): nat {
    if calls == [] then 0 else (if calls[0].Sent? then calls[0].n else 0) + Offered(calls[1..])
  }

  /** The first `k` calls go through and make room for `left` bytes. */
  predicate Suffices(policy: Policy, left: nat, calls: seq<Sys>, k: nat)
    requires k <= |calls|
  {
    Offered(calls[..k]) >= left && forall i :: 0 <= i < k ==> !Stops(policy, calls[i])
  }

  /** The first answer after which the loop does not go on ends it: what came before decides. */
  lemma {:induction false} EndsAtFirst(policy: Policy, left: nat, calls: seq<Sys>, k: nat)
    requires k < |calls| && !GoesOn(policy, calls[k]) && forall i :: 0 <= i < k ==> GoesOn(policy, calls[i])
    ensures Flow(policy, left, calls) == Min(left, Offered(calls[..k]))
    decreases k
  {
    StopsIff(policy, calls[0]);
    if k > 0 {
      var m := Taken(calls[0], left);
      assert calls[..k][1..] == calls[1..][..k - 1];
      EndsAtFirst(policy, left - m, calls[1..], k - 1);
    }
  }

  /** Without such an answer, what is offered decides. */
  lemma {:induction false} OfferDecides(policy: Policy, left: nat, calls: seq<Sys>)
    requires forall i :: 0 <= i < |calls| ==> GoesOn(policy, calls[i])
    ensures Flow(policy, left, calls) == Min(left, Offered(calls))
    decreases |calls|
  {
    if calls != [] {
      StopsIff(policy, calls[0]);
      OfferDecides(policy, left - Taken(calls[0], left), calls[1..]);
    }
  }

  /** Everything is sent exactly when enough room is offered before the first call that stops the loop. */
  lemma {:induction false} AllSentIff(policy: Policy, left: nat, calls: seq<Sys>)
    ensures Flow(policy, left, calls) == left <==> exists k :: 0 <= k <= |calls| && Suffices(policy, left, calls, k)
    decreases |calls|
  {
    if left == 0 {
      assert Suffices(policy, left, calls, 0);
    } else if calls != [] {
      var m, rest := Taken(calls[0], left), calls[1..];
      AllSentIff(policy, left - m, rest);
      forall k | 1 <= k <= |calls| ensures Offered(calls[..k]) >= left <==> Offered(rest[..k - 1]) >= left - m {
        assert calls[..k][1..] == rest[..k - 1];
      }
      forall k | 1 <= k <= |calls| && !Stops(policy, calls[0])
        ensures Suffices(policy, left, calls, k) <==> Suffices(policy, left - m, rest, k - 1)
      {
        assert forall i :: 1 <= i < k ==> calls[i] == rest[i - 1];
        assert forall i :: 0 <= i < k - 1 ==> rest[i] == calls[i + 1];
      }
      if !Stops(policy, calls[0]) && Flow(policy, left - m, rest) == left - m {
        var k :| 0 <= k <= |rest| && Suffices(policy, left - m, rest, k);
        assert Suffices(policy, left, calls, k + 1);
      }
    }
  }

  /** The bytes on the wire for a loop over `calls` that writes `data`. */
  function Delivered(policy: Policy, data: string, calls: seq<Sys>): string {
    data[..Flow(policy, |data|, calls)]
  }

  /** `write_all`, and the loop of the coroutine's `WriteAll`. */
  method WriteAll(policy: Policy, data: string, calls: seq<Sys>) returns (wire: string)
    ensures wire == Delivered(policy, data, calls)
  {
    wire := "";
    var off, i := 0, 0;
    ghost var all := Flow(policy, |data|, calls);
    assert calls[0..] == calls;
    while off < |data| && i < |calls|
      invariant 0 <= off <= |data| && i <= |calls| && wire == data[..off]
      invariant OnCourse(policy, |data|, off, calls, i, all)
      decreases |calls| - i
    {
      var call := calls[i];
      if Stops(policy, call) {
        break;
      }
      var n := Taken(call, |data| - off);
      FlowStep(policy, |data|, off, calls, i, all);
      wire := wire + data[off..off + n];
      off := off + n;
      i := i + 1;
    }
  }

  /** Moves the first `n` bytes off the front of the vector. */
  method Advance(iov: array<string>, from: nat, n: nat) returns (idx: nat)
    requires from <= iov.Length && n <= |Concat(iov[from..])|
    modifies iov
    ensures from <= idx <= iov.Length && Concat(iov[idx..]) == old(Concat(iov[from..]))[n..]
  {
    idx := from;
    var remaining := n;
    while idx < iov.Length && remaining > 0
      invariant from <= idx <= iov.Length && 0 <= remaining <= n && remaining <= |Concat(iov[idx..])|
      invariant Concat(iov[idx..])[remaining..] == old(Concat(iov[from..]))[n..]
      decreases iov.Length - idx, remaining
    {
      if |iov[idx]| <= remaining {
        remaining := Drop(iov, idx, remaining);
        idx := idx + 1;
      } else {
        Shorten(iov, idx, remaining);
        remaining := 0;
      }
    }
  }

  method Drop(iov: array<string>, idx: nat, remaining: nat) returns (left: nat)
    requires idx < iov.Length && |iov[idx]| <= remaining <= |Concat(iov[idx..])|
    modifies iov
    ensures left == remaining - |old(iov[idx])| && left <= |Concat(iov[idx + 1..])|
    ensures Concat(iov[idx + 1..])[left..] == old(Concat(iov[idx..]))[remaining..]
  {
    left := remaining - |iov[idx]|;
    iov[idx] := "";
    assert iov[idx + 1..] == old(iov[idx..])[1..];
  }

  method Shorten(iov: array<string>, idx: nat, remaining: nat)
    requires idx < iov.Length && remaining < |iov[idx]|
    modifies iov
    ensures Concat(iov[idx..]) == old(Concat(iov[idx..]))[remaining..]
  {
    iov[idx] := iov[idx][remaining..];
    assert iov[idx..][1..] == old(iov[idx..])[1..];
  }

  /** The vector: an empty body takes no entry. */
  method Vector(hdr: string, body: string) returns (iov: array<string>)
    ensures fresh(iov) && Concat(iov[..]) == hdr + body
  {
    if body == "" {
      iov := new string[][hdr];
      assert iov[..] == [hdr];
      assert Concat([hdr]) == hdr + "";
    } else {
      iov := new string[][hdr, body];
      assert iov[..] == [hdr, body];
      assert iov[..][1..] == [body] && Concat([body]) == body + "";
    }
  }

  /** The vector holds what is left of `all` behind its first `sent` bytes. */
  predicate Holds(iov: array<string>, idx: nat, all: string, sent: nat)
    reads iov
  {
    idx <= iov.Length && sent <= |all| && Concat(iov[idx..]) == all[sent..]
  }

  /** One call: the bytes the kernel took, and the vector advanced past them. */
  method Writev(iov: array<string>, from: nat, call: Sys, ghost all: string, ghost sent: nat) returns (taken: string, idx: nat)
    requires Holds(iov, from, all, sent)
    modifies iov
    ensures var n := Taken(call, |all| - sent); taken == all[sent..sent + n] && Holds(iov, idx, all, sent + n)
  {
    var rest := Concat(iov[from..]);
    var n := Taken(call, |rest|);
    taken := rest[..n];
    idx := Advance(iov, from, n);
  }

  /** `writev_response`: what reaches the wire is what one plain write of header and body would send. */
  method WritevResponse(hdr: string, body: string, calls: seq<Sys>) returns (wire: string)
    ensures wire == Delivered(Blocking, hdr + body, calls)
  {
    var total := |hdr| + |body|;
    var iov := Vector(hdr, body);
    ghost var all, count := hdr + body, Flow(Blocking, total, calls);
    assert calls[0..] == calls;
    wire := "";
    var sent, idx, i := 0, 0, 0;
    assert iov[0..] == iov[..];
    while sent < total && i < |calls|
      invariant 0 <= sent <= total && i <= |calls| && 0 <= idx && fresh(iov)
      invariant wire == all[..sent] && Holds(iov, idx, all, sent)
      invariant OnCourse(Blocking, total, sent, calls, i, count)
      decreases |calls| - i
    {
      var call := calls[i];
      if Stops(Blocking, call) {
        break;
      }
      var taken;
      taken, idx := Writev(iov, idx, call, all, sent);
      FlowStep(Blocking, total, sent, calls, i, count);
      wire := wire + taken;
      sent := sent + |taken|;
      i := i + 1;
    }
  }
}
