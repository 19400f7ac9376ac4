/** The arithmetic both slot allocators share: one start after another, never closer than the interval. */
module RateLimiter {
  import opened Wrappers

  /** A request for a slot: when it was made and how long the next one must wait after it. */
  datatype Request = Request(now: real, interval: real)

  predicate AreRequests(requests: seq<Request>) {
    forall k :: 0 <= k < |requests| ==> requests[k].interval >= 0.0
  }

  function Start(next: Option<real>, now: real): real {
    if next.None? || next.value <= now then now else next.value
  }

  /** The earliest start left for request k, once those before it have theirs. */
  function NextStart(next: Option<real>, requests: seq<Request>, k: nat): Option<real>
    requires k <= |requests|
    decreases k, 0
  {
    if k == 0 then next else Some(StartAt(next, requests, k - 1) + requests[k - 1].interval)
  }

  function StartAt(next: Option<real>, requests: seq<Request>, k: nat): real
    requires k < |requests|
    decreases k, 1
  {
    Start(NextStart(next, requests, k), requests[k].now)
  }

  /** The intervals of the requests from j up to, but without, k. */
  function Waits(requests: seq<Request>, j: nat, k: nat): real
    requires j <= k <= |requests|
    decreases k
  {
    if k == j then 0.0 else Waits(requests, j, k - 1) + requests[k - 1].interval
  }

  // ---------------------------------------------------------------- closed form

  /**
     No start comes before any earlier request plus the waits in between, nor before the first allowed
     start plus all waits.
   */
  lemma {:induction false} StartIsNoEarlier(next: Option<real>, requests: seq<Request>, j: nat, k: nat)
    requires j <= k < |requests| && AreRequests(requests)
    ensures StartAt(next, requests, k) >= requests[j].now + Waits(requests, j, k)
    ensures next.Some? ==> StartAt(next, requests, k) >= next.value + Waits(requests, 0, k)
    decreases k
  {
    if j < k {
      StartIsNoEarlier(next, requests, j, k - 1);
    } else if k > 0 {
      StartIsNoEarlier(next, requests, 0, k - 1);
    }
  }

  predicate StartsFrom(next: Option<real>, requests: seq<Request>, k: nat, j: nat)
    requires j <= k < |requests|
  {
    StartAt(next, requests, k) == requests[j].now + Waits(requests, j, k)
  }

  /** And one of those bounds is met, so the start is their maximum. */
  lemma {:induction false} StartIsNoLater(next: Option<real>, requests: seq<Request>, k: nat)
    requires k < |requests| && AreRequests(requests)
    ensures (next.Some? && StartAt(next, requests, k) == next.value + Waits(requests, 0, k))
            || exists j :: 0 <= j <= k && StartsFrom(next, requests, k, j)
    decreases k
  {
    if StartAt(next, requests, k) == requests[k].now {
      assert StartsFrom(next, requests, k, k);
    } else if k > 0 {
      var before := k - 1;
      StartIsNoLater(next, requests, before);
      if j :| 0 <= j <= before && StartsFrom(next, requests, before, j) {
        assert StartsFrom(next, requests, k, j);
      }
    }
  }

  predicate Constant(requests: seq<Request>, d: real) {
    forall k :: 0 <= k < |requests| ==> requests[k].interval == d
  }

  lemma {:induction false} ConstantWaits(requests: seq<Request>, d: real, j: nat, k: nat)
    requires j <= k <= |requests| && Constant(requests, d)
    ensures Waits(requests, j, k) == (k - j) as real * d
    decreases k
  {
    if j < k {
      ConstantWaits(requests, d, j, k - 1);
      assert (k - j) as real == (k - 1 - j) as real + 1.0;
    }
  }

  predicate IsBound(next: Option<real>, requests: seq<Request>, d: real, k: nat, t: real)
    requires k < |requests|
  {
    || (next.Some? && t == next.value + k as real * d)
    || exists j :: 0 <= j <= k && t == requests[j].now + (k - j) as real * d
  }

  /**
     With a constant interval d, request k starts at the greatest of the first allowed start + kd and
     every now_j + (k - j)d.
   */
  lemma StartIsTheMaximum(next: Option<real>, requests: seq<Request>, d: real, k: nat)
    requires k < |requests| && d >= 0.0 && Constant(requests, d)
    ensures IsBound(next, requests, d, k, StartAt(next, requests, k))
    ensures forall t :: IsBound(next, requests, d, k, t) ==> t <= StartAt(next, requests, k)
  {
    forall j | 0 <= j <= k
      ensures Waits(requests, j, k) == (k - j) as real * d
      ensures StartAt(next, requests, k) >= requests[j].now + Waits(requests, j, k)
      ensures next.Some? ==> StartAt(next, requests, k) >= next.value + Waits(requests, 0, k)
    {
      ConstantWaits(requests, d, j, k);
      StartIsNoEarlier(next, requests, j, k);
    }
    StartIsNoLater(next, requests, k);
  }

  // ---------------------------------------------------------------- spacing and windows

  /** Two starts are apart by at least the intervals between them. */
  lemma {:induction false} StartsAreSpaced(next: Option<real>, requests: seq<Request>, j: nat, k: nat)
    requires j <= k < |requests| && AreRequests(requests)
    ensures StartAt(next, requests, k) >= StartAt(next, requests, j) + Waits(requests, j, k)
    decreases k
  {
    if j < k {
      StartsAreSpaced(next, requests, j, k - 1);
    }
  }

  function Ceil(x: real): int {
    -((-x).Floor)
  }

  lemma {:induction false} SmallSet(s: set<nat>, a: nat, b: nat)
    requires a <= b && forall k :: k in s ==> a <= k <= b
    ensures |s| <= b - a + 1
    decreases b
  {
    if a == b {
      assert s == if a in s then {a} else {};
    } else {
      SmallSet(s - {b}, a, b - 1);
      assert b in s ==> s == (s - {b}) + {b};
      assert b !in s ==> s == s - {b};
    }
  }

  lemma {:induction false} Ends(s: set<nat>) returns (a: nat, b: nat)
    requires s != {}
    ensures a in s && b in s && forall k :: k in s ==> a <= k <= b
    decreases |s|
  {
    var k :| k in s;
    if s == {k} {
      a, b := k, k;
    } else {
      assert s == (s - {k}) + {k};
      a, b := Ends(s - {k});
      a, b := if k < a then k else a, if b < k then k else b;
    }
  }

  predicate InWindow(t: real, from: real, length: real) {
    from <= t < from + length
  }

  lemma Quotient(length: real, d: real) returns (q: real)
    requires d > 0.0
    ensures q == length / d && q * d == length
  {
    q := length / d;
  }

  lemma ScaleUp(a: real, b: real, d: real)
    requires d > 0.0
    ensures a < b <==> a * d < b * d
  {
    assert a * d < b * d <==> (b - a) * d > 0.0;
  }

  /** So many whole steps of d stay below a length exactly when one more fits under its ceiling. */
  lemma StepsBelow(steps: nat, d: real, length: real)
    requires d > 0.0
    ensures steps as real * d < length <==> steps < Ceil(length / d)
  {
    var q := Quotient(length, d);
    ScaleUp(steps as real, q, d);
  }

  /** Whatever the requests, a half-open window of a given length holds at most ceil(length / d) starts. */
  lemma WindowHoldsFew(next: Option<real>, requests: seq<Request>, d: real, from: real, length: real, inside: set<nat>)
    requires d > 0.0 && length > 0.0 && Constant(requests, d)
    requires forall k :: k in inside ==> k < |requests| && InWindow(StartAt(next, requests, k), from, length)
    ensures |inside| <= Ceil(length / d)
  {
    StepsBelow(0, d, length);
    if inside != {} {
      var a, b := Ends(inside);
      SmallSet(inside, a, b);
      StartsAreSpaced(next, requests, a, b);
      ConstantWaits(requests, d, a, b);
      StepsBelow(b - a, d, length);
    }
  }

  /** The bound is met: a burst made at one time starts a request every d, and fills the window. */
  lemma BurstFillsTheWindow(requests: seq<Request>, d: real, now: real, length: real, k: nat)
    requires d > 0.0 && length > 0.0 && Constant(requests, d) && k < |requests|
    requires forall j :: 0 <= j < |requests| ==> requests[j].now == now
    ensures StartAt(None, requests, k) == now + k as real * d
    ensures k < Ceil(length / d) <==> InWindow(StartAt(None, requests, k), now, length)
  {
    StartIsTheMaximum(None, requests, d, k);
    assert IsBound(None, requests, d, k, requests[0].now + (k - 0) as real * d);
    forall j | 0 <= j <= k ensures requests[j].now + (k - j) as real * d <= now + k as real * d {
    }
    StepsBelow(k, d, length);
  }
}
