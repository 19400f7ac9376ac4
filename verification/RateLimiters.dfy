/** The two allocators, the lease kept with the stored one, and the bounded body of a response. */
module RateLimiters {
  import opened Wrappers
  import opened RateLimiter

  // ---------------------------------------------------------------- the stored schedule

  datatype Lease = Lease(token: string, until: real)

  datatype Schedule = Schedule(next: real, lease: Option<Lease>)

  datatype Reservation = Reservation(start: real, token: string, until: real)

  datatype Failure = NotPositive | NotSeeded

  /** One reservation asked of a provider; the token is drawn at random. */
  datatype Ask = Ask(provider: string, now: real, interval: real, duration: real, token: string)

  function Reserved(s: Schedule, ask: Ask): Schedule {
    Schedule(Start(Some(s.next), ask.now) + ask.interval, Some(Lease(ask.token, ask.now + ask.duration)))
  }

  type Schedules = map<string, Schedule>

  function ReserveEffect(all: Schedules, ask: Ask): Schedules {
    if ask.interval <= 0.0 || ask.duration <= 0.0 || ask.provider !in all then all
    else all[ask.provider := Reserved(all[ask.provider], ask)]
  }

  predicate Validates(all: Schedules, provider: string, token: string, now: real) {
    provider in all && all[provider].lease.Some?
    && all[provider].lease.value.token == token && now < all[provider].lease.value.until
  }

  /** The lease a provider holds after a run: its last granted reservation's, or the one it was seeded with. */
  ghost function HeldLease(seeded: Schedules, asks: seq<Ask>, provider: string): Option<Lease>
    requires provider in seeded
  {
    match LastGranted(seeded, asks, provider)
    case None => seeded[provider].lease
    case Some(ask) => Some(Lease(ask.token, ask.now + ask.duration))
  }

  /** The slot the shared arithmetic gives a provider's next request, counting its own requests alone. */
  ghost predicate IsNextSlot(seeded: Schedules, asks: seq<Ask>, ask: Ask, slot: Reservation)
    requires Granted(seeded, ask)
  {
    var requests := Requests(seeded, asks + [ask], ask.provider);
    && requests != [] && slot.start == StartAt(Some(seeded[ask.provider].next), requests, |requests| - 1)
    && slot.token == ask.token && slot.until == ask.now + ask.duration
  }

  lemma OneMoreAsk(seeded: Schedules, asks: seq<Ask>, ask: Ask)
    ensures Run(seeded, asks).Keys == seeded.Keys
    ensures Run(seeded, asks + [ask]) == ReserveEffect(Run(seeded, asks), ask)
    ensures Granted(seeded, ask) ==>
              var start := Start(Some(Run(seeded, asks)[ask.provider].next), ask.now);
              IsNextSlot(seeded, asks, ask, Reservation(start, ask.token, ask.now + ask.duration))
  {
    RunKeepsProviders(seeded, asks);
    assert (asks + [ask])[..|asks|] == asks;
    if Granted(seeded, ask) {
      ReservedSlot(seeded, asks, ask);
    }
  }

  class ScheduleRepository {
    var schedules: Schedules
    ghost const seeded: Schedules
    ghost var asks: seq<Ask>

    ghost predicate Valid()
      reads this
    {
      schedules == Run(seeded, asks)
    }

    constructor (schedules: Schedules)
      ensures Valid() && this.schedules == seeded == schedules && asks == []
    {
      this.schedules, seeded, asks := schedules, schedules, [];
    }

    /** A reservation is the next slot of the provider's own requests, whatever other providers asked for. */
    method ReserveNextStart(ask: Ask) returns (r: Result<Reservation, Failure>)
      requires Valid()
      modifies this
      ensures Valid() && asks == old(asks) + [ask]
      ensures schedules == ReserveEffect(old(schedules), ask)
      ensures r.Ok? <==> Granted(seeded, ask)
      ensures r == Err(NotPositive) <==> ask.interval <= 0.0 || ask.duration <= 0.0
      ensures r == Err(NotSeeded) <==> ask.interval > 0.0 && ask.duration > 0.0 && ask.provider !in seeded
      ensures r.Err? ==> schedules == old(schedules)
      ensures r.Ok? ==>
                ask.provider in old(schedules) &&
                var next := old(schedules)[ask.provider].next;
                && r.value == Reservation(if next <= ask.now then ask.now else next, ask.token, ask.now + ask.duration)
                && schedules == old(schedules)[ask.provider :=
                     Schedule(r.value.start + ask.interval, Some(Lease(ask.token, ask.now + ask.duration)))]
      ensures r.Ok? ==> IsNextSlot(seeded, old(asks), ask, r.value)
      ensures r.Ok? ==> Validates(schedules, ask.provider, ask.token, ask.now)
    {
      OneMoreAsk(seeded, asks, ask);
      r := Reserve(ask);
      asks := asks + [ask];
    }

    method Reserve(ask: Ask) returns (r: Result<Reservation, Failure>)
      modifies this`schedules
      ensures schedules == ReserveEffect(old(schedules), ask)
      ensures match r
              case Err(NotPositive) => ask.interval <= 0.0 || ask.duration <= 0.0
              case Err(NotSeeded) => ask.interval > 0.0 && ask.duration > 0.0 && ask.provider !in old(schedules)
              case Ok(v) =>
                && Granted(old(schedules), ask)
                && v == Reservation(
                     Start(Some(old(schedules)[ask.provider].next), ask.now), ask.token, ask.now + ask.duration)
    {
      if ask.interval <= 0.0 || ask.duration <= 0.0 {
        return Err(NotPositive);
      }
      if ask.provider !in schedules {
        return Err(NotSeeded);
      }
      var schedule := schedules[ask.provider];
      var reserved := if schedule.next >= ask.now then schedule.next else ask.now;
      schedule := schedule.(next := reserved + ask.interval);
      var until := ask.now + ask.duration;
      schedule := schedule.(lease := Some(Lease(ask.token, until)));
      schedules := schedules[ask.provider := schedule];
      r := Ok(Reservation(reserved, ask.token, until));
    }

    /** A token is good exactly while it is the one last handed out to the provider and its time is not over. */
    method ValidateLease(provider: string, token: string, now: real) returns (valid: bool)
      requires Valid()
      ensures valid <==>
              && provider in seeded && HeldLease(seeded, asks, provider).Some?
              && HeldLease(seeded, asks, provider).value.token == token
              && now < HeldLease(seeded, asks, provider).value.until
    {
      RunKeepsProviders(seeded, asks);
      if provider in seeded {
        ScheduleFollowsItsRequests(seeded, asks, provider);
      }
      if provider !in schedules || schedules[provider].lease.None? {
        return false;
      }
      var lease := schedules[provider].lease.value;
      valid := lease.token == token && now < lease.until;
    }
  }

  // ---------------------------------------------------------------- the pacer

  class RequestPacer {
    var nextStartAt: Option<real>
    ghost var requests: seq<Request>

    ghost predicate Valid()
      reads this
    {
      AreRequests(requests) && nextStartAt == NextStart(None, requests, |requests|)
    }

    constructor ()
      ensures Valid() && requests == []
    {
      nextStartAt, requests := None, [];
    }

    /** The sleep ends at the next slot of the shared arithmetic; a negative interval counts as none. */
    method WaitForTurn(minimumInterval: real, now: real) returns (delay: real)
      requires Valid()
      modifies this
      ensures Valid() && delay >= 0.0
      ensures requests == old(requests) + [Request(now, if minimumInterval > 0.0 then minimumInterval else 0.0)]
      ensures now + delay == StartAt(None, requests, |requests| - 1)
    {
      OneMoreStart(None, requests, Request(now, if minimumInterval > 0.0 then minimumInterval else 0.0));
      var interval := if minimumInterval > 0.0 then minimumInterval else 0.0;
      var startAt := now;
      if nextStartAt.Some? && nextStartAt.value > now {
        startAt := nextStartAt.value;
      }
      nextStartAt := Some(startAt + interval);
      requests := requests + [Request(now, interval)];
      delay := startAt - now;
    }
  }

  // ---------------------------------------------------------------- runs of reservations

  function Run(all: Schedules, asks: seq<Ask>): Schedules {
    if asks == [] then all else ReserveEffect(Run(all, asks[..|asks| - 1]), asks[|asks| - 1])
  }

  lemma {:induction false} RunKeepsProviders(all: Schedules, asks: seq<Ask>)
    ensures Run(all, asks).Keys == all.Keys
    decreases |asks|
  {
    if asks != [] {
      RunKeepsProviders(all, asks[..|asks| - 1]);
    }
  }

  predicate Granted(all: Schedules, ask: Ask) {
    ask.interval > 0.0 && ask.duration > 0.0 && ask.provider in all
  }

  /** The slots a provider gave away, as requests of the shared arithmetic. */
  function Requests(all: Schedules, asks: seq<Ask>, provider: string): seq<Request> {
    if asks == [] then []
    else
      var last := asks[|asks| - 1];
      Requests(all, asks[..|asks| - 1], provider)
      + if last.provider == provider && Granted(all, last) then [Request(last.now, last.interval)] else []
  }

  /** The last granted ask of a provider. */
  function LastGranted(all: Schedules, asks: seq<Ask>, provider: string): Option<Ask> {
    if asks == [] then None
    else
      var last := asks[|asks| - 1];
      if last.provider == provider && Granted(all, last) then Some(last)
      else LastGranted(all, asks[..|asks| - 1], provider)
  }

  lemma {:induction false} StartIsLocal(next: Option<real>, requests: seq<Request>, more: seq<Request>, k: nat)
    requires k <= |requests|
    ensures NextStart(next, requests + more, k) == NextStart(next, requests, k)
    ensures k < |requests| ==> StartAt(next, requests + more, k) == StartAt(next, requests, k)
    decreases k
  {
    if k > 0 {
      StartIsLocal(next, requests, more, k - 1);
    }
  }

  lemma OneMoreStart(next: Option<real>, requests: seq<Request>, last: Request)
    ensures StartAt(next, requests + [last], |requests|) == Start(NextStart(next, requests, |requests|), last.now)
    ensures NextStart(next, requests + [last], |requests| + 1)
            == Some(Start(NextStart(next, requests, |requests|), last.now) + last.interval)
  {
    StartIsLocal(next, requests, [last], |requests|);
    assert (requests + [last])[|requests|] == last;
    assert NextStart(next, requests + [last], |requests| + 1)
        == Some(StartAt(next, requests + [last], |requests|) + last.interval);
  }

  /**
   After any run over any providers, a schedule holds the shared arithmetic over the provider's own
   requests alone, and the lease of its last one.
   */
  lemma {:induction false} ScheduleFollowsItsRequests(all: Schedules, asks: seq<Ask>, provider: string)
    requires provider in all
    ensures Run(all, asks).Keys == all.Keys
    ensures var s, requests := Run(all, asks)[provider], Requests(all, asks, provider);
            && Some(s.next) == NextStart(Some(all[provider].next), requests, |requests|)
            && s.lease == match LastGranted(all, asks, provider)
                          case None => all[provider].lease
                          case Some(ask) => Some(Lease(ask.token, ask.now + ask.duration))
    decreases |asks|
  {
    if asks != [] {
      var before, last := asks[..|asks| - 1], asks[|asks| - 1];
      ScheduleFollowsItsRequests(all, before, provider);
      if last.provider == provider && Granted(all, last) {
        var requests := Requests(all, before, provider);
        var more := [Request(last.now, last.interval)];
        StartIsLocal(Some(all[provider].next), requests, more, |requests|);
        OneMoreStart(Some(all[provider].next), requests, more[0]);
        assert Requests(all, asks, provider) == requests + more;
      } else {
        assert Requests(all, asks, provider) == Requests(all, before, provider);
      }
    }
  }

  /** So the slot a reservation hands out is the next one of the shared arithmetic. */
  lemma ReservedSlot(all: Schedules, asks: seq<Ask>, ask: Ask)
    requires Granted(all, ask)
    ensures ask.provider in Run(all, asks)
    ensures var requests := Requests(all, asks + [ask], ask.provider);
            requests != [] && Start(Some(Run(all, asks)[ask.provider].next), ask.now)
            == StartAt(Some(all[ask.provider].next), requests, |requests| - 1)
  {
    ScheduleFollowsItsRequests(all, asks, ask.provider);
    assert (asks + [ask])[..|asks|] == asks;
    var requests, more := Requests(all, asks, ask.provider), [Request(ask.now, ask.interval)];
    assert Requests(all, asks + [ask], ask.provider) == requests + more;
    StartIsLocal(Some(all[ask.provider].next), requests, more, |requests|);
  }

  lemma {:induction false} LastGrantedIs(all: Schedules, asks: seq<Ask>, provider: string, i: nat)
    requires i < |asks| && asks[i].provider == provider && Granted(all, asks[i])
    requires forall k :: i < k < |asks| ==> asks[k].provider != provider || !Granted(all, asks[k])
    ensures LastGranted(all, asks, provider) == Some(asks[i])
    decreases |asks|
  {
    if i < |asks| - 1 {
      LastGrantedIs(all, asks[..|asks| - 1], provider, i);
    }
  }

  predicate IsLastGranted(all: Schedules, asks: seq<Ask>, i: nat)
    requires i < |asks|
  {
    forall k :: i < k < |asks| ==> asks[k].provider != asks[i].provider || !Granted(all, asks[k])
  }

  lemma {:induction false} LastGrantedIndex(all: Schedules, asks: seq<Ask>, provider: string) returns (i: nat)
    requires LastGranted(all, asks, provider).Some?
    ensures i < |asks| && asks[i] == LastGranted(all, asks, provider).value
    ensures asks[i].provider == provider && Granted(all, asks[i]) && IsLastGranted(all, asks, i)
    decreases |asks|
  {
    var n := |asks| - 1;
    if asks[n].provider == provider && Granted(all, asks[n]) {
      i := n;
    } else {
      i := LastGrantedIndex(all, asks[..n], provider);
      assert forall k :: i < k < n ==> asks[..n][k] == asks[k];
    }
  }

  /**
     With tokens all different, a token validates exactly when it is the provider's last one and its
     lease has not run out.
   */
  lemma OnlyTheLastTokenValidates(all: Schedules, asks: seq<Ask>, i: nat, now: real)
    requires i < |asks| && Granted(all, asks[i])
    requires forall j, k :: 0 <= j < k < |asks| ==> asks[j].token != asks[k].token
    ensures Validates(Run(all, asks), asks[i].provider, asks[i].token, now)
            <==> IsLastGranted(all, asks, i) && now < asks[i].now + asks[i].duration
  {
    var provider := asks[i].provider;
    ScheduleFollowsItsRequests(all, asks, provider);
    if IsLastGranted(all, asks, i) {
      LastGrantedIs(all, asks, provider, i);
    } else {
      var k :| i < k < |asks| && asks[k].provider == provider && Granted(all, asks[k]);
      GrantedHasLast(all, asks, provider, k);
      var last := LastGrantedIndex(all, asks, provider);
      assert last != i;
    }
  }

  lemma {:induction false} GrantedHasLast(all: Schedules, asks: seq<Ask>, provider: string, k: nat)
    requires k < |asks| && asks[k].provider == provider && Granted(all, asks[k])
    ensures LastGranted(all, asks, provider).Some?
    decreases |asks|
  {
    if k < |asks| - 1 {
      GrantedHasLast(all, asks[..|asks| - 1], provider, k);
    }
  }

  /** No start the shared arithmetic could give the last request, from the seed or an earlier one, reaches the end. */
  ghost predicate EndsAfterAllWaits(next: real, requests: seq<Request>, until: real)
    requires requests != []
  {
    var k := |requests| - 1;
    && next + Waits(requests, 0, k) < until
    && forall j :: 0 <= j <= k ==> requests[j].now + Waits(requests, j, k) < until
  }

  /**
     The lease runs from the request, not from the slot. After any run it still holds at the slot it was given
     for exactly when no wait, from the seed or from an earlier request of the provider, lasts until its end.
   */
  lemma LeaseAtItsSlot(all: Schedules, asks: seq<Ask>, ask: Ask)
    requires Granted(all, ask)
    ensures var requests := Requests(all, asks + [ask], ask.provider);
            && requests != []
            && (Validates(Run(all, asks + [ask]), ask.provider, ask.token,
                          StartAt(Some(all[ask.provider].next), requests, |requests| - 1))
                <==> EndsAfterAllWaits(all[ask.provider].next, requests, ask.now + ask.duration))
  {
    assert (asks + [ask])[..|asks|] == asks;
    ScheduleFollowsItsRequests(all, asks + [ask], ask.provider);
    ReservedSlot(all, asks, ask);
    GrantedAreRequests(all, asks + [ask], ask.provider);
    StartsBefore(all[ask.provider].next, Requests(all, asks + [ask], ask.provider), ask.now + ask.duration);
  }

  lemma StartsBefore(next: real, requests: seq<Request>, until: real)
    requires requests != [] && AreRequests(requests)
    ensures StartAt(Some(next), requests, |requests| - 1) < until <==> EndsAfterAllWaits(next, requests, until)
  {
    var k := |requests| - 1;
    forall j | 0 <= j <= k ensures StartAt(Some(next), requests, k) >= requests[j].now + Waits(requests, j, k) {
      StartIsNoEarlier(Some(next), requests, j, k);
    }
    StartIsNoEarlier(Some(next), requests, 0, k);
    StartIsNoLater(Some(next), requests, k);
  }

  lemma {:induction false} GrantedAreRequests(all: Schedules, asks: seq<Ask>, provider: string)
    ensures AreRequests(Requests(all, asks, provider))
    decreases |asks|
  {
    if asks != [] {
      GrantedAreRequests(all, asks[..|asks| - 1], provider);
    }
  }

  /** Two requests at once, two seconds apart, with leases of one second: the second lease ends before its slot. */
  lemma LeaseCanEndFirst(provider: string, now: real)
    ensures var all := map[provider := Schedule(now, None)];
            var ask := Ask(provider, now, 2.0, 1.0, "b");
            var asks := [Ask(provider, now, 2.0, 1.0, "a"), ask];
            var requests, slot := Requests(all, asks, provider), now + 2.0;
            && Granted(all, ask) && |requests| == 2 && slot == StartAt(Some(now), requests, 1)
            && Validates(Run(all, asks), provider, "b", now) && !Validates(Run(all, asks), provider, "b", slot)
  {
    var all := map[provider := Schedule(now, None)];
    var first, ask := Ask(provider, now, 2.0, 1.0, "a"), Ask(provider, now, 2.0, 1.0, "b");
    TwoAsks(all, first, ask);
    assert StartAt(Some(now), [Request(now, 2.0), Request(now, 2.0)], 1) == now + 2.0;
  }

  lemma TwoAsks(all: Schedules, first: Ask, ask: Ask)
    requires first.provider == ask.provider && Granted(all, first) && Granted(all, ask)
    requires first.now == ask.now && first.interval == ask.interval
    ensures Requests(all, [first, ask], ask.provider)
            == [Request(ask.now, ask.interval), Request(ask.now, ask.interval)]
    ensures ask.provider in Run(all, [first, ask])
    ensures Run(all, [first, ask])[ask.provider].lease == Some(Lease(ask.token, ask.now + ask.duration))
  {
    RunWithAsk(all, [], first, ask.provider);
    RunWithAsk(all, [first], ask, ask.provider);
    assert [] + [first] == [first] && [first] + [ask] == [first, ask];
  }

  lemma RunWithAsk(all: Schedules, asks: seq<Ask>, ask: Ask, provider: string)
    ensures Run(all, asks + [ask]) == ReserveEffect(Run(all, asks), ask)
    ensures Requests(all, asks + [ask], provider)
            == Requests(all, asks, provider)
               + if ask.provider == provider && Granted(all, ask) then [Request(ask.now, ask.interval)] else []
  {
    assert (asks + [ask])[..|asks + [ask]| - 1] == asks;
  }

  // ---------------------------------------------------------------- bounded bodies

  type Bytes = seq<bv8>

  function Concat(chunks: seq<Bytes>): Bytes {
    if chunks == [] then [] else Concat(chunks[..|chunks| - 1]) + chunks[|chunks| - 1]
  }

  lemma {:induction false} ConcatGrows(chunks: seq<Bytes>, k: nat)
    requires k <= |chunks|
    ensures Concat(chunks[..k]) <= Concat(chunks)
    decreases |chunks|
  {
    if k < |chunks| {
      ConcatGrows(chunks[..|chunks| - 1], k);
      assert chunks[..|chunks| - 1][..k] == chunks[..k];
    } else {
      assert chunks[..k] == chunks;
    }
  }

  /** At most the allowed bytes of a body, and whether there were more. */
  method ReadBoundedBody(chunks: seq<Bytes>, max: nat) returns (body: Bytes, truncated: bool)
    ensures truncated <==> |Concat(chunks)| > max
    ensures body == if truncated then Concat(chunks)[..max] else Concat(chunks)
  {
    body, truncated := [], false;
    var retained := 0;
    for i := 0 to |chunks|
      invariant body == Concat(chunks[..i]) && retained == |body| <= max
    {
      assert chunks[..i + 1][..i] == chunks[..i];
      var chunk := chunks[i];
      if chunk == [] {
        continue;
      }
      var remaining := max - retained;
      var kept := if |chunk| <= remaining then chunk else chunk[..remaining];
      body := body + kept;
      retained := retained + |kept|;
      if |chunk| > remaining {
        ConcatGrows(chunks, i + 1);
        assert body == Concat(chunks[..i + 1])[..max];
        return body, true;
      }
    }
    assert chunks[..|chunks|] == chunks;
  }
}
