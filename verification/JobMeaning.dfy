/** What claims, finishes and enqueues do, in terms of the rows before them alone. */
module JobMeaning {
  import opened Wrappers
  import opened Ordering
  import opened JobQueue
  import opened JobQueueSafety
  import opened JobQueueRuns

  // ---------------------------------------------------------------- rows

  ghost predicate IsWaiting(j: Job) {
    j.state == Queued || j.state == Running
  }

  /** A new row: queued, created now, with no attempt and nothing else set. */
  ghost predicate IsPlain(j: Job, target: Target, kind: string, now: int) {
    j == Job(target, kind, Queued, now, None, None, None, None, None, [])
  }

  /** Earlier by creation time, and by id among rows of one time. */
  ghost predicate Precedes(q: Queue, a: string, b: string)
    requires a in q && b in q
  {
    q[a].createdAt < q[b].createdAt || (q[a].createdAt == q[b].createdAt && TextLess(a, b))
  }

  lemma AgeMeans(q: Queue, a: string, b: string)
    requires a in q && b in q
    ensures LexLess(Age(q)(a), Age(q)(b)) <==> Precedes(q, a, b)
    ensures Age(q)(a) == Age(q)(b) ==> a == b
  {
    TextOrder(a, b);
    assert Age(q)(a)[1..] == Codes(a) && Age(q)(b)[1..] == Codes(b);
    if Codes(a) == Codes(b) {
      CodesInjective(a, b);
    }
  }

  // ---------------------------------------------------------------- claims

  /** A queued row whose delay is over, or a running one with an open attempt older than the lease. */
  ghost predicate MayBeClaimed(j: Job, now: int, leaseAge: nat) {
    || (j.state == Queued && (j.nextAttempt == None || j.nextAttempt.value <= now))
    || (j.state == Running && exists i ::
          0 <= i < |j.attempts| && j.attempts[i].state == AttemptRunning && j.attempts[i].startedAt <= now - leaseAge)
  }

  ghost predicate IsCandidate(q: Queue, id: string, now: int, leaseAge: nat, filter: Filter, locked: set<string>) {
    && id in q && id !in locked && MayBeClaimed(q[id], now, leaseAge)
    && (filter.source.Some? ==> q[id].target == Source(filter.source.value))
    && (filter.kinds.Some? ==> q[id].kind in filter.kinds.value)
  }

  /** The row after a claim: running, its last attempt interrupted if it was running, and a new one begun. */
  ghost predicate IsClaimed(was: Job, j: Job, now: int) {
    var n := |was.attempts|;
    && j == was.(state := Running, attempts := j.attempts) && |j.attempts| == n + 1
    && j.attempts[n] == Attempt(n + 1, AttemptRunning, now, None)
    && (forall i :: 0 <= i < n - 1 ==> j.attempts[i] == was.attempts[i])
    && (n > 0 ==> j.attempts[n - 1] == if was.state == Running
                  then Attempt(was.attempts[n - 1].number, AttemptInterrupted, was.attempts[n - 1].startedAt, Some(now))
                  else was.attempts[n - 1])
  }

  /** Nothing was there to claim, or the first candidate was claimed and every other row stands. */
  ghost predicate ClaimsFirst(
    q: Queue, after: Queue, now: int, leaseAge: nat, filter: Filter, locked: set<string>, r: Option<Claimed>)
  {
    if r.None? then after == q && forall id :: !IsCandidate(q, id, now, leaseAge, filter, locked)
    else
      var id := r.value.job;
      && IsCandidate(q, id, now, leaseAge, filter, locked)
      && (forall other ::
            IsCandidate(q, other, now, leaseAge, filter, locked) ==> other == id || Precedes(q, id, other))
      && id in after && IsClaimed(q[id], after[id], now) && after == q[id := after[id]]
      && r.value.attempt == |q[id].attempts| + 1
  }

  lemma CandidatesMean(q: Queue, id: string, now: int, leaseAge: nat, filter: Filter, locked: set<string>)
    ensures id in ClaimableIds(q, now, leaseAge, filter, locked) <==> IsCandidate(q, id, now, leaseAge, filter, locked)
  {
  }

  lemma NextClaimMeans(q: Queue, now: int, leaseAge: nat, filter: Filter, locked: set<string>)
    ensures var next := NextClaim(q, now, leaseAge, filter, locked);
            && (next.None? ==> forall id :: !IsCandidate(q, id, now, leaseAge, filter, locked))
            && (next.Some? ==>
                  && IsCandidate(q, next.value, now, leaseAge, filter, locked)
                  && forall other :: IsCandidate(q, other, now, leaseAge, filter, locked) ==>
                       other == next.value || Precedes(q, next.value, other))
  {
    var next := NextClaim(q, now, leaseAge, filter, locked);
    ClaimIsOldest(q, now, leaseAge, filter, locked);
    forall id ensures id in ClaimableIds(q, now, leaseAge, filter, locked) <==>
                      IsCandidate(q, id, now, leaseAge, filter, locked) {
      CandidatesMean(q, id, now, leaseAge, filter, locked);
    }
    if next.Some? {
      forall other | IsCandidate(q, other, now, leaseAge, filter, locked)
        ensures other == next.value || Precedes(q, next.value, other)
      {
        AgeMeans(q, next.value, other);
      }
    }
  }

  lemma ClaimedJobIs(j: Job, now: int)
    ensures IsClaimed(j, ClaimJob(j, now), now)
  {
  }

  // ---------------------------------------------------------------- finishes

  /** The claimed attempt is closed now, in this state; its job keeps the rest of its attempts and of its identity. */
  ghost predicate Closes(q: Queue, after: Queue, claimed: Claimed, state: AttemptState, now: int) {
    && claimed.job in q && 1 <= claimed.attempt <= |q[claimed.job].attempts| && claimed.job in after
    && var was, j, k := q[claimed.job], after[claimed.job], claimed.attempt - 1;
       && after == q[claimed.job := j]
       && j == was.(state := j.state, nextAttempt := j.nextAttempt, failureReason := j.failureReason,
                    attempts := j.attempts)
       && |j.attempts| == |was.attempts|
       && j.attempts[k] == Attempt(was.attempts[k].number, state, was.attempts[k].startedAt, Some(now))
       && forall i :: 0 <= i < |was.attempts| && i != k ==> j.attempts[i] == was.attempts[i]
  }

  /** The job ends with the attempt: it waits for nothing more, and keeps the reason it had. */
  ghost predicate Ends(q: Queue, after: Queue, claimed: Claimed, state: State, attempt: AttemptState, now: int) {
    && Closes(q, after, claimed, attempt, now)
    && after[claimed.job].state == state && after[claimed.job].nextAttempt == None
    && after[claimed.job].failureReason == q[claimed.job].failureReason
  }

  // ---------------------------------------------------------------- enqueues

  /** Some waiting row of the kind has the target; the two whole-library kinds have none to compare. */
  ghost predicate Covers(q: Queue, id: string, target: Target, kind: string) {
    id in q && IsWaiting(q[id]) && q[id].kind == kind && (target == Whole || q[id].target == target)
  }

  /** One plain row is added, unless a waiting one covers it already. */
  ghost predicate AddsOnce(
    q: Queue, after: Queue, target: Target, kind: string, now: int, id: string, created: Option<string>)
  {
    if exists other :: Covers(q, other, target, kind) then after == q && created == None
    else id in after && IsPlain(after[id], target, kind, now) && after == q[id := after[id]] && created == Some(id)
  }

  lemma CoversMeans(q: Queue, target: Target, kind: string)
    ensures ActiveFor(q, target, kind) != {} <==> exists id :: Covers(q, id, target, kind)
    ensures forall id :: id in ActiveFor(q, target, kind) <==> Covers(q, id, target, kind)
  {
    forall id ensures id in ActiveFor(q, target, kind) <==> Covers(q, id, target, kind) {
    }
    if id :| Covers(q, id, target, kind) {
      assert id in ActiveFor(q, target, kind);
    }
  }

  lemma EnqueueOnceMeans(q: Queue, target: Target, kind: string, now: int, id: string)
    ensures AddsOnce(q, EnqueueOnce(q, target, kind, now, id), target, kind, now, id,
                     if ActiveFor(q, target, kind) == {} then Some(id) else None)
  {
    CoversMeans(q, target, kind);
  }

  /** The last of the rows that cover it. */
  ghost predicate IsLastCover(q: Queue, id: string, target: Target, kind: string) {
    && Covers(q, id, target, kind)
    && forall other :: Covers(q, other, target, kind) ==> other == id || Precedes(q, other, id)
  }

  lemma NewestMeans(q: Queue, target: Target, kind: string)
    requires ActiveFor(q, target, kind) != {}
    ensures IsLastCover(q, Newest(q, ActiveFor(q, target, kind)), target, kind)
  {
    var ids := ActiveFor(q, target, kind);
    var order := OldestFirst(q, ids);
    CoversMeans(q, target, kind);
    forall other | other in ids && other != order[|ids| - 1] ensures Precedes(q, other, order[|ids| - 1]) {
      assert other in order;
      var k :| 0 <= k < |order| && order[k] == other;
      AgeMeans(q, other, order[|ids| - 1]);
    }
  }

  // ---------------------------------------------------------------- the blocked fetches

  /** A lyric fetch blocked for the reason the provider's absence was recorded with. */
  ghost predicate IsOutage(j: Job) {
    && j.kind == "lrclib_fetch" && j.state == BlockedInfrastructure && j.failureReason.Some?
    && exists cause :: j.failureReason.value
                       == cause + "ProcessingInfrastructureError: lrclib provider is unavailable"
  }

  lemma OutageMeans(j: Job)
    ensures Recoverable(j) <==> IsOutage(j)
  {
    if Recoverable(j) {
      var reason := j.failureReason.value;
      assert reason == reason[..|reason| - |OUTAGE|] + OUTAGE;
    }
  }

  /** Blocked fetches that come before this one. */
  ghost function Earlier(q: Queue, id: string): set<string>
    requires id in q
  {
    set other | other in q && IsOutage(q[other]) && Precedes(q, other, id)
  }

  /** The batch holds the first blocked fetches, as many as the limit allows. */
  lemma BlockedMeans(q: Queue, limit: nat, id: string)
    requires id in q
    ensures id in Blocked(q, limit) <==> IsOutage(q[id]) && |Earlier(q, id)| < limit
  {
    var ids := RecoverableIds(q);
    var order := OldestFirst(q, ids);
    forall other | other in q ensures other in ids <==> IsOutage(q[other]) {
      OutageMeans(q[other]);
    }
    if id in ids {
      assert id in order;
      var k :| 0 <= k < |order| && order[k] == id;
      EarlierIsPrefix(q, order, k);
      if limit < |order| {
        InPrefix(order, k, limit);
      }
    }
  }

  /** The blocked fetches of one batch: the first ones, as many as the limit allows. */
  ghost predicate InBatch(q: Queue, limit: nat, id: string) {
    id in q && IsOutage(q[id]) && |Earlier(q, id)| < limit
  }

  lemma BatchSize(q: Queue, limit: nat)
    ensures |Blocked(q, limit)| == |set id | id in q && InBatch(q, limit, id)|
  {
    var blocked := Blocked(q, limit);
    var order := OldestFirst(q, RecoverableIds(q));
    assert NoDup(blocked) by {
      assert forall i, k :: 0 <= i < k < |blocked| ==> order[i] != order[k];
    }
    PrefixSize(blocked, |blocked|);
    var members := set i | 0 <= i < |blocked| :: blocked[i];
    forall id | id in q ensures id in members <==> InBatch(q, limit, id) {
      BlockedMeans(q, limit, id);
    }
    assert members == set id | id in q && InBatch(q, limit, id);
  }

  lemma InPrefix(order: seq<string>, k: nat, limit: nat)
    requires NoDup(order) && k < |order| && limit <= |order|
    ensures order[k] in order[..limit] <==> k < limit
  {
    if order[k] in order[..limit] {
      var i :| 0 <= i < limit && order[..limit][i] == order[k];
      assert order[i] == order[k];
    }
    assert k < limit ==> order[..limit][k] == order[k];
  }

  lemma EarlierIsPrefix(q: Queue, order: seq<string>, k: nat)
    requires k < |order| && NoDup(order) && SortedBy(Age(q), order) && forall id :: id in order ==> id in q
    requires forall id :: id in order <==> id in q && IsOutage(q[id])
    ensures |Earlier(q, order[k])| == k
  {
    var before := set i | 0 <= i < k :: order[i];
    forall other ensures other in Earlier(q, order[k]) <==> other in before {
      if other in order {
        var i :| 0 <= i < |order| && order[i] == other;
        AgeMeans(q, other, order[k]);
        AgeMeans(q, order[k], other);
        LexTrichotomy(Age(q)(other), Age(q)(order[k]));
      }
    }
    assert Earlier(q, order[k]) == before;
    PrefixSize(order, k);
  }

  lemma {:induction false} PrefixSize(order: seq<string>, k: nat)
    requires k <= |order| && NoDup(order)
    ensures |set i | 0 <= i < k :: order[i]| == k
    decreases k
  {
    if k > 0 {
      PrefixSize(order, k - 1);
      var before := set i | 0 <= i < k - 1 :: order[i];
      assert order[k - 1] !in before;
      assert (set i | 0 <= i < k :: order[i]) == before + {order[k - 1]};
    }
  }
}
