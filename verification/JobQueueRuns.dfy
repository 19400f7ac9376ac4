/** What claims and enqueues achieve: order, leases, history, draining, and the one active job an enqueue leaves. */
module JobQueueRuns {
  import opened Wrappers
  import opened Ordering
  import opened JobQueue
  import opened JobQueueSafety

  // ---------------------------------------------------------------- claims

  /** The claim is the oldest claimable row nobody holds, and there is none only when nothing is claimable. */
  lemma ClaimIsOldest(q: Queue, now: int, leaseAge: nat, filter: Filter, locked: set<string>)
    ensures var ids, next := ClaimableIds(q, now, leaseAge, filter, locked),
            NextClaim(q, now, leaseAge, filter, locked);
            && (next.None? <==> ids == {})
            && (next.Some? ==>
                  next.value in ids && forall other :: other in ids ==> LexLeq(Age(q)(next.value), Age(q)(other)))
  {
    var ids := ClaimableIds(q, now, leaseAge, filter, locked);
    if ids != {} {
      var order := OldestFirst(q, ids);
      assert order[0] in ids;
      forall other | other in ids ensures LexLeq(Age(q)(order[0]), Age(q)(other)) {
        assert other in order;
        var k :| 0 <= k < |order| && order[k] == other;
      }
    }
  }

  /**
   A running job is claimed again only when its last attempt is older than the lease; that attempt,
   and no other, is interrupted, and the new one follows it.
   */
  lemma ClaimInterruptsTheStaleAttempt(j: Job, now: int, leaseAge: nat)
    requires JobOk(j) && j.state == Running
    ensures var n := |j.attempts|;
            && (Claimable(j, now, leaseAge) <==> StaleAttempt(j.attempts[n - 1], now - leaseAge))
            && ClaimJob(j, now).attempts
               == j.attempts[..n - 1] + [Attempt(n, AttemptInterrupted, j.attempts[n - 1].startedAt, Some(now)),
                                         Attempt(n + 1, AttemptRunning, now, None)]
  {
  }

  /** A finished job can be claimed again exactly when it was sent back to the queue and its delay is over. */
  lemma ClaimableAfterFinish(j: Job, number: nat, outcome: Outcome, now: int, later: int, leaseAge: nat)
    requires 1 <= number <= |j.attempts|
    ensures Claimable(FinishJob(j, number, outcome, now), later, leaseAge) <==>
            outcome.Retry? && number < outcome.maxAttempts && now + outcome.delay <= later
  {
  }

  /**
   The repository does not fence finishes. The claim that follows one leaves two attempts running exactly
   when the finish sent the job back on behalf of an older claim while the last attempt was still running.
   */
  lemma UnfencedRetryThenClaim(j: Job, number: nat, outcome: Outcome, now: int, later: int, leaseAge: nat)
    requires JobOk(j) && 1 <= number <= |j.attempts|
    requires Claimable(FinishJob(j, number, outcome, now), later, leaseAge)
    ensures var after := ClaimJob(FinishJob(j, number, outcome, now), later);
            && Numbered(after) && (OnlyLastOpen(after) <==> number == |j.attempts| || !HasOpenAttempt(j))
  {
    var n, finished := |j.attempts|, FinishJob(j, number, outcome, now);
    ClaimableAfterFinish(j, number, outcome, now, later, leaseAge);
    FinishKeepsNumbers(j, number, outcome, now);
    var after := ClaimJob(finished, later);
    assert after.attempts == finished.attempts + [Attempt(n + 1, AttemptRunning, later, None)];
    assert after.attempts[n - 1] == finished.attempts[n - 1];
    assert forall i :: 0 <= i < n && i != number - 1 ==> finished.attempts[i] == j.attempts[i];
  }

  /** So a late retry of the first of two attempts, and the next claim, leave the second and third both running. */
  lemma LateRetryLeavesTwoRunning(j: Job, delay: int, max: int, reason: string, now: int, later: int, leaseAge: nat)
    requires JobOk(j) && j.state == Running && |j.attempts| == 2 && max > 1 && now + delay <= later
    ensures var retried := FinishJob(j, 1, Retry(delay, max, reason), now);
            && Claimable(retried, later, leaseAge)
            && ClaimJob(retried, later).attempts[1].state == ClaimJob(retried, later).attempts[2].state
               == AttemptRunning
  {
    ClaimableAfterFinish(j, 1, Retry(delay, max, reason), now, later, leaseAge);
  }

  // ---------------------------------------------------------------- history

  /** Attempts are only added, a finished one never changes, and an inactive row never changes at all. */
  ghost predicate Extends(a: Job, b: Job) {
    && a.target == b.target && a.kind == b.kind && a.createdAt == b.createdAt && a.sourceRevision == b.sourceRevision
    && |a.attempts| <= |b.attempts|
    && (forall i :: 0 <= i < |a.attempts| ==> b.attempts[i].startedAt == a.attempts[i].startedAt)
    && (forall i :: 0 <= i < |a.attempts| && a.attempts[i].state != AttemptRunning ==> b.attempts[i] == a.attempts[i])
    && (!Active(a) ==> b == a)
  }

  ghost predicate AllExtend(q: Queue, r: Queue) {
    forall id :: id in q ==> id in r && Extends(q[id], r[id])
  }

  lemma AllExtendTransitive(q: Queue, r: Queue, s: Queue)
    requires AllExtend(q, r) && AllExtend(r, s)
    ensures AllExtend(q, s)
  {
    forall id | id in q ensures Extends(q[id], s[id]) {
      var a, b, c := q[id], r[id], s[id];
      assert Extends(a, b) && Extends(b, c);
      assert forall i ::
        0 <= i < |a.attempts| && a.attempts[i].state != AttemptRunning
        ==> b.attempts[i] == a.attempts[i];
    }
  }

  lemma ClaimExtends(j: Job, now: int)
    requires JobOk(j) && Active(j)
    ensures Extends(j, ClaimJob(j, now))
  {
  }

  lemma FinishExtends(j: Job, outcome: Outcome, now: int)
    requires JobOk(j) && j.state == Running
    ensures Extends(j, FinishJob(j, |j.attempts|, outcome, now))
  {
  }

  lemma EnqueueExtends(q: Queue, target: Target, kind: string, now: int, id: string)
    requires id !in q
    ensures AllExtend(q, EnqueueOnce(q, target, kind, now, id))
  {
  }

  lemma {:induction false} RefreshEachExtends(
    q: Queue, records: seq<string>, times: map<string, int>, ids: seq<string>, n: nat)
    requires Inv(q) && FreshIds(q, ids, |records|) && n <= |records| && forall r :: r in records ==> r in times
    ensures AllExtend(q, RefreshEach(q, records, times, ids, n))
    decreases n
  {
    if n > 0 {
      RefreshEachExtends(q, records, times, ids, n - 1);
      RefreshEachKeepsInv(q, records, times, ids, n - 1);
      var before := RefreshEach(q, records, times, ids, n - 1);
      EnqueueExtends(before, Record(records[n - 1]), SELECTION, times[records[n - 1]], ids[n - 1]);
      AllExtendTransitive(q, before, RefreshEach(q, records, times, ids, n));
    }
  }

  lemma {:induction false} RecoverEachExtends(q: Queue, blocked: seq<Job>, now: int, ids: seq<string>, n: nat)
    requires Inv(q) && FreshIds(q, ids, |blocked|) && n <= |blocked|
    ensures AllExtend(q, RecoverEach(q, blocked, now, ids, n))
    decreases n
  {
    if n > 0 {
      RecoverEachExtends(q, blocked, now, ids, n - 1);
      RecoverEachKeepsInv(q, blocked, now, ids, n - 1);
      var before := RecoverEach(q, blocked, now, ids, n - 1);
      EnqueueExtends(before, blocked[n - 1].target, LYRICS, now, ids[n - 1]);
      AllExtendTransitive(q, before, RecoverEach(q, blocked, now, ids, n));
    }
  }

  lemma UpdateExtends(q: Queue, id: string, j: Job)
    requires id in q && Extends(q[id], j)
    ensures AllExtend(q, q[id := j])
  {
  }

  lemma ClaimStepExtends(q: Queue, now: int, leaseAge: nat, filter: Filter, locked: set<string>)
    requires Inv(q)
    ensures AllExtend(q, ClaimEffect(q, now, leaseAge, filter, locked))
  {
    var next := NextClaim(q, now, leaseAge, filter, locked);
    ClaimIsOldest(q, now, leaseAge, filter, locked);
    if next.Some? {
      ClaimExtends(q[next.value], now);
      UpdateExtends(q, next.value, ClaimJob(q[next.value], now));
    }
  }

  lemma EnqueueSourceExtends(
    q: Queue, source: string, kind: string, now: int, metadata: Option<int>, revision: Option<int>, id: string)
    requires id !in q
    ensures AllExtend(q, EnqueueForSource(q, source, kind, now, metadata, revision, id))
  {
  }

  lemma RefreshExtends(q: Queue, source: string, pair: Pair, now: int, revision: Option<int>, id: string)
    requires id !in q
    ensures AllExtend(q, EnqueueRefresh(q, source, pair, now, revision, id))
  {
    var active := ActiveFor(q, Source(source), REFRESH);
    if active != {} {
      SupersedingExtends(q, Newest(q, active));
      assert Newest(q, active) in active;
    }
  }

  lemma SupersedingExtends(q: Queue, id: string)
    requires id in q && Active(q[id])
    ensures AllExtend(q, Superseding(q, id)) && Superseding(q, id).Keys == q.Keys
  {
  }

  lemma StepExtends(q: Queue, op: Op)
    requires Inv(q) && Allowed(q, op)
    ensures AllExtend(q, Step(q, op))
  {
    match op
    case Claim(now, leaseAge, filter, locked) => ClaimStepExtends(q, now, leaseAge, filter, locked);
    case Finish(id, number, outcome, now) =>
      FinishExtends(q[id], outcome, now);
      UpdateExtends(q, id, FinishJob(q[id], number, outcome, now));
    case Enqueue(target, kind, now, id) => EnqueueExtends(q, target, kind, now, id);
    case EnqueueSource(source, kind, now, metadata, revision, id) =>
      EnqueueSourceExtends(q, source, kind, now, metadata, revision, id);
    case EnqueueMusicbrainz(source, pair, now, revision, id) => RefreshExtends(q, source, pair, now, revision, id);
    case EnqueueSelections(times, ids) => RefreshEachExtends(q, SortedRecords(times), times, ids, |times|);
    case Recover(limit, now, ids) => RecoverEachExtends(q, JobsOf(q, Blocked(q, limit)), now, ids, |ids|);
  }

  lemma {:induction false} RunExtends(q: Queue, ops: seq<Op>)
    requires Inv(q) && IsRun(q, ops)
    ensures AllExtend(q, Run(q, ops))
    decreases |ops|
  {
    if ops != [] {
      var after := Step(q, ops[0]);
      StepKeepsInv(q, ops[0]);
      StepExtends(q, ops[0]);
      RunExtends(after, ops[1..]);
      AllExtendTransitive(q, after, Run(q, ops));
    }
  }

  // ---------------------------------------------------------------- draining

  /** How many more claims a job can take: a queued one at least one, a running one what its retries leave. */
  function Weight(j: Job, maxAttempts: nat): nat {
    var left := if |j.attempts| < maxAttempts then maxAttempts - |j.attempts| else 0;
    if j.state == Queued then (if left == 0 then 1 else left)
    else if j.state == Running then left
    else 0
  }

  ghost function Potential(q: Queue, maxAttempts: nat): nat
    decreases |q|
  {
    if q == map[] then 0
    else
      var id :| id in q;
      Weight(q[id], maxAttempts) + Potential(q - {id}, maxAttempts)
  }

  lemma {:induction false} PotentialSplit(q: Queue, maxAttempts: nat, id: string)
    requires id in q
    ensures Potential(q, maxAttempts) == Weight(q[id], maxAttempts) + Potential(q - {id}, maxAttempts)
    decreases |q|
  {
    var other :| other in q && Potential(q, maxAttempts)
      == Weight(q[other], maxAttempts) + Potential(q - {other}, maxAttempts);
    if other != id {
      PotentialSplit(q - {other}, maxAttempts, id);
      PotentialSplit(q - {id}, maxAttempts, other);
      assert q - {other} - {id} == q - {id} - {other};
    }
  }

  lemma PotentialUpdate(q: Queue, maxAttempts: nat, id: string, j: Job)
    requires id in q
    ensures Potential(q[id := j], maxAttempts)
            == Potential(q, maxAttempts) - Weight(q[id], maxAttempts) + Weight(j, maxAttempts)
  {
    PotentialSplit(q, maxAttempts, id);
    PotentialSplit(q[id := j], maxAttempts, id);
    assert q[id := j] - {id} == q - {id};
  }

  /** No new work, and every finish bounds its retries by the same number. */
  predicate DrainOp(op: Op, maxAttempts: nat) {
    op.Claim? || (op.Finish? && (op.outcome.Retry? ==> op.outcome.maxAttempts == maxAttempts))
  }

  function Claims(q: Queue, op: Op): nat {
    if op.Claim? && NextClaim(q, op.now, op.leaseAge, op.filter, op.locked).Some? then 1 else 0
  }

  function StaleClaims(q: Queue, op: Op): nat {
    if op.Claim? && NextClaim(q, op.now, op.leaseAge, op.filter, op.locked).Some?
       && q[NextClaim(q, op.now, op.leaseAge, op.filter, op.locked).value].state == Running then 1 else 0
  }

  function ClaimsMade(q: Queue, ops: seq<Op>): nat
    requires IsRun(q, ops)
    decreases |ops|
  {
    if ops == [] then 0 else Claims(q, ops[0]) + ClaimsMade(Step(q, ops[0]), ops[1..])
  }

  function StaleReclaims(q: Queue, ops: seq<Op>): nat
    requires IsRun(q, ops)
    decreases |ops|
  {
    if ops == [] then 0 else StaleClaims(q, ops[0]) + StaleReclaims(Step(q, ops[0]), ops[1..])
  }

  lemma DrainStep(q: Queue, op: Op, maxAttempts: nat)
    requires Allowed(q, op) && DrainOp(op, maxAttempts)
    ensures Potential(Step(q, op), maxAttempts) + Claims(q, op) <= Potential(q, maxAttempts) + StaleClaims(q, op)
  {
    match op
    case Claim(now, leaseAge, filter, locked) =>
      var next := NextClaim(q, now, leaseAge, filter, locked);
      ClaimIsOldest(q, now, leaseAge, filter, locked);
      if next.Some? {
        PotentialUpdate(q, maxAttempts, next.value, ClaimJob(q[next.value], now));
      }
    case Finish(id, number, outcome, now) =>
      PotentialUpdate(q, maxAttempts, id, FinishJob(q[id], number, outcome, now));
  }

  /** Every claim beyond the reclaimed leases uses up the remaining attempts, so the queue drains. */
  lemma {:induction false} ClaimsAreBounded(q: Queue, ops: seq<Op>, maxAttempts: nat)
    requires IsRun(q, ops) && forall op :: op in ops ==> DrainOp(op, maxAttempts)
    ensures Potential(Run(q, ops), maxAttempts) + ClaimsMade(q, ops)
            <= Potential(q, maxAttempts) + StaleReclaims(q, ops)
    decreases |ops|
  {
    if ops != [] {
      DrainStep(q, ops[0], maxAttempts);
      ClaimsAreBounded(Step(q, ops[0]), ops[1..], maxAttempts);
    }
  }

  /** Once that many claims are made nothing is queued any more. */
  lemma DrainedQueue(q: Queue, ops: seq<Op>, maxAttempts: nat)
    requires IsRun(q, ops) && forall op :: op in ops ==> DrainOp(op, maxAttempts)
    requires ClaimsMade(q, ops) == Potential(q, maxAttempts) + StaleReclaims(q, ops)
    ensures forall id :: id in Run(q, ops) ==> Run(q, ops)[id].state != Queued
  {
    ClaimsAreBounded(q, ops, maxAttempts);
    var last := Run(q, ops);
    forall id | id in last ensures last[id].state != Queued {
      PotentialSplit(last, maxAttempts, id);
    }
  }

  // ---------------------------------------------------------------- what an enqueue leaves

  /** After an enqueue its key has one active job, the one found or the new one, and no other row changed. */
  lemma EnqueueLeavesOne(q: Queue, target: Target, kind: string, now: int, id: string)
    requires Inv(q) && id !in q && (IsScan(kind) <==> target == Whole)
    ensures var after, found := EnqueueOnce(q, target, kind, now, id), ActiveFor(q, target, kind);
            && ActiveFor(after, target, kind) == (if found == {} then {id} else found)
            && |ActiveFor(after, target, kind)| == 1
            && after == if found == {} then q[id := NewJob(target, kind, now)] else q
  {
    var after := EnqueueOnce(q, target, kind, now, id);
    EnqueueOnceKeepsInv(q, target, kind, now, id);
    var one := if ActiveFor(q, target, kind) == {} then id else Newest(q, ActiveFor(q, target, kind));
    assert one in ActiveFor(after, target, kind);
    OnlyActive(after, target, kind, one);
    if ActiveFor(q, target, kind) != {} {
      OnlyActive(q, target, kind, one);
    }
  }

  /** The job a source's enqueue leaves active. */
  function SourceJob(q: Queue, source: string, kind: string, id: string): string {
    var active := ActiveFor(q, Source(source), kind);
    if active == {} then id else Newest(q, active)
  }

  lemma SourceJobIsActive(
    q: Queue, source: string, kind: string, now: int, metadata: Option<int>, revision: Option<int>, id: string)
    requires id !in q
    ensures SourceJob(q, source, kind, id) in ActiveFor(EnqueueForSource(q, source, kind, now, metadata, revision, id),
            Source(source), kind)
  {
  }

  /** A source's enqueue leaves one active job of the kind, and a metadata revision it names is that job's. */
  lemma SourceEnqueueLeavesOne(
    q: Queue, source: string, kind: string, now: int, metadata: Option<int>, revision: Option<int>, id: string)
    requires Inv(q) && id !in q && !IsScan(kind)
    ensures var after, one := EnqueueForSource(q, source, kind, now, metadata, revision, id),
            SourceJob(q, source, kind, id);
            ActiveFor(after, Source(source), kind) == {one} && (one == id <==> ActiveFor(q, Source(source), kind) == {})
  {
    EnqueueForSourceKeepsInv(q, source, kind, now, metadata, revision, id);
    SourceJobIsActive(q, source, kind, now, metadata, revision, id);
    OnlyActive(
      EnqueueForSource(q, source, kind, now, metadata, revision, id), Source(source), kind,
        SourceJob(q, source, kind, id));
  }

  lemma SourceEnqueueWrites(
    q: Queue, source: string, kind: string, now: int, metadata: Option<int>, revision: Option<int>, id: string)
    requires id !in q
    ensures var after, one := EnqueueForSource(q, source, kind, now, metadata, revision, id),
            SourceJob(q, source, kind, id);
            && one in after && (metadata.Some? ==> after[one].metadataRevision == metadata)
            && forall other :: other in q && other != one ==> other in after && after[other] == q[other]
  {
  }

  /** The refresh that stays or becomes active: the one for the pair, else the new one. */
  function RefreshJob(q: Queue, source: string, pair: Pair, id: string): string {
    var active := ActiveFor(q, Source(source), REFRESH);
    if active != {} && q[Newest(q, active)].expected == Some(pair) then Newest(q, active) else id
  }

  lemma RefreshRows(q: Queue, source: string, pair: Pair, now: int, revision: Option<int>, id: string)
    requires Coalesced(q) && id !in q
    ensures var after, one := EnqueueRefresh(q, source, pair, now, revision, id), RefreshJob(q, source, pair, id);
            && one in ActiveFor(after, Source(source), REFRESH) && after[one].expected == Some(pair)
            && forall other :: other in q ==>
                 && other in after
                 && after[other] == if other in ActiveFor(q, Source(source), REFRESH) && other != one
                                    then q[other].(state := Superseded, nextAttempt := None) else q[other]
  {
    var active := ActiveFor(q, Source(source), REFRESH);
    if active != {} {
      OnlyActive(q, Source(source), REFRESH, Newest(q, active));
    }
  }

  /** Whatever was active, the source's one active refresh afterwards is for the confirmed pair. */
  lemma RefreshLeavesThePair(q: Queue, source: string, pair: Pair, now: int, revision: Option<int>, id: string)
    requires Inv(q) && id !in q
    ensures var after, one := EnqueueRefresh(q, source, pair, now, revision, id), RefreshJob(q, source, pair, id);
            && ActiveFor(after, Source(source), REFRESH) == {one} && after[one].expected == Some(pair)
            && (one == id <==> forall a :: a in ActiveFor(q, Source(source), REFRESH) ==> q[a].expected != Some(pair))
            && forall other :: other in q ==>
                 after[other] == if other in ActiveFor(q, Source(source), REFRESH) && other != one
                                 then q[other].(state := Superseded, nextAttempt := None) else q[other]
  {
    EnqueueRefreshKeepsInv(q, source, pair, now, revision, id);
    RefreshRows(q, source, pair, now, revision, id);
    var one := RefreshJob(q, source, pair, id);
    OnlyActive(EnqueueRefresh(q, source, pair, now, revision, id), Source(source), REFRESH, one);
    var active := ActiveFor(q, Source(source), REFRESH);
    if active != {} {
      OnlyActive(q, Source(source), REFRESH, Newest(q, active));
    }
  }

  /** Queueing for one record does not touch another. */
  lemma OtherTargetsKeepTheirs(q: Queue, target: Target, kind: string, now: int, id: string, other: Target)
    requires id !in q && target != Whole && other != Whole && other != target
    ensures ActiveFor(EnqueueOnce(q, target, kind, now, id), other, kind) == ActiveFor(q, other, kind)
  {
  }

  lemma {:induction false} BatchLeavesOtherRecords(
    q: Queue, records: seq<string>, times: map<string, int>, ids: seq<string>, n: nat, r: string)
    requires Inv(q) && FreshIds(q, ids, |records|) && n <= |records| && (forall r :: r in records ==> r in times)
    requires forall i :: 0 <= i < n ==> records[i] != r
    ensures ActiveFor(RefreshEach(q, records, times, ids, n), Record(r), SELECTION)
            == ActiveFor(q, Record(r), SELECTION)
    decreases n
  {
    if n > 0 {
      BatchLeavesOtherRecords(q, records, times, ids, n - 1, r);
      RefreshEachKeepsInv(q, records, times, ids, n - 1);
      OtherTargetsKeepTheirs(
        RefreshEach(q, records, times, ids, n - 1), Record(records[n - 1]), SELECTION, times[records[n - 1]],
          ids[n - 1], Record(r));
    }
  }

  /** When a batch reaches a record, neither its id nor its refreshes have been touched. */
  lemma NextRecordUntouched(q: Queue, records: seq<string>, times: map<string, int>, ids: seq<string>, n: nat)
    requires Inv(q) && FreshIds(q, ids, |records|) && NoDup(records) && n < |records|
    requires forall r :: r in records ==> r in times
    ensures var before := RefreshEach(q, records, times, ids, n);
            && ids[n] !in before
            && ActiveFor(before, Record(records[n]), SELECTION) == ActiveFor(q, Record(records[n]), SELECTION)
  {
    BatchLeavesOtherRecords(q, records, times, ids, n, records[n]);
    RefreshEachKeepsInv(q, records, times, ids, n);
  }

  /** The new row of one record of a batch, or its absence when the record had an active refresh. */
  ghost predicate BatchRow(q: Queue, after: Queue, record: string, time: int, id: string) {
    if ActiveFor(q, Record(record), SELECTION) == {}
    then id in after && after[id] == NewJob(Record(record), SELECTION, time) else id !in after
  }

  ghost predicate BatchRows(
    q: Queue, after: Queue, records: seq<string>, times: map<string, int>, ids: seq<string>, n: nat)
    requires n <= |records| == |ids| && forall r :: r in records ==> r in times
  {
    forall i :: 0 <= i < n ==> BatchRow(q, after, records[i], times[records[i]], ids[i])
  }

  lemma BatchRowStays(
    q: Queue, before: Queue, record: string, time: int, id: string, target: Target, now: int, other: string)
    requires BatchRow(q, before, record, time, id) && other != id
    ensures BatchRow(q, EnqueueOnce(before, target, SELECTION, now, other), record, time, id)
  {
  }

  lemma BatchRowMade(q: Queue, before: Queue, record: string, time: int, id: string)
    requires id !in before && ActiveFor(before, Record(record), SELECTION) == ActiveFor(q, Record(record), SELECTION)
    ensures BatchRow(q, EnqueueOnce(before, Record(record), SELECTION, time, id), record, time, id)
  {
  }

  lemma OneMoreRow(q: Queue, before: Queue, records: seq<string>, times: map<string, int>, ids: seq<string>, n: nat)
    requires FreshIds(q, ids, |records|) && n < |records| && forall r :: r in records ==> r in times
    requires BatchRows(q, before, records, times, ids, n) && ids[n] !in before
    requires ActiveFor(before, Record(records[n]), SELECTION) == ActiveFor(q, Record(records[n]), SELECTION)
    ensures BatchRows(q, EnqueueOnce(before, Record(records[n]), SELECTION, times[records[n]], ids[n]), records, times,
            ids, n + 1)
  {
    forall i | 0 <= i < n
      ensures BatchRow(
                q, EnqueueOnce(before, Record(records[n]), SELECTION, times[records[n]], ids[n]), records[i],
                  times[records[i]], ids[i])
    {
      BatchRowStays(q, before, records[i], times[records[i]], ids[i], Record(records[n]), times[records[n]], ids[n]);
    }
    BatchRowMade(q, before, records[n], times[records[n]], ids[n]);
  }

  /** The batch queues exactly the records without an active refresh, each under its own id and at its own time. */
  lemma {:induction false} BatchQueuesTheMissing(
    q: Queue, records: seq<string>, times: map<string, int>, ids: seq<string>, n: nat)
    requires Inv(q) && FreshIds(q, ids, |records|) && NoDup(records) && n <= |records|
    requires forall r :: r in records ==> r in times
    ensures BatchRows(q, RefreshEach(q, records, times, ids, n), records, times, ids, n)
    decreases n
  {
    if n > 0 {
      BatchQueuesTheMissing(q, records, times, ids, n - 1);
      NextRecordUntouched(q, records, times, ids, n - 1);
      OneMoreRow(q, RefreshEach(q, records, times, ids, n - 1), records, times, ids, n - 1);
    }
  }

  ghost predicate OnlyAdds(q: Queue, after: Queue, ids: seq<string>) {
    && (forall id :: id in q ==> id in after && after[id] == q[id])
    && (forall id :: id in after && id !in q ==> id in ids)
  }

  /** Nothing else in the table changes. */
  lemma {:induction false} BatchOnlyAdds(
    q: Queue, records: seq<string>, times: map<string, int>, ids: seq<string>, n: nat)
    requires Inv(q) && FreshIds(q, ids, |records|) && n <= |records| && forall r :: r in records ==> r in times
    ensures OnlyAdds(q, RefreshEach(q, records, times, ids, n), ids)
    decreases n
  {
    if n > 0 {
      BatchOnlyAdds(q, records, times, ids, n - 1);
      RefreshEachKeepsInv(q, records, times, ids, n - 1);
    }
  }

  ghost predicate OneFetchEach(q: Queue, blocked: seq<Job>, n: nat)
    requires n <= |blocked|
  {
    forall i :: 0 <= i < n && blocked[i].target.Record? ==> |ActiveFor(q, blocked[i].target, LYRICS)| == 1
  }

  lemma OneMoreFetch(q: Queue, blocked: seq<Job>, now: int, id: string, n: nat)
    requires Inv(q) && id !in q && n < |blocked| && OneFetchEach(q, blocked, n) && blocked[n].target.Record?
    ensures OneFetchEach(EnqueueOnce(q, blocked[n].target, LYRICS, now, id), blocked, n + 1)
  {
    EnqueueLeavesOne(q, blocked[n].target, LYRICS, now, id);
    forall i | 0 <= i < n && blocked[i].target.Record? && blocked[i].target != blocked[n].target
      ensures |ActiveFor(EnqueueOnce(q, blocked[n].target, LYRICS, now, id), blocked[i].target, LYRICS)| == 1
    {
      OtherTargetsKeepTheirs(q, blocked[n].target, LYRICS, now, id, blocked[i].target);
    }
  }

  /** Recovery touches no row, leaves each blocked record one active fetch, and creates it now, behind older work. */
  lemma {:induction false} RecoveryQueuesEachRecordOnce(q: Queue, blocked: seq<Job>, now: int, ids: seq<string>, n: nat)
    requires Inv(q) && FreshIds(q, ids, |blocked|) && n <= |blocked|
    ensures var after := RecoverEach(q, blocked, now, ids, n);
            && (forall id :: id in q ==> id in after && after[id] == q[id])
            && (forall id :: id in after && id !in q ==>
                  id in ids && after[id].target.Record? && after[id] == NewJob(after[id].target, LYRICS, now)
                  && ActiveFor(q, after[id].target, LYRICS) == {})
            && OneFetchEach(after, blocked, n)
    decreases n
  {
    if n > 0 {
      RecoveryQueuesEachRecordOnce(q, blocked, now, ids, n - 1);
      RecoverEachKeepsInv(q, blocked, now, ids, n - 1);
      var before, target := RecoverEach(q, blocked, now, ids, n - 1), blocked[n - 1].target;
      if target.Record? {
        EnqueueLeavesOne(before, target, LYRICS, now, ids[n - 1]);
        OneMoreFetch(before, blocked, now, ids[n - 1], n - 1);
        assert ActiveFor(q, target, LYRICS) <= ActiveFor(before, target, LYRICS);
      }
    }
  }
}
