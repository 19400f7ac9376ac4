/** The job table: claims, leases, numbered attempts, bounded retries and coalescing enqueues. */
module JobQueue {
  import opened Wrappers
  import opened Ordering

  datatype State = Queued | Running | Completed | Quarantined | BlockedInfrastructure | Superseded

  datatype AttemptState =
    AttemptRunning | AttemptSucceeded | AttemptQuarantined | AttemptRetryWait | AttemptBlocked | AttemptInterrupted

  datatype Attempt = Attempt(number: nat, state: AttemptState, startedAt: int, finishedAt: Option<int>)

  /** What a job works on; the two whole-library scans have no target row. */
  datatype Target = Source(id: string) | Record(id: string) | Release(id: string) | Folder(id: string) | Whole

  datatype Pair = Pair(recording: string, release: string)

  datatype Job = Job(
    target: Target, kind: string, state: State, createdAt: int, nextAttempt: Option<int>,
    failureReason: Option<string>, metadataRevision: Option<int>, sourceRevision: Option<int>,
    expected: Option<Pair>, attempts: seq<Attempt>)

  type Queue = map<string, Job>

  const SELECTION := "selection_refresh"
  const REFRESH := "musicbrainz_refresh"
  const LYRICS := "lrclib_fetch"
  const FOLDER := "folder_release_selection"
  const SCAN := "reconciliation_scan"
  const PUBLICATIONS := "publication_reconciliation"
  const ARTWORK := "artwork_enrichment"
  const OUTAGE := "ProcessingInfrastructureError: lrclib provider is unavailable"

  predicate Active(j: Job) {
    j.state == Queued || j.state == Running
  }

  predicate HasOpenAttempt(j: Job) {
    j.attempts != [] && j.attempts[|j.attempts| - 1].state == AttemptRunning
  }

  // ---------------------------------------------------------------- claims

  datatype Claimed = Claimed(job: string, attempt: nat, reclaimedStale: bool)

  datatype Filter = Filter(source: Option<string>, kinds: Option<set<string>>)

  predicate Passes(j: Job, filter: Filter) {
    && (filter.source.Some? ==> j.target == Source(filter.source.value))
    && (filter.kinds.Some? ==> j.kind in filter.kinds.value)
  }

  predicate StaleAttempt(a: Attempt, staleBefore: int) {
    a.state == AttemptRunning && a.startedAt <= staleBefore
  }

  predicate Claimable(j: Job, now: int, leaseAge: nat) {
    || (j.state == Queued && (j.nextAttempt.Some? ==> j.nextAttempt.value <= now))
    || (j.state == Running && exists i :: 0 <= i < |j.attempts| && StaleAttempt(j.attempts[i], now - leaseAge))
  }

  function Age(q: Queue): string -> seq<int> {
    id => (if id in q then [q[id].createdAt] else []) + Codes(id)
  }

  lemma AgeIsInjective(q: Queue, ids: set<string>)
    requires ids <= q.Keys
    ensures InjectiveOn(Age(q), ids)
  {
    forall x, y | x in ids && y in ids && Age(q)(x) == Age(q)(y) ensures x == y {
      assert Age(q)(x)[1..] == Codes(x) && Age(q)(y)[1..] == Codes(y);
      CodesInjective(x, y);
    }
  }

  /** Ids by creation time, equal times by id. */
  function OldestFirst(q: Queue, ids: set<string>): (r: seq<string>)
    requires ids <= q.Keys
    ensures forall id :: id in r <==> id in ids
    ensures |r| == |ids| && SortedBy(Age(q), r) && NoDup(r)
  {
    AgeIsInjective(q, ids);
    Ordered(Age(q), ids)
  }

  /** Rows another transaction holds are skipped. */
  function ClaimableIds(q: Queue, now: int, leaseAge: nat, filter: Filter, locked: set<string>): set<string> {
    set id | id in q && id !in locked && Claimable(q[id], now, leaseAge) && Passes(q[id], filter)
  }

  function NextClaim(q: Queue, now: int, leaseAge: nat, filter: Filter, locked: set<string>): Option<string> {
    var ids := ClaimableIds(q, now, leaseAge, filter, locked);
    if ids == {} then None else Some(OldestFirst(q, ids)[0])
  }

  function ClaimJob(j: Job, now: int): Job {
    var n := |j.attempts|;
    var past :=
      if j.state == Running && n > 0
      then j.attempts[..n - 1] + [j.attempts[n - 1].(state := AttemptInterrupted, finishedAt := Some(now))]
      else j.attempts;
    j.(state := Running, attempts := past + [Attempt(n + 1, AttemptRunning, now, None)])
  }

  function ClaimEffect(q: Queue, now: int, leaseAge: nat, filter: Filter, locked: set<string>): Queue {
    var next := NextClaim(q, now, leaseAge, filter, locked);
    if next.None? then q else q[next.value := ClaimJob(q[next.value], now)]
  }

  // ---------------------------------------------------------------- finishes

  /** How a claim ends; `Obsolete` is the worker's own end for a job of another revision. */
  datatype Outcome = Succeed | Quarantine | Retry(delay: int, maxAttempts: int, reason: string) | Obsolete

  function AttemptOutcome(number: nat, outcome: Outcome): AttemptState {
    match outcome
    case Succeed => AttemptSucceeded
    case Quarantine => AttemptQuarantined
    case Obsolete => AttemptSucceeded
    case Retry(_, max, _) => if number >= max then AttemptBlocked else AttemptRetryWait
  }

  /** A finish writes the claimed attempt and the job, whatever happened to them since the claim. */
  function FinishJob(j: Job, number: nat, outcome: Outcome, now: int): Job
    requires 1 <= number <= |j.attempts|
  {
    var done := j.attempts[number - 1].(state := AttemptOutcome(number, outcome), finishedAt := Some(now));
    var closed := j.(attempts := j.attempts[number - 1 := done]);
    match outcome
    case Succeed => closed.(state := Completed, nextAttempt := None)
    case Quarantine => closed.(state := Quarantined, nextAttempt := None)
    case Obsolete => closed.(state := Superseded, nextAttempt := None)
    case Retry(delay, max, reason) =>
      if number >= max
      then closed.(state := BlockedInfrastructure, nextAttempt := None, failureReason := Some(reason))
      else closed.(state := Queued, nextAttempt := Some(now + delay))
  }

  function FinishEffect(q: Queue, id: string, number: nat, outcome: Outcome, now: int): Queue
    requires id in q && 1 <= number <= |q[id].attempts|
  {
    q[id := FinishJob(q[id], number, outcome, now)]
  }

  // ---------------------------------------------------------------- enqueues

  /** The rows an enqueue looks for; the scans ask for the kind alone. */
  predicate Serves(j: Job, target: Target, kind: string) {
    j.kind == kind && (target == Whole || j.target == target)
  }

  function ActiveFor(q: Queue, target: Target, kind: string): set<string> {
    set id | id in q && Active(q[id]) && Serves(q[id], target, kind)
  }

  /** The latest of the rows found; rows of one creation time by id. */
  function Newest(q: Queue, ids: set<string>): (id: string)
    requires ids <= q.Keys && ids != {}
    ensures id in ids
  {
    OldestFirst(q, ids)[|ids| - 1]
  }

  function NewJob(target: Target, kind: string, now: int): Job {
    Job(target, kind, Queued, now, None, None, None, None, None, [])
  }

  function EnqueueOnce(q: Queue, target: Target, kind: string, now: int, id: string): Queue {
    if ActiveFor(q, target, kind) != {} then q else q[id := NewJob(target, kind, now)]
  }

  function EnqueueForSource(
    q: Queue, source: string, kind: string, now: int, metadata: Option<int>, revision: Option<int>, id: string): Queue
  {
    var active := ActiveFor(q, Source(source), kind);
    if active == {} then
      q[id := NewJob(Source(source), kind, now).(metadataRevision := metadata, sourceRevision := revision)]
    else if metadata.None? then q
    else
      var found := Newest(q, active);
      q[found := q[found].(metadataRevision := metadata)]
  }

  function Superseding(q: Queue, id: string): Queue
    requires id in q
  {
    q[id := q[id].(state := Superseded, nextAttempt := None)]
  }

  function EnqueueRefresh(q: Queue, source: string, pair: Pair, now: int, revision: Option<int>, id: string): Queue {
    var active := ActiveFor(q, Source(source), REFRESH);
    var job := NewJob(Source(source), REFRESH, now).(sourceRevision := revision, expected := Some(pair));
    if active == {} then q[id := job]
    else if q[Newest(q, active)].expected == Some(pair) then q
    else Superseding(q, Newest(q, active))[id := job]
  }

  /** One selection refresh for each of the first n records, at the record's own time. */
  function RefreshEach(q: Queue, records: seq<string>, times: map<string, int>, ids: seq<string>, n: nat): Queue
    requires n <= |records| == |ids| && forall r :: r in records ==> r in times
    decreases n
  {
    if n == 0 then q
    else
      var time := times[records[n - 1]];
      EnqueueOnce(RefreshEach(q, records, times, ids, n - 1), Record(records[n - 1]), SELECTION, time, ids[n - 1])
  }

  function SortedRecords(times: map<string, int>): (r: seq<string>)
    ensures forall id :: id in r <==> id in times
    ensures |r| == |times| && NoDup(r)
  {
    assert InjectiveOn((id: string) => Codes(id), times.Keys) by {
      forall x, y | x in times.Keys && y in times.Keys && Codes(x) == Codes(y) ensures x == y {
        CodesInjective(x, y);
      }
    }
    Ordered((id: string) => Codes(id), times.Keys)
  }

  function EnqueueRefreshes(q: Queue, times: map<string, int>, ids: seq<string>): Queue
    requires |ids| == |times|
  {
    RefreshEach(q, SortedRecords(times), times, ids, |times|)
  }

  predicate EndsWith(text: string, tail: string) {
    |text| >= |tail| && text[|text| - |tail|..] == tail
  }

  predicate Recoverable(j: Job) {
    && j.kind == LYRICS && j.state == BlockedInfrastructure
    && j.failureReason.Some? && EndsWith(j.failureReason.value, OUTAGE)
  }

  function RecoverableIds(q: Queue): set<string> {
    set id | id in q && Recoverable(q[id])
  }

  function Blocked(q: Queue, limit: nat): (r: seq<string>)
    ensures forall id :: id in r ==> id in q && Recoverable(q[id])
  {
    Take(OldestFirst(q, RecoverableIds(q)), limit)
  }

  /** One lyric fetch for each record among the first n blocked jobs. */
  function RecoverEach(q: Queue, blocked: seq<Job>, now: int, ids: seq<string>, n: nat): Queue
    requires n <= |ids| == |blocked|
    decreases n
  {
    if n == 0 then q
    else
      var before := RecoverEach(q, blocked, now, ids, n - 1);
      if blocked[n - 1].target.Record? then EnqueueOnce(before, blocked[n - 1].target, LYRICS, now, ids[n - 1])
        else before
  }

  function JobsOf(q: Queue, ids: seq<string>): seq<Job>
    requires forall id :: id in ids ==> id in q
  {
    seq(|ids|, i requires 0 <= i < |ids| => q[ids[i]])
  }

  function RecoverEffect(q: Queue, limit: nat, now: int, ids: seq<string>): Queue
    requires |ids| == |Blocked(q, limit)|
  {
    RecoverEach(q, JobsOf(q, Blocked(q, limit)), now, ids, |ids|)
  }

  // ---------------------------------------------------------------- runs

  datatype Op =
    | Claim(now: int, leaseAge: nat, filter: Filter, locked: set<string>)
    | Finish(job: string, attempt: nat, outcome: Outcome, now: int)
    | Enqueue(target: Target, kind: string, now: int, id: string)
    | EnqueueSource(source: string, kind: string, now: int, metadata: Option<int>, revision: Option<int>, id: string)
    | EnqueueMusicbrainz(source: string, pair: Pair, now: int, revision: Option<int>, id: string)
    | EnqueueSelections(times: map<string, int>, ids: seq<string>)
    | Recover(limit: nat, now: int, ids: seq<string>)

  predicate IsScan(kind: string) {
    kind == SCAN || kind == PUBLICATIONS
  }

  predicate FreshIds(q: Queue, ids: seq<string>, n: nat) {
    |ids| == n && (forall i :: 0 <= i < n ==> ids[i] !in q) && forall i, k :: 0 <= i < k < n ==> ids[i] != ids[k]
  }

  /** The latest claim of a job that still runs. */
  predicate IsLatestClaim(q: Queue, id: string, number: nat) {
    id in q && q[id].state == Running && number == |q[id].attempts| && number > 0
  }

  /**
   New ids are new, the two scans are the only jobs without a target, and a claim is finished
   while it is the latest one of a running job.
   */
  predicate Allowed(q: Queue, op: Op) {
    match op
    case Claim(_, _, _, _) => true
    case Finish(id, number, _, _) => IsLatestClaim(q, id, number)
    case Enqueue(target, kind, _, id) => id !in q && (IsScan(kind) <==> target == Whole)
    case EnqueueSource(_, kind, _, _, _, id) => id !in q && !IsScan(kind)
    case EnqueueMusicbrainz(_, _, _, _, id) => id !in q
    case EnqueueSelections(times, ids) => FreshIds(q, ids, |times|)
    case Recover(limit, _, ids) => FreshIds(q, ids, |Blocked(q, limit)|)
  }

  function Step(q: Queue, op: Op): Queue
    requires Allowed(q, op)
  {
    match op
    case Claim(now, leaseAge, filter, locked) => ClaimEffect(q, now, leaseAge, filter, locked)
    case Finish(id, number, outcome, now) => FinishEffect(q, id, number, outcome, now)
    case Enqueue(target, kind, now, id) => EnqueueOnce(q, target, kind, now, id)
    case EnqueueSource(source, kind, now, metadata, revision, id) =>
      EnqueueForSource(q, source, kind, now, metadata, revision, id)
    case EnqueueMusicbrainz(source, pair, now, revision, id) => EnqueueRefresh(q, source, pair, now, revision, id)
    case EnqueueSelections(times, ids) => EnqueueRefreshes(q, times, ids)
    case Recover(limit, now, ids) => RecoverEffect(q, limit, now, ids)
  }

  predicate IsRun(q: Queue, ops: seq<Op>)
    decreases |ops|
  {
    ops == [] || (Allowed(q, ops[0]) && IsRun(Step(q, ops[0]), ops[1..]))
  }

  function Run(q: Queue, ops: seq<Op>): Queue
    requires IsRun(q, ops)
    decreases |ops|
  {
    if ops == [] then q else Run(Step(q, ops[0]), ops[1..])
  }
}
