/** What every run of the queue keeps: numbered attempts, one open attempt, one active job per key, closed history. */
module JobQueueSafety {
  import opened Wrappers
  import opened JobQueue

  // ---------------------------------------------------------------- attempts

  ghost predicate Numbered(j: Job) {
    forall i :: 0 <= i < |j.attempts| ==> j.attempts[i].number == i + 1
  }

  ghost predicate OnlyLastOpen(j: Job) {
    forall i :: 0 <= i < |j.attempts| && j.attempts[i].state == AttemptRunning ==> i == |j.attempts| - 1
  }

  /** A running job has an open attempt; a refresh that was superseded may still have one. */
  ghost predicate JobOk(j: Job) {
    && Numbered(j) && OnlyLastOpen(j)
    && (j.state == Running ==> HasOpenAttempt(j))
    && (HasOpenAttempt(j) ==> j.state == Running || j.state == Superseded)
  }

  lemma ClaimKeepsJob(j: Job, now: int, claimedAt: int, leaseAge: nat)
    requires JobOk(j) && Claimable(j, now, leaseAge)
    ensures JobOk(ClaimJob(j, claimedAt))
  {
  }

  /** Whatever a finish writes, attempts stay numbered and only the last can be open. */
  lemma FinishKeepsNumbers(j: Job, number: nat, outcome: Outcome, now: int)
    requires Numbered(j) && OnlyLastOpen(j) && 1 <= number <= |j.attempts|
    ensures Numbered(FinishJob(j, number, outcome, now)) && OnlyLastOpen(FinishJob(j, number, outcome, now))
  {
    var after := FinishJob(j, number, outcome, now);
    assert forall i :: 0 <= i < |j.attempts| && i != number - 1 ==> after.attempts[i] == j.attempts[i];
  }

  /**
     An open attempt goes on meaning a running or superseded job unless another attempt than the open
     one is finished.
   */
  lemma FinishKeepsJob(j: Job, number: nat, outcome: Outcome, now: int)
    requires JobOk(j) && 1 <= number <= |j.attempts|
    ensures JobOk(FinishJob(j, number, outcome, now)) <==>
            number == |j.attempts| || !HasOpenAttempt(j) || outcome.Obsolete?
  {
    var n := |j.attempts|;
    var after := FinishJob(j, number, outcome, now);
    FinishKeepsNumbers(j, number, outcome, now);
    if number < n {
      assert after.attempts[n - 1] == j.attempts[n - 1];
    }
  }

  // ---------------------------------------------------------------- one active job per key

  datatype Key = Key(target: Target, kind: string)

  function KeyOf(j: Job): Key {
    Key(if IsScan(j.kind) then Whole else j.target, j.kind)
  }

  ghost predicate Coalesced(q: Queue) {
    forall a, b :: a in q && b in q && Active(q[a]) && Active(q[b]) && KeyOf(q[a]) == KeyOf(q[b]) ==> a == b
  }

  /** A new row keeps the keys apart exactly when the query of its key finds nothing. */
  lemma InsertKeepsKeys(q: Queue, target: Target, kind: string, id: string, j: Job)
    requires Coalesced(q) && id !in q && Active(j)
    requires j.target == target && j.kind == kind && (IsScan(kind) <==> target == Whole)
    ensures Coalesced(q[id := j]) <==> ActiveFor(q, target, kind) == {}
  {
    var after := q[id := j];
    assert forall a :: a in q && Active(q[a]) && KeyOf(q[a]) == KeyOf(j) ==> a in ActiveFor(q, target, kind);
    if ActiveFor(q, target, kind) != {} {
      var a :| a in ActiveFor(q, target, kind);
      assert after[a] == q[a] && KeyOf(after[a]) == KeyOf(after[id]) && a != id;
    }
  }

  /** Changing one row keeps the keys apart when the row does not become active under another key. */
  lemma UpdateKeepsKeys(q: Queue, id: string, j: Job)
    requires Coalesced(q) && id in q && KeyOf(j) == KeyOf(q[id])
    requires Active(j) ==> Active(q[id])
    ensures Coalesced(q[id := j])
  {
  }

  /** Two active jobs of one key appear when a finish puts a job back that another has replaced. */
  lemma RetryKeepsKeys(q: Queue, id: string, number: nat, outcome: Outcome, now: int)
    requires Coalesced(q) && id in q && 1 <= number <= |q[id].attempts|
    ensures Coalesced(FinishEffect(q, id, number, outcome, now))
            <==> (outcome.Retry? && number < outcome.maxAttempts && !Active(q[id])
                  ==> forall other :: other in q && Active(q[other]) ==> KeyOf(q[other]) != KeyOf(q[id]))
  {
    var after := FinishEffect(q, id, number, outcome, now);
    assert KeyOf(after[id]) == KeyOf(q[id]);
    if outcome.Retry? && number < outcome.maxAttempts && !Active(q[id]) {
      if other :| other in q && Active(q[other]) && KeyOf(q[other]) == KeyOf(q[id]) {
        assert other != id && after[other] == q[other];
        assert Active(after[id]);
      }
    } else {
      UpdateKeepsKeys(q, id, after[id]);
    }
  }

  lemma RefreshSuperseded(
    q: Queue, source: string, first: string, pair: Pair, now: int, revision: Option<int>, id: string)
    requires Coalesced(q) && first in q && Active(q[first]) && id !in q
    requires q[first].target == Source(source) && q[first].kind == REFRESH && q[first].expected != Some(pair)
    ensures var job := NewJob(Source(source), REFRESH, now).(sourceRevision := revision, expected := Some(pair));
            EnqueueRefresh(q, source, pair, now, revision, id) == Superseding(q, first)[id := job]
  {
    var active := ActiveFor(q, Source(source), REFRESH);
    assert first in active;
    assert forall other :: other in active ==> KeyOf(q[other]) == KeyOf(q[first]);
    assert Newest(q, active) == first;
  }

  /**
     Such a job is a running refresh superseded by one for another pair: when its worker retries it after all,
     two refreshes of the source are active.
   */
  lemma LateRetryDoublesARefresh(
    q: Queue, source: string, first: string, pair: Pair, revision: Option<int>, id: string, outcome: Outcome, now: int)
    requires Coalesced(q) && first in q && q[first].state == Running && HasOpenAttempt(q[first]) && id !in q
    requires q[first].target == Source(source) && q[first].kind == REFRESH && q[first].expected != Some(pair)
    requires outcome.Retry? && |q[first].attempts| < outcome.maxAttempts
    ensures var after := EnqueueRefresh(q, source, pair, now, revision, id);
            && first in after && after[first].attempts == q[first].attempts
            && !Coalesced(FinishEffect(after, first, |q[first].attempts|, outcome, now))
  {
    RefreshSuperseded(q, source, first, pair, now, revision, id);
    var after := EnqueueRefresh(q, source, pair, now, revision, id);
    var last := FinishEffect(after, first, |q[first].attempts|, outcome, now);
    assert Active(last[id]) && Active(last[first]) && KeyOf(last[id]) == KeyOf(last[first]) && id != first;
  }

  // ---------------------------------------------------------------- every step keeps both

  ghost predicate Inv(q: Queue) {
    Coalesced(q) && forall id :: id in q ==> JobOk(q[id])
  }

  lemma ClaimKeepsInv(q: Queue, now: int, leaseAge: nat, filter: Filter, locked: set<string>)
    requires Inv(q)
    ensures Inv(ClaimEffect(q, now, leaseAge, filter, locked))
  {
    var next := NextClaim(q, now, leaseAge, filter, locked);
    if next.Some? {
      assert next.value in ClaimableIds(q, now, leaseAge, filter, locked);
      ClaimKeepsJob(q[next.value], now, now, leaseAge);
      UpdateKeepsKeys(q, next.value, ClaimJob(q[next.value], now));
    }
  }

  lemma FinishKeepsInv(q: Queue, id: string, number: nat, outcome: Outcome, now: int)
    requires Inv(q) && IsLatestClaim(q, id, number)
    ensures Inv(FinishEffect(q, id, number, outcome, now))
  {
    FinishKeepsJob(q[id], number, outcome, now);
    RetryKeepsKeys(q, id, number, outcome, now);
  }

  lemma InsertKeepsInv(q: Queue, target: Target, kind: string, id: string, j: Job)
    requires Inv(q) && id !in q && j.state == Queued && j.attempts == []
    requires j.target == target && j.kind == kind && (IsScan(kind) <==> target == Whole)
    requires ActiveFor(q, target, kind) == {}
    ensures Inv(q[id := j])
  {
    InsertKeepsKeys(q, target, kind, id, j);
  }

  lemma EnqueueOnceKeepsInv(q: Queue, target: Target, kind: string, now: int, id: string)
    requires Inv(q) && id !in q && (IsScan(kind) <==> target == Whole)
    ensures Inv(EnqueueOnce(q, target, kind, now, id))
  {
    if ActiveFor(q, target, kind) == {} {
      InsertKeepsInv(q, target, kind, id, NewJob(target, kind, now));
    }
  }

  lemma EnqueueForSourceKeepsInv(
    q: Queue, source: string, kind: string, now: int, metadata: Option<int>, revision: Option<int>, id: string)
    requires Inv(q) && id !in q && !IsScan(kind)
    ensures Inv(EnqueueForSource(q, source, kind, now, metadata, revision, id))
  {
    var active := ActiveFor(q, Source(source), kind);
    if active == {} {
      InsertKeepsInv(q, Source(source), kind, id,
        NewJob(Source(source), kind, now).(metadataRevision := metadata, sourceRevision := revision));
    } else if metadata.Some? {
      var found := Newest(q, active);
      UpdateKeepsKeys(q, found, q[found].(metadataRevision := metadata));
    }
  }

  /** With one active job per key, the job found is the only one. */
  lemma OnlyActive(q: Queue, target: Target, kind: string, id: string)
    requires Coalesced(q) && id in ActiveFor(q, target, kind) && (IsScan(kind) <==> target == Whole)
    ensures ActiveFor(q, target, kind) == {id}
  {
    forall other | other in ActiveFor(q, target, kind) ensures other == id {
      assert KeyOf(q[other]) == KeyOf(q[id]);
    }
  }

  lemma SupersedingKeepsInv(q: Queue, source: string, id: string)
    requires Inv(q) && id in ActiveFor(q, Source(source), REFRESH)
    ensures Inv(Superseding(q, id)) && ActiveFor(Superseding(q, id), Source(source), REFRESH) == {}
  {
    OnlyActive(q, Source(source), REFRESH, id);
    UpdateKeepsKeys(q, id, Superseding(q, id)[id]);
    assert forall other ::
      other in ActiveFor(Superseding(q, id), Source(source), REFRESH)
      ==> other in ActiveFor(q, Source(source), REFRESH);
  }

  lemma EnqueueRefreshKeepsInv(q: Queue, source: string, pair: Pair, now: int, revision: Option<int>, id: string)
    requires Inv(q) && id !in q
    ensures Inv(EnqueueRefresh(q, source, pair, now, revision, id))
  {
    var active := ActiveFor(q, Source(source), REFRESH);
    var job := NewJob(Source(source), REFRESH, now).(sourceRevision := revision, expected := Some(pair));
    if active == {} {
      InsertKeepsInv(q, Source(source), REFRESH, id, job);
    } else if q[Newest(q, active)].expected != Some(pair) {
      SupersedingKeepsInv(q, source, Newest(q, active));
      InsertKeepsInv(Superseding(q, Newest(q, active)), Source(source), REFRESH, id, job);
    }
  }

  lemma {:induction false} RefreshEachKeepsInv(
    q: Queue, records: seq<string>, times: map<string, int>, ids: seq<string>, n: nat)
    requires Inv(q) && FreshIds(q, ids, |records|) && n <= |records| && forall r :: r in records ==> r in times
    ensures Inv(RefreshEach(q, records, times, ids, n))
    ensures forall k :: n <= k < |ids| ==> ids[k] !in RefreshEach(q, records, times, ids, n)
    decreases n
  {
    if n > 0 {
      RefreshEachKeepsInv(q, records, times, ids, n - 1);
      EnqueueOnceKeepsInv(
        RefreshEach(q, records, times, ids, n - 1), Record(records[n - 1]), SELECTION, times[records[n - 1]],
          ids[n - 1]);
    }
  }

  lemma {:induction false} RecoverEachKeepsInv(q: Queue, blocked: seq<Job>, now: int, ids: seq<string>, n: nat)
    requires Inv(q) && FreshIds(q, ids, |blocked|) && n <= |blocked|
    ensures Inv(RecoverEach(q, blocked, now, ids, n))
    ensures forall k :: n <= k < |ids| ==> ids[k] !in RecoverEach(q, blocked, now, ids, n)
    decreases n
  {
    if n > 0 {
      RecoverEachKeepsInv(q, blocked, now, ids, n - 1);
      if blocked[n - 1].target.Record? {
        EnqueueOnceKeepsInv(RecoverEach(q, blocked, now, ids, n - 1), blocked[n - 1].target, LYRICS, now, ids[n - 1]);
      }
    }
  }

  lemma StepKeepsInv(q: Queue, op: Op)
    requires Inv(q) && Allowed(q, op)
    ensures Inv(Step(q, op))
  {
    match op
    case Claim(now, leaseAge, filter, locked) => ClaimKeepsInv(q, now, leaseAge, filter, locked);
    case Finish(id, number, outcome, now) => FinishKeepsInv(q, id, number, outcome, now);
    case Enqueue(target, kind, now, id) => EnqueueOnceKeepsInv(q, target, kind, now, id);
    case EnqueueSource(source, kind, now, metadata, revision, id) =>
      EnqueueForSourceKeepsInv(q, source, kind, now, metadata, revision, id);
    case EnqueueMusicbrainz(source, pair, now, revision, id) =>
      EnqueueRefreshKeepsInv(q, source, pair, now, revision, id);
    case EnqueueSelections(times, ids) => RefreshEachKeepsInv(q, SortedRecords(times), times, ids, |times|);
    case Recover(limit, now, ids) => RecoverEachKeepsInv(q, JobsOf(q, Blocked(q, limit)), now, ids, |ids|);
  }

  lemma {:induction false} RunKeepsInv(q: Queue, ops: seq<Op>)
    requires Inv(q) && IsRun(q, ops)
    ensures Inv(Run(q, ops))
    decreases |ops|
  {
    if ops != [] {
      StepKeepsInv(q, ops[0]);
      RunKeepsInv(Step(q, ops[0]), ops[1..]);
    }
  }
}
