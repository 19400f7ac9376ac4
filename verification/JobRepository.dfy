/** The repository object: its operations on the rows, one committed transaction each. */
module JobRepository {
  import opened Wrappers
  import opened Ordering
  import opened JobQueue
  import opened JobQueueSafety
  import opened JobQueueRuns
  import opened JobMeaning

  datatype Recovery = Recovery(selected: nat, recovered: nat)

  /** Rows an operation added. */
  function Added(before: Queue, after: Queue): set<string> {
    set id | id in after && id !in before
  }

  lemma OneMoreRefresh(q: Queue, records: seq<string>, times: map<string, int>, ids: seq<string>, i: nat)
    requires Inv(q) && FreshIds(q, ids, |records|) && NoDup(records) && i < |records|
    requires forall r :: r in records ==> r in times
    ensures var before := RefreshEach(q, records, times, ids, i);
            && ids[i] !in before && q.Keys <= before.Keys
            && RefreshEach(q, records, times, ids, i + 1)
               == if ActiveFor(q, Record(records[i]), SELECTION) != {} then before
                  else before[ids[i] := NewJob(Record(records[i]), SELECTION, times[records[i]])]
  {
    NextRecordUntouched(q, records, times, ids, i);
    RefreshEachExtends(q, records, times, ids, i);
  }

  lemma OneMoreAdded(was: Queue, before: Queue, id: string, j: Job)
    requires was.Keys <= before.Keys && id !in before
    ensures Added(was, before[id := j]) == Added(was, before) + {id} && id !in Added(was, before)
  {
  }

  /** The ids a batch uses up: those of records without an active refresh. */
  function MissingIds(q: Queue, records: seq<string>, ids: seq<string>, n: nat): seq<string>
    requires n <= |records| == |ids|
  {
    if n == 0 then []
    else
      MissingIds(q, records, ids, n - 1)
      + if ActiveFor(q, Record(records[n - 1]), SELECTION) == {} then [ids[n - 1]] else []
  }

  lemma {:induction false} MissingMembers(q: Queue, records: seq<string>, ids: seq<string>, n: nat, id: string)
    requires n <= |records| == |ids|
    ensures id in MissingIds(q, records, ids, n) <==>
            exists i :: 0 <= i < n && ids[i] == id && ActiveFor(q, Record(records[i]), SELECTION) == {}
    decreases n
  {
    if n > 0 {
      MissingMembers(q, records, ids, n - 1, id);
    }
  }

  /** A plain refresh of a record of the batch, at the record's own time, which none covered before. */
  ghost predicate IsBatchRow(q: Queue, j: Job, times: map<string, int>) {
    && j.target.Record? && j.target.id in times
    && IsPlain(j, j.target, "selection_refresh", times[j.target.id])
    && forall other :: !Covers(q, other, j.target, "selection_refresh")
  }

  lemma BatchAddsRow(q: Queue, records: seq<string>, times: map<string, int>, ids: seq<string>, id: string)
    requires Inv(q) && FreshIds(q, ids, |records|) && NoDup(records) && forall r :: r in records ==> r in times
    requires id !in q
    ensures var after := RefreshEach(q, records, times, ids, |records|);
            && (id in after <==> id in MissingIds(q, records, ids, |records|))
            && (id in after ==> id in ids && IsBatchRow(q, after[id], times))
  {
    var after := RefreshEach(q, records, times, ids, |records|);
    BatchOnlyAdds(q, records, times, ids, |records|);
    BatchQueuesTheMissing(q, records, times, ids, |records|);
    MissingMembers(q, records, ids, |records|, id);
    forall i | 0 <= i < |records|
      ensures BatchRow(q, after, records[i], times[records[i]], ids[i])
      ensures ActiveFor(q, Record(records[i]), SELECTION) == {} <==>
              forall other :: !Covers(q, other, Record(records[i]), "selection_refresh")
    {
      CoversMeans(q, Record(records[i]), SELECTION);
    }
  }

  lemma BatchCovers(q: Queue, records: seq<string>, times: map<string, int>, ids: seq<string>, record: string)
    requires Inv(q) && FreshIds(q, ids, |records|) && NoDup(records) && forall r :: r in records ==> r in times
    requires record in records
    ensures exists id :: Covers(RefreshEach(q, records, times, ids, |records|), id, Record(record), "selection_refresh")
  {
    var after := RefreshEach(q, records, times, ids, |records|);
    BatchOnlyAdds(q, records, times, ids, |records|);
    BatchQueuesTheMissing(q, records, times, ids, |records|);
    var i :| 0 <= i < |records| && records[i] == record;
    assert BatchRow(q, after, records[i], times[records[i]], ids[i]);
    if ActiveFor(q, Record(record), SELECTION) == {} {
      assert Covers(after, ids[i], Record(record), "selection_refresh");
    } else {
      var id :| id in ActiveFor(q, Record(record), SELECTION);
      assert Covers(after, id, Record(record), "selection_refresh");
    }
  }

  /** A plain fetch of now for the record of a blocked job, which none covered before. */
  ghost predicate IsRecovered(q: Queue, j: Job, now: int) {
    && j.target.Record? && IsPlain(j, j.target, "lrclib_fetch", now)
    && forall other :: !Covers(q, other, j.target, "lrclib_fetch")
  }

  lemma {:induction false} RecoveredTargets(q: Queue, blocked: seq<Job>, now: int, ids: seq<string>, n: nat, id: string)
    requires n <= |ids| == |blocked| && id !in q && id in RecoverEach(q, blocked, now, ids, n)
    ensures exists i :: 0 <= i < n && blocked[i].target == RecoverEach(q, blocked, now, ids, n)[id].target
    decreases n
  {
    if n > 0 && id in RecoverEach(q, blocked, now, ids, n - 1) {
      RecoveredTargets(q, blocked, now, ids, n - 1, id);
    }
  }

  lemma RecoveryAddsRow(q: Queue, limit: nat, now: int, ids: seq<string>, id: string)
    requires Inv(q) && FreshIds(q, ids, |Blocked(q, limit)|) && id !in q && id in RecoverEffect(q, limit, now, ids)
    ensures var j := RecoverEffect(q, limit, now, ids)[id];
            && id in ids && IsRecovered(q, j, now)
            && exists b :: InBatch(q, limit, b) && q[b].target == j.target
  {
    var blocked := JobsOf(q, Blocked(q, limit));
    var j := RecoverEffect(q, limit, now, ids)[id];
    RecoveryQueuesEachRecordOnce(q, blocked, now, ids, |ids|);
    CoversMeans(q, j.target, LYRICS);
    RecoveredTargets(q, blocked, now, ids, |ids|, id);
    var i :| 0 <= i < |ids| && blocked[i].target == j.target;
    assert Blocked(q, limit)[i] in Blocked(q, limit);
    BlockedMeans(q, limit, Blocked(q, limit)[i]);
  }

  lemma RecoveryCovers(q: Queue, limit: nat, now: int, ids: seq<string>, b: string)
    requires Inv(q) && FreshIds(q, ids, |Blocked(q, limit)|) && InBatch(q, limit, b) && q[b].target.Record?
    ensures exists id :: Covers(RecoverEffect(q, limit, now, ids), id, q[b].target, "lrclib_fetch")
  {
    var blocked := JobsOf(q, Blocked(q, limit));
    RecoveryQueuesEachRecordOnce(q, blocked, now, ids, |ids|);
    BlockedMeans(q, limit, b);
    var i :| 0 <= i < |Blocked(q, limit)| && Blocked(q, limit)[i] == b;
    assert blocked[i] == q[b];
    CoversMeans(RecoverEffect(q, limit, now, ids), q[b].target, LYRICS);
    assert |ActiveFor(RecoverEffect(q, limit, now, ids), q[b].target, LYRICS)| == 1;
  }

  /** The records among the first n blocked jobs. */
  function TargetsBefore(blocked: seq<Job>, n: nat): set<Target>
    requires n <= |blocked|
  {
    if n == 0 then {}
    else TargetsBefore(blocked, n - 1) + if blocked[n - 1].target.Record? then {blocked[n - 1].target} else {}
  }

  lemma {:induction false} TriedBefore(blocked: seq<Job>, n: nat, target: Target) returns (k: nat)
    requires n <= |blocked| && target in TargetsBefore(blocked, n)
    ensures k < n && blocked[k].target == target
  {
    if blocked[n - 1].target == target {
      k := n - 1;
    } else {
      k := TriedBefore(blocked, n - 1, target);
    }
  }

  /** One step of a recovery, for a record tried before or not. */
  lemma OneMoreRecovery(q: Queue, blocked: seq<Job>, now: int, ids: seq<string>, i: nat)
    requires Inv(q) && FreshIds(q, ids, |blocked|) && i < |blocked|
    ensures var before, target := RecoverEach(q, blocked, now, ids, i), blocked[i].target;
            && Inv(before) && ids[i] !in before
            && TargetsBefore(blocked, i + 1) == TargetsBefore(blocked, i) + (if target.Record? then {target} else {})
            && RecoverEach(q, blocked, now, ids, i + 1)
               == if target.Record? && target !in TargetsBefore(blocked, i)
                  then EnqueueOnce(before, target, LYRICS, now, ids[i]) else before
  {
    RecoverEachKeepsInv(q, blocked, now, ids, i);
    RecoveryQueuesEachRecordOnce(q, blocked, now, ids, i);
    if blocked[i].target in TargetsBefore(blocked, i) {
      var k := TriedBefore(blocked, i, blocked[i].target);
    }
  }

  lemma AddedOnce(q: Queue, before: Queue, target: Target, now: int, id: string)
    requires id !in before && forall other :: other in q ==> other in before
    ensures |Added(q, EnqueueOnce(before, target, LYRICS, now, id))|
            == |Added(q, before)| + if ActiveFor(before, target, LYRICS) == {} then 1 else 0
  {
    OneMoreAdded(q, before, id, NewJob(target, LYRICS, now));
  }

  class Repository {
    var jobs: Queue
    const revisions: map<string, int>

    constructor (jobs: Queue, revisions: map<string, int>)
      ensures this.jobs == jobs && this.revisions == revisions
    {
      this.jobs, this.revisions := jobs, revisions;
    }

    function Revision(source: string): Option<int> {
      if source in revisions then Some(revisions[source]) else None
    }

    method ClaimFrom(candidate: Option<string>, now: int) returns (r: Option<Claimed>)
      requires candidate.Some? ==> candidate.value in jobs
      modifies this
      ensures candidate.None? ==> r.None? && jobs == old(jobs)
      ensures candidate.Some? ==>
                var id, job := candidate.value, old(jobs)[candidate.value];
                && jobs == old(jobs)[id := ClaimJob(job, now)]
                && r == Some(Claimed(id, |job.attempts| + 1, job.state == Running && job.attempts != []))
    {
      if candidate.None? {
        return None;
      }
      var id := candidate.value;
      var attempts := jobs[id].attempts;
      var n, reclaimed := |attempts|, false;
      if jobs[id].state == Running && n > 0 {
        attempts := attempts[..n - 1] + [attempts[n - 1].(state := AttemptInterrupted, finishedAt := Some(now))];
        reclaimed := true;
      }
      jobs := jobs[id := jobs[id].(state := Running)];
      jobs := jobs[id := jobs[id].(attempts := attempts + [Attempt(n + 1, AttemptRunning, now, None)])];
      r := Some(Claimed(id, n + 1, reclaimed));
    }

    method ClaimNext(
      now: int, leaseAge: nat, kinds: Option<set<string>>, locked: set<string>) returns (r: Option<Claimed>)
      requires Inv(jobs)
      modifies this
      ensures ClaimsFirst(old(jobs), jobs, now, leaseAge, Filter(None, kinds), locked, r)
      ensures Inv(jobs) && jobs == ClaimEffect(old(jobs), now, leaseAge, Filter(None, kinds), locked)
      ensures r.None? <==> ClaimableIds(old(jobs), now, leaseAge, Filter(None, kinds), locked) == {}
      ensures r.Some? ==> IsLatestClaim(jobs, r.value.job, r.value.attempt)
                          && (r.value.reclaimedStale <==> old(jobs)[r.value.job].state == Running)
    {
      r := ClaimWith(now, leaseAge, Filter(None, kinds), locked);
    }

    method ClaimNextForSource(source: string, now: int, leaseAge: nat, kinds: Option<set<string>>, locked: set<string>)
      returns (r: Option<Claimed>)
      requires Inv(jobs)
      modifies this
      ensures ClaimsFirst(old(jobs), jobs, now, leaseAge, Filter(Some(source), kinds), locked, r)
      ensures Inv(jobs) && jobs == ClaimEffect(old(jobs), now, leaseAge, Filter(Some(source), kinds), locked)
      ensures r.None? <==> ClaimableIds(old(jobs), now, leaseAge, Filter(Some(source), kinds), locked) == {}
      ensures r.Some? ==>
              IsLatestClaim(jobs, r.value.job, r.value.attempt)
              && jobs[r.value.job].target == Source(source)
                          && (r.value.reclaimedStale <==> old(jobs)[r.value.job].state == Running)
    {
      ClaimIsOldest(jobs, now, leaseAge, Filter(Some(source), kinds), locked);
      r := ClaimWith(now, leaseAge, Filter(Some(source), kinds), locked);
    }

    method ClaimWith(now: int, leaseAge: nat, filter: Filter, locked: set<string>) returns (r: Option<Claimed>)
      requires Inv(jobs)
      modifies this
      ensures ClaimsFirst(old(jobs), jobs, now, leaseAge, filter, locked, r)
      ensures Inv(jobs) && jobs == ClaimEffect(old(jobs), now, leaseAge, filter, locked)
      ensures r.None? <==> ClaimableIds(old(jobs), now, leaseAge, filter, locked) == {}
      ensures r.Some? ==> Some(r.value.job) == NextClaim(old(jobs), now, leaseAge, filter, locked)
      ensures r.Some? ==> r.value.job in old(jobs) && IsLatestClaim(jobs, r.value.job, r.value.attempt)
                          && (r.value.reclaimedStale <==> old(jobs)[r.value.job].state == Running)
    {
      ClaimIsOldest(jobs, now, leaseAge, filter, locked);
      ClaimKeepsInv(jobs, now, leaseAge, filter, locked);
      NextClaimMeans(jobs, now, leaseAge, filter, locked);
      if NextClaim(jobs, now, leaseAge, filter, locked).Some? {
        ClaimedJobIs(jobs[NextClaim(jobs, now, leaseAge, filter, locked).value], now);
      }
      r := ClaimFrom(NextClaim(jobs, now, leaseAge, filter, locked), now);
    }

    method Succeed(claimed: Claimed, now: int)
      requires IsClaim(claimed)
      modifies this
      ensures Ends(old(jobs), jobs, claimed, Completed, AttemptSucceeded, now)
      ensures jobs == FinishEffect(old(jobs), claimed.job, claimed.attempt, Outcome.Succeed, now)
      ensures old(Inv(jobs) && IsLatestClaim(jobs, claimed.job, claimed.attempt)) ==> Inv(jobs)
    {
      if Inv(jobs) && IsLatestClaim(jobs, claimed.job, claimed.attempt) {
        FinishKeepsInv(jobs, claimed.job, claimed.attempt, Outcome.Succeed, now);
      }
      CloseAttempt(claimed, AttemptSucceeded, now);
      jobs := jobs[claimed.job := jobs[claimed.job].(state := Completed, nextAttempt := None)];
    }

    method QuarantineJob(claimed: Claimed, now: int)
      requires IsClaim(claimed)
      modifies this
      ensures Ends(old(jobs), jobs, claimed, Quarantined, AttemptQuarantined, now)
      ensures jobs == FinishEffect(old(jobs), claimed.job, claimed.attempt, Quarantine, now)
      ensures old(Inv(jobs) && IsLatestClaim(jobs, claimed.job, claimed.attempt)) ==> Inv(jobs)
    {
      if Inv(jobs) && IsLatestClaim(jobs, claimed.job, claimed.attempt) {
        FinishKeepsInv(jobs, claimed.job, claimed.attempt, Quarantine, now);
      }
      CloseAttempt(claimed, AttemptQuarantined, now);
      jobs := jobs[claimed.job := jobs[claimed.job].(state := Quarantined, nextAttempt := None)];
    }

    method RetryJob(claimed: Claimed, now: int, delay: int, maxAttempts: int, reason: string)
      requires IsClaim(claimed)
      modifies this
      ensures claimed.attempt < maxAttempts ==>
                && Closes(old(jobs), jobs, claimed, AttemptRetryWait, now)
                && jobs[claimed.job].state == Queued && jobs[claimed.job].nextAttempt == Some(now + delay)
                && jobs[claimed.job].failureReason == old(jobs)[claimed.job].failureReason
      ensures claimed.attempt >= maxAttempts ==>
                && Closes(old(jobs), jobs, claimed, AttemptBlocked, now)
                && jobs[claimed.job].state == BlockedInfrastructure && jobs[claimed.job].nextAttempt == None
                && jobs[claimed.job].failureReason == Some(reason)
      ensures jobs == FinishEffect(old(jobs), claimed.job, claimed.attempt, Retry(delay, maxAttempts, reason), now)
      ensures old(Inv(jobs) && IsLatestClaim(jobs, claimed.job, claimed.attempt)) ==> Inv(jobs)
    {
      if Inv(jobs) && IsLatestClaim(jobs, claimed.job, claimed.attempt) {
        FinishKeepsInv(jobs, claimed.job, claimed.attempt, Retry(delay, maxAttempts, reason), now);
      }
      if claimed.attempt >= maxAttempts {
        jobs := jobs[claimed.job := jobs[claimed.job].(failureReason := Some(reason))];
        CloseAttempt(claimed, AttemptBlocked, now);
        jobs := jobs[claimed.job := jobs[claimed.job].(state := BlockedInfrastructure, nextAttempt := None)];
        return;
      }
      CloseAttempt(claimed, AttemptRetryWait, now);
      jobs := jobs[claimed.job := jobs[claimed.job].(state := Queued, nextAttempt := Some(now + delay))];
    }

    predicate IsClaim(claimed: Claimed)
      reads this
    {
      claimed.job in jobs && 1 <= claimed.attempt <= |jobs[claimed.job].attempts|
    }

    method CloseAttempt(claimed: Claimed, state: AttemptState, now: int)
      requires IsClaim(claimed)
      modifies this
      ensures var j, k := old(jobs)[claimed.job], claimed.attempt - 1;
              jobs == old(jobs)[claimed.job :=
                j.(attempts := j.attempts[k := j.attempts[k].(state := state, finishedAt := Some(now))])]
    {
      var j, k := jobs[claimed.job], claimed.attempt - 1;
      var finished := j.attempts[k].(state := state, finishedAt := Some(now));
      jobs := jobs[claimed.job := j.(attempts := j.attempts[k := finished])];
    }

    /** The shape shared by the enqueues that only look for an active job and insert one. */
    method InsertUnlessActive(target: Target, kind: string, now: int, id: string) returns (created: Option<string>)
      requires id !in jobs
      modifies this
      ensures jobs == EnqueueOnce(old(jobs), target, kind, now, id)
      ensures created == if ActiveFor(old(jobs), target, kind) == {} then Some(id) else None
      ensures AddsOnce(old(jobs), jobs, target, kind, now, id, created)
    {
      EnqueueOnceMeans(jobs, target, kind, now, id);
      if ActiveFor(jobs, target, kind) != {} {
        return None;
      }
      jobs := jobs[id := NewJob(target, kind, now)];
      created := Some(id);
    }

    method EnqueueSelectionRefresh(record: string, now: int, id: string) returns (created: Option<string>)
      requires Inv(jobs) && id !in jobs
      modifies this
      ensures AddsOnce(old(jobs), jobs, Record(record), "selection_refresh", now, id, created)
      ensures Inv(jobs) && |ActiveFor(jobs, Record(record), SELECTION)| == 1
      ensures jobs == EnqueueOnce(old(jobs), Record(record), SELECTION, now, id)
      ensures created.None? <==> jobs == old(jobs)
    {
      EnqueueOnceKeepsInv(jobs, Record(record), SELECTION, now, id);
      EnqueueLeavesOne(jobs, Record(record), SELECTION, now, id);
      created := InsertUnlessActive(Record(record), SELECTION, now, id);
    }

    method EnqueueLrclibFetch(record: string, now: int, id: string) returns (created: Option<string>)
      requires Inv(jobs) && id !in jobs
      modifies this
      ensures AddsOnce(old(jobs), jobs, Record(record), "lrclib_fetch", now, id, created)
      ensures Inv(jobs) && |ActiveFor(jobs, Record(record), LYRICS)| == 1
      ensures jobs == EnqueueOnce(old(jobs), Record(record), LYRICS, now, id)
      ensures created == if ActiveFor(old(jobs), Record(record), LYRICS) == {} then Some(id) else None
    {
      EnqueueOnceKeepsInv(jobs, Record(record), LYRICS, now, id);
      EnqueueLeavesOne(jobs, Record(record), LYRICS, now, id);
      created := InsertUnlessActive(Record(record), LYRICS, now, id);
    }

    method EnqueueFolderReleaseSelection(folder: string, now: int, id: string) returns (created: Option<string>)
      requires Inv(jobs) && id !in jobs
      modifies this
      ensures AddsOnce(old(jobs), jobs, Folder(folder), "folder_release_selection", now, id, created)
      ensures Inv(jobs) && |ActiveFor(jobs, Folder(folder), FOLDER)| == 1
      ensures jobs == EnqueueOnce(old(jobs), Folder(folder), FOLDER, now, id)
      ensures created.None? <==> jobs == old(jobs)
    {
      EnqueueOnceKeepsInv(jobs, Folder(folder), FOLDER, now, id);
      EnqueueLeavesOne(jobs, Folder(folder), FOLDER, now, id);
      created := InsertUnlessActive(Folder(folder), FOLDER, now, id);
    }

    method EnqueueReleaseArtwork(release: string, now: int, id: string) returns (created: Option<string>)
      requires Inv(jobs) && id !in jobs
      modifies this
      ensures AddsOnce(old(jobs), jobs, Release(release), "artwork_enrichment", now, id, created)
      ensures Inv(jobs) && |ActiveFor(jobs, Release(release), ARTWORK)| == 1
      ensures jobs == EnqueueOnce(old(jobs), Release(release), ARTWORK, now, id)
      ensures created.None? <==> jobs == old(jobs)
    {
      EnqueueOnceKeepsInv(jobs, Release(release), ARTWORK, now, id);
      EnqueueLeavesOne(jobs, Release(release), ARTWORK, now, id);
      created := InsertUnlessActive(Release(release), ARTWORK, now, id);
    }

    /** The two scans answer with the job that will do the work, new or not. */
    method EnqueueScan(kind: string, now: int, id: string) returns (job: string, created: bool)
      requires Inv(jobs) && id !in jobs
      requires kind == "reconciliation_scan" || kind == "publication_reconciliation"
      modifies this
      ensures Inv(jobs) && jobs == EnqueueOnce(old(jobs), Whole, kind, now, id)
      ensures ActiveFor(jobs, Whole, kind) == {job}
      ensures created <==> job == id
      ensures AddsOnce(old(jobs), jobs, Whole, kind, now, id, if created then Some(id) else None)
      ensures Covers(jobs, job, Whole, kind)
    {
      EnqueueOnceMeans(jobs, Whole, kind, now, id);
      EnqueueOnceKeepsInv(jobs, Whole, kind, now, id);
      var active := ActiveFor(jobs, Whole, kind);
      if active != {} {
        job, created := Newest(jobs, active), false;
        OnlyActive(jobs, Whole, kind, job);
        return;
      }
      jobs := jobs[id := NewJob(Whole, kind, now)];
      job, created := id, true;
      assert id in ActiveFor(jobs, Whole, kind);
      OnlyActive(jobs, Whole, kind, id);
    }

    method Enqueue(
      source: string, kind: string, now: int, metadata: Option<int>, id: string) returns (created: Option<string>)
      requires id !in jobs
      modifies this
      ensures jobs == EnqueueForSource(old(jobs), source, kind, now, metadata, Revision(source), id)
      ensures created == if ActiveFor(old(jobs), Source(source), kind) == {} then Some(id) else None
      ensures created == None <==> exists other :: Covers(old(jobs), other, Source(source), kind)
      ensures created == Some(id) ==>
                jobs == old(jobs)[id := Job(
                  Source(source), kind, Queued, now, None, None, metadata,
                  if source in revisions then Some(revisions[source]) else None, None, [])]
      ensures created == None && metadata == None ==> jobs == old(jobs)
      ensures created == None && metadata != None ==> exists last ::
                && IsLastCover(old(jobs), last, Source(source), kind)
                && jobs == old(jobs)[last := old(jobs)[last].(metadataRevision := metadata)]
    {
      CoversMeans(jobs, Source(source), kind);
      var active := ActiveFor(jobs, Source(source), kind);
      if active != {} {
        NewestMeans(jobs, Source(source), kind);
        if metadata.Some? {
          var found := Newest(jobs, active);
          jobs := jobs[found := jobs[found].(metadataRevision := metadata)];
        }
        return None;
      }
      var job := NewJob(Source(source), kind, now).(metadataRevision := metadata, sourceRevision := Revision(source));
      jobs := jobs[id := job];
      created := Some(id);
    }

    method EnqueueMusicbrainzRefresh(source: string, pair: Pair, now: int, id: string) returns (created: Option<string>)
      requires Inv(jobs) && id !in jobs
      modifies this
      ensures Inv(jobs) && jobs == EnqueueRefresh(old(jobs), source, pair, now, Revision(source), id)
      ensures created.None? <==> exists a ::
              a in ActiveFor(old(jobs), Source(source), REFRESH)
              && old(jobs)[a].expected == Some(pair)
      ensures created == None ==>
                && jobs == old(jobs)
                && exists a :: Covers(jobs, a, Source(source), "musicbrainz_refresh") && jobs[a].expected == Some(pair)
      ensures created != None ==>
                && created == Some(id) && jobs.Keys == old(jobs).Keys + {id}
                && jobs[id] == Job(
                     Source(source), "musicbrainz_refresh", Queued, now, None, None, None,
                     if source in revisions then Some(revisions[source]) else None, Some(pair), [])
                && forall other :: other in old(jobs) ==>
                     jobs[other] == if Covers(old(jobs), other, Source(source), "musicbrainz_refresh")
                                    then old(jobs)[other].(state := Superseded, nextAttempt := None)
                                    else old(jobs)[other]
    {
      CoversMeans(jobs, Source(source), REFRESH);
      EnqueueRefreshKeepsInv(jobs, source, pair, now, Revision(source), id);
      var active := ActiveFor(jobs, Source(source), REFRESH);
      if active != {} {
        var found := Newest(jobs, active);
        OnlyActive(jobs, Source(source), REFRESH, found);
        if jobs[found].expected == Some(pair) {
          return None;
        }
        jobs := jobs[found := jobs[found].(state := Superseded, nextAttempt := None)];
      }
      var job := NewJob(Source(source), REFRESH, now).(sourceRevision := Revision(source), expected := Some(pair));
      jobs := jobs[id := job];
      created := Some(id);
    }

    method EnqueueSelectionRefreshes(times: map<string, int>, ids: seq<string>) returns (created: seq<string>)
      requires Inv(jobs) && FreshIds(jobs, ids, |times|)
      modifies this
      ensures jobs == EnqueueRefreshes(old(jobs), times, ids)
      ensures created == MissingIds(old(jobs), SortedRecords(times), ids, |times|)
      ensures forall id :: id in old(jobs) ==> id in jobs && jobs[id] == old(jobs)[id]
      ensures forall id :: id !in old(jobs) ==> (id in jobs <==> id in created)
      ensures forall id :: id in jobs && id !in old(jobs) ==> id in ids && IsBatchRow(old(jobs), jobs[id], times)
      ensures forall record :: record in times ==>
                exists id :: Covers(jobs, id, Record(record), "selection_refresh")
    {
      var records := SortedRecords(times);
      ghost var after := RefreshEach(jobs, records, times, ids, |records|);
      BatchOnlyAdds(jobs, records, times, ids, |records|);
      forall id | id !in jobs
        ensures id in after <==> id in MissingIds(jobs, records, ids, |records|)
        ensures id in after ==> id in ids && IsBatchRow(jobs, after[id], times)
      {
        BatchAddsRow(jobs, records, times, ids, id);
      }
      forall record | record in times ensures exists id :: Covers(after, id, Record(record), "selection_refresh") {
        BatchCovers(jobs, records, times, ids, record);
      }
      created := RefreshRecords(SortedRecords(times), times, ids);
    }

    /** The batch asks once which records are covered, then inserts for the others. */
    method RefreshRecords(
      records: seq<string>, times: map<string, int>, ids: seq<string>) returns (created: seq<string>)
      requires Inv(jobs) && FreshIds(jobs, ids, |records|) && NoDup(records)
      requires forall r :: r in records ==> r in times
      modifies this
      ensures jobs == RefreshEach(old(jobs), records, times, ids, |records|)
      ensures created == MissingIds(old(jobs), records, ids, |records|)
    {
      var covered := set r | r in records && ActiveFor(jobs, Record(r), SELECTION) != {};
      ghost var was := jobs;
      created := [];
      for i := 0 to |records|
        invariant jobs == RefreshEach(was, records, times, ids, i)
        invariant created == MissingIds(was, records, ids, i)
      {
        OneMoreRefresh(was, records, times, ids, i);
        if records[i] !in covered {
          jobs := jobs[ids[i] := NewJob(Record(records[i]), SELECTION, times[records[i]])];
          created := created + [ids[i]];
        } else {
          assert created == created + [];
        }
      }
    }

    /** One bounded batch over the blocked fetches, oldest first; a record is tried once. */
    method RecoverBlockedLrclibFetches(now: int, limit: nat, ids: seq<string>) returns (r: Recovery)
      requires Inv(jobs) && FreshIds(jobs, ids, |Blocked(jobs, limit)|)
      modifies this
      ensures jobs == RecoverEffect(old(jobs), limit, now, ids)
      ensures r.selected == |set b | b in old(jobs) && InBatch(old(jobs), limit, b)|
      ensures r.recovered == |set id | id in jobs && id !in old(jobs)|
      ensures forall id :: id in old(jobs) ==> id in jobs && jobs[id] == old(jobs)[id]
      ensures forall id :: id in jobs && id !in old(jobs) ==>
                && id in ids && IsRecovered(old(jobs), jobs[id], now)
                && exists b :: InBatch(old(jobs), limit, b) && old(jobs)[b].target == jobs[id].target
      ensures forall b :: InBatch(old(jobs), limit, b) && old(jobs)[b].target.Record? ==>
                exists id :: Covers(jobs, id, old(jobs)[b].target, "lrclib_fetch")
    {
      ghost var was, after := jobs, RecoverEffect(jobs, limit, now, ids);
      RecoveryQueuesEachRecordOnce(jobs, JobsOf(jobs, Blocked(jobs, limit)), now, ids, |ids|);
      BatchSize(jobs, limit);
      forall id | id in after && id !in was
        ensures id in ids && IsRecovered(was, after[id], now)
        ensures exists b :: InBatch(was, limit, b) && was[b].target == after[id].target
      {
        RecoveryAddsRow(was, limit, now, ids, id);
      }
      forall b | InBatch(was, limit, b) && was[b].target.Record?
        ensures exists id :: Covers(after, id, was[b].target, "lrclib_fetch")
      {
        RecoveryCovers(was, limit, now, ids, b);
      }
      var blocked := JobsOf(jobs, Blocked(jobs, limit));
      var recovered := RecoverJobs(blocked, now, ids);
      r := Recovery(|blocked|, recovered);
    }

    method RecoverRecord(record: string, now: int, id: string, ghost was: Queue) returns (created: bool)
      requires Inv(jobs) && id !in jobs && forall other :: other in was ==> other in jobs
      modifies this
      ensures jobs == EnqueueOnce(old(jobs), Record(record), LYRICS, now, id)
      ensures forall other :: other in was ==> other in jobs
      ensures |Added(was, jobs)| == |Added(was, old(jobs))| + if created then 1 else 0
    {
      AddedOnce(was, jobs, Record(record), now, id);
      var fetch := EnqueueLrclibFetch(record, now, id);
      created := fetch.Some?;
    }

    method RecoverJobs(blocked: seq<Job>, now: int, ids: seq<string>) returns (recovered: nat)
      requires Inv(jobs) && FreshIds(jobs, ids, |blocked|)
      modifies this
      ensures jobs == RecoverEach(old(jobs), blocked, now, ids, |blocked|)
      ensures recovered == |Added(old(jobs), jobs)|
    {
      ghost var was := jobs;
      var tried := {};
      recovered := 0;
      for i := 0 to |blocked|
        invariant jobs == RecoverEach(was, blocked, now, ids, i)
        invariant tried == TargetsBefore(blocked, i)
        invariant recovered == |Added(was, jobs)| && forall id :: id in was ==> id in jobs
      {
        var target := blocked[i].target;
        OneMoreRecovery(was, blocked, now, ids, i);
        if target.Record? && target !in tried {
          tried := tried + {target};
          var created := RecoverRecord(target.id, now, ids[i], was);
          if created {
            recovered := recovered + 1;
          }
        }
      }
    }
  }
}
