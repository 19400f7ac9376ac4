/** The jobs after a scan, in terms of the jobs before it and the scanned files alone. */
module ReconciliationWork {
  import opened Wrappers
  import opened Reconciliation
  import opened ReconciliationStore
  import opened ReconciliationProperties
  import opened ReconciliationMeaning
  import opened ReconciliationOutcome
  import opened ReconciliationStability
  import opened ReconciliationJobs
  import opened RecordCleanup

  ghost predicate IsScanJob(job: Job, id: SourceId) {
    job.source == Some(id) && job.kind == "filesystem_scan"
  }

  ghost predicate HasScanJob(jobs: seq<Job>, id: SourceId) {
    exists i :: 0 <= i < |jobs| && IsScanJob(jobs[i], id)
  }

  ghost predicate IsStopped(job: Job) {
    job.state == Quarantined || job.state == Blocked
  }

  /** The last scan job of the source, in row order, has stopped. */
  ghost predicate LastScanStopped(jobs: seq<Job>, id: SourceId) {
    exists i :: 0 <= i < |jobs| && IsLastScan(jobs, id, i) && IsStopped(jobs[i])
  }

  ghost predicate IsLastScan(jobs: seq<Job>, id: SourceId, i: int)
    requires 0 <= i < |jobs|
  {
    IsScanJob(jobs[i], id) && forall k :: i < k < |jobs| ==> !IsScanJob(jobs[k], id)
  }

  lemma {:induction false} StatesMean(jobs: seq<Job>, id: SourceId)
    ensures id in ScanJobStates(jobs) <==> HasScanJob(jobs, id)
    ensures id in ScanJobStates(jobs) ==>
              exists i :: 0 <= i < |jobs| && IsLastScan(jobs, id, i) && ScanJobStates(jobs)[id] == jobs[i].state
    decreases |jobs|
  {
    if jobs != [] {
      var before, n := jobs[..|jobs| - 1], |jobs| - 1;
      StatesMean(before, id);
      if IsScanJob(jobs[n], id) {
        assert IsLastScan(jobs, id, n);
      } else if id in ScanJobStates(before) {
        var i :| 0 <= i < |before| && IsLastScan(before, id, i) && ScanJobStates(before)[id] == before[i].state;
        assert IsLastScan(jobs, id, i);
      }
    }
  }

  lemma StoppedMeans(jobs: seq<Job>, id: SourceId)
    ensures ScanStopped(jobs, id) <==> LastScanStopped(jobs, id)
  {
    StatesMean(jobs, id);
    if i :| 0 <= i < |jobs| && IsLastScan(jobs, id, i) {
      forall k | 0 <= k < |jobs| && IsLastScan(jobs, id, k) ensures k == i {
      }
    }
  }

  lemma {:induction false} InsertedExactly(states: map<SourceId, JobState>, owners: seq<SourceId>, id: SourceId)
    ensures id in JobInserts(states, owners) <==> id in owners && id !in states
    decreases |owners|
  {
    if owners != [] {
      InsertedExactly(states, owners[..|owners| - 1], id);
      ReactivatedExactly(states, owners[..|owners| - 1], id);
    }
  }

  // ---------------------------------------------------------------- the rewrites, job by job

  function Restart(job: Job, restarted: seq<SourceId>): Job {
    if job.source.Some? && job.source.value in restarted && IsStoppedState(job.state) then job.(state := Queued)
    else job
  }

  predicate IsStoppedState(state: JobState) {
    state == Quarantined || state == Blocked
  }

  lemma {:induction false} ReactivatedJobsAre(jobs: seq<Job>, restarted: seq<SourceId>, j: Job)
    ensures j in ReactivateJobs(jobs, restarted) <==> exists k :: k in jobs && j == Restart(k, restarted)
    decreases |jobs|
  {
    if jobs != [] {
      var before, last := jobs[..|jobs| - 1], jobs[|jobs| - 1];
      ReactivatedJobsAre(before, restarted, j);
      assert jobs == before + [last];
      assert ReactivateJobs(jobs, restarted) == ReactivateJobs(before, restarted) + [Restart(last, restarted)];
    }
  }

  /** Only jobs of replaced sources are superseded. */
  lemma {:induction false} UnreplacedJobsStay(jobs: seq<Job>, replacements: seq<Replacement>, j: Job)
    requires j.source.Some? ==> !IsReplaced(replacements, j.source.value)
    ensures j in SupersedeJobs(jobs, replacements) <==> j in jobs
    decreases |jobs|
  {
    if jobs != [] {
      var before, last := jobs[..|jobs| - 1], jobs[|jobs| - 1];
      UnreplacedJobsStay(before, replacements, j);
      assert jobs == before + [last];
      assert j in jobs <==> j in before || j == last;
    }
  }

  lemma {:induction false} ScanJobsAre(sources: seq<SourceId>, j: Job)
    ensures j in ScanJobs(sources) <==>
            exists id :: id in sources && j == Job("filesystem-" + id, Some(id), None, "filesystem_scan", Queued)
    decreases |sources|
  {
    if sources != [] {
      ScanJobsAre(sources[..|sources| - 1], j);
      assert sources == sources[..|sources| - 1] + [sources[|sources| - 1]];
    }
  }

  // ---------------------------------------------------------------- the jobs after a scan

  /** The scan sees the source again, and its last scan job had stopped. */
  ghost predicate MustRestart(names: Naming, db: Db, order: seq<SourceId>, scans: seq<RootScan>, id: SourceId) {
    OwnsScanned(names, db, order, scans, id) && LastScanStopped(db.jobs, id)
  }

  lemma RestartsAre(names: Naming, db: Db, order: seq<SourceId>, scans: seq<RootScan>, id: SourceId)
    requires ValidSnapshot(SnapshotOf(db, order))
    ensures id in PlanOf(names, db, order, scans).jobReactivations <==> MustRestart(names, db, order, scans, id)
  {
    RestartedOwners(names, db, order, scans, id);
    StoppedMeans(db.jobs, id);
    SeenMeans(names, db, order, scans, id);
  }

  lemma InsertsAre(names: Naming, db: Db, order: seq<SourceId>, scans: seq<RootScan>, id: SourceId)
    requires ValidSnapshot(SnapshotOf(db, order))
    ensures id in PlanOf(names, db, order, scans).jobInserts <==>
            OwnsScanned(names, db, order, scans, id) && !HasScanJob(db.jobs, id)
  {
    var owners := Owners(names, SnapshotOf(db, order), Identities(ScannedFiles(scans)));
    InsertedExactly(ScanJobStates(db.jobs), owners, id);
    StatesMean(db.jobs, id);
    SeenMeans(names, db, order, scans, id);
  }

  /** What becomes of a job whose source stays. */
  ghost predicate Becomes(names: Naming, db: Db, order: seq<SourceId>, scans: seq<RootScan>, k: Job, j: Job) {
    j == if k.source.Some? && MustRestart(names, db, order, scans, k.source.value) && IsStopped(k)
         then k.(state := Queued) else k
  }

  ghost predicate IsFirstScan(names: Naming, db: Db, order: seq<SourceId>, scans: seq<RootScan>, j: Job) {
    && j.source.Some? && OwnsScanned(names, db, order, scans, j.source.value) && !HasScanJob(db.jobs, j.source.value)
    && j == Job("filesystem-" + j.source.value, j.source, None, "filesystem_scan", Queued)
  }

  lemma KeptJobsAre(names: Naming, db: Db, order: seq<SourceId>, scans: seq<RootScan>, k: Job)
    requires Ready(names, db, order, scans) && ValidSnapshot(SnapshotOf(db, order))
    ensures var plan := PlanOf(names, db, order, scans);
            k in WithoutSources(SupersedeJobs(db.jobs, plan.replacements), set id | id in plan.deletedSources) <==>
            k in db.jobs && (k.source.Some? ==> k.source.value !in plan.deletedSources)
  {
    var plan := PlanOf(names, db, order, scans);
    JobsWithoutSources(SupersedeJobs(db.jobs, plan.replacements), (set id | id in plan.deletedSources), k);
    if k.source.Some? {
      SurvivorIsNotReplaced(names, db, order, scans, k.source.value);
    }
    if k.source.Some? ==> k.source.value !in plan.deletedSources {
      UnreplacedJobsStay(db.jobs, plan.replacements, k);
    }
  }

  /**
   The jobs after a scan: those of sources that stay, stopped ones put back in the queue where the scan restarts
   their source, and one queued scan for each owner of a scanned identity that had none.
   */
  lemma JobsAfterScan(names: Naming, db: Db, order: seq<SourceId>, scans: seq<RootScan>, j: Job)
    requires Ready(names, db, order, scans) && ValidSnapshot(SnapshotOf(db, order))
    ensures var plan := PlanOf(names, db, order, scans);
            j in Apply(db, plan).jobs <==>
            || IsFirstScan(names, db, order, scans, j)
            || exists k :: k in db.jobs && (k.source.Some? ==> k.source.value !in plan.deletedSources)
                           && Becomes(names, db, order, scans, k, j)
  {
    var plan := PlanOf(names, db, order, scans);
    var kept := WithoutSources(SupersedeJobs(db.jobs, plan.replacements), set id | id in plan.deletedSources);
    assert Apply(db, plan).jobs == ReactivateJobs(kept, plan.jobReactivations) + ScanJobs(plan.jobInserts);
    FirstScansAre(names, db, order, scans, j);
    RestartedJobsAre(names, db, order, scans, kept, j);
    forall k ensures k in kept <==> k in db.jobs && (k.source.Some? ==> k.source.value !in plan.deletedSources) {
      KeptJobsAre(names, db, order, scans, k);
    }
  }

  lemma FirstScansAre(names: Naming, db: Db, order: seq<SourceId>, scans: seq<RootScan>, j: Job)
    requires ValidSnapshot(SnapshotOf(db, order))
    ensures j in ScanJobs(PlanOf(names, db, order, scans).jobInserts) <==> IsFirstScan(names, db, order, scans, j)
  {
    ScanJobsAre(PlanOf(names, db, order, scans).jobInserts, j);
    if j.source.Some? {
      InsertsAre(names, db, order, scans, j.source.value);
    }
  }

  lemma RestartedJobsAre(
    names: Naming, db: Db, order: seq<SourceId>, scans: seq<RootScan>, jobs: seq<Job>, j: Job)
    requires ValidSnapshot(SnapshotOf(db, order))
    ensures j in ReactivateJobs(jobs, PlanOf(names, db, order, scans).jobReactivations) <==>
            exists k :: k in jobs && Becomes(names, db, order, scans, k, j)
  {
    var restarted := PlanOf(names, db, order, scans).jobReactivations;
    ReactivatedJobsAre(jobs, restarted, j);
    forall k ensures j == Restart(k, restarted) <==> Becomes(names, db, order, scans, k, j) {
      if k.source.Some? {
        RestartsAre(names, db, order, scans, k.source.value);
      }
    }
  }
}
