/**
 The unique index on a source's active refreshes, which a scan can break when it reactivates the source's stopped
 jobs. The other indexes on active jobs have keys that jobs with a source leave empty.
 */
module ReconciliationJobs {
  import opened Wrappers
  import opened Reconciliation
  import opened ReconciliationStore
  import opened ReconciliationProperties
  import opened ReconciliationIntegrity
  import opened ReconciliationStability
  import opened ReconciliationNoOp

  predicate IsActive(state: JobState) {
    state.Queued? || state.Running?
  }

  predicate Serves(job: Job, source: SourceId, kind: string) {
    job.source == Some(source) && job.kind == kind
  }

  function ActiveCount(jobs: seq<Job>, source: SourceId, kind: string): nat {
    if jobs == [] then 0
    else
      var job := jobs[|jobs| - 1];
      ActiveCount(jobs[..|jobs| - 1], source, kind) + if Serves(job, source, kind) && IsActive(job.state) then 1 else 0
  }

  function StoppedCount(jobs: seq<Job>, source: SourceId, kind: string): nat {
    if jobs == [] then 0
    else
      var job := jobs[|jobs| - 1];
      StoppedCount(jobs[..|jobs| - 1], source, kind) + if Serves(job, source, kind) && Stopped(job.state) then 1 else 0
  }

  /** At most one queued or running job of a kind for each source. */
  ghost predicate OneActiveJob(jobs: seq<Job>, kind: string) {
    forall source :: ActiveCount(jobs, source, kind) <= 1
  }

  // ---------------------------------------------------------------- the rewrites of a scan, job by job

  lemma CountsOfOneMoreJob(jobs: seq<Job>, job: Job, source: SourceId, kind: string)
    ensures ActiveCount(jobs + [job], source, kind)
            == ActiveCount(jobs, source, kind) + if Serves(job, source, kind) && IsActive(job.state) then 1 else 0
    ensures StoppedCount(jobs + [job], source, kind)
            == StoppedCount(jobs, source, kind) + if Serves(job, source, kind) && Stopped(job.state) then 1 else 0
  {
    assert (jobs + [job])[..|jobs|] == jobs;
  }

  lemma {:induction false} SupersededCounts(
    jobs: seq<Job>, replacements: seq<Replacement>, source: SourceId, kind: string)
    ensures var after := SupersedeJobs(jobs, replacements);
            && ActiveCount(after, source, kind)
               == (if IsReplaced(replacements, source) then 0 else ActiveCount(jobs, source, kind))
            && StoppedCount(after, source, kind) == StoppedCount(jobs, source, kind)
    decreases |jobs|
  {
    if jobs != [] {
      var before, last := jobs[..|jobs| - 1],
        SupersedeJobs(jobs, replacements)[|SupersedeJobs(jobs, replacements)| - 1];
      SupersededCounts(before, replacements, source, kind);
      CountsOfOneMoreJob(SupersedeJobs(before, replacements), last, source, kind);
    }
  }

  lemma {:induction false} RemainingCounts(jobs: seq<Job>, ids: set<SourceId>, source: SourceId, kind: string)
    ensures var after := WithoutSources(jobs, ids);
            && ActiveCount(after, source, kind) == (if source in ids then 0 else ActiveCount(jobs, source, kind))
            && StoppedCount(after, source, kind) == (if source in ids then 0 else StoppedCount(jobs, source, kind))
    decreases |jobs|
  {
    if jobs != [] {
      var before, last := jobs[..|jobs| - 1], jobs[|jobs| - 1];
      RemainingCounts(before, ids, source, kind);
      if last.source.Some? && last.source.value in ids {
        assert WithoutSources(jobs, ids) == WithoutSources(before, ids);
      } else {
        CountsOfOneMoreJob(WithoutSources(before, ids), last, source, kind);
      }
    }
  }

  /** Reactivation queues every stopped job of a source, whatever its kind. */
  lemma {:induction false} ReactivatedCounts(jobs: seq<Job>, restarted: seq<SourceId>, source: SourceId, kind: string)
    ensures ActiveCount(ReactivateJobs(jobs, restarted), source, kind)
            == ActiveCount(jobs, source, kind) + if source in restarted then StoppedCount(jobs, source, kind) else 0
    decreases |jobs|
  {
    if jobs != [] {
      var before, after := jobs[..|jobs| - 1], ReactivateJobs(jobs, restarted);
      ReactivatedCounts(before, restarted, source, kind);
      CountsOfOneMoreJob(ReactivateJobs(before, restarted), after[|after| - 1], source, kind);
    }
  }

  function Occurrences(ids: seq<SourceId>, id: SourceId): nat {
    if ids == [] then 0 else Occurrences(ids[..|ids| - 1], id) + if ids[|ids| - 1] == id then 1 else 0
  }

  lemma {:induction false} ScanJobCounts(jobs: seq<Job>, inserted: seq<SourceId>, source: SourceId, kind: string)
    ensures ActiveCount(jobs + ScanJobs(inserted), source, kind)
            == ActiveCount(jobs, source, kind) + if kind == FILESYSTEM_SCAN then Occurrences(inserted, source) else 0
    decreases |inserted|
  {
    if inserted == [] {
      assert jobs + ScanJobs(inserted) == jobs;
    } else {
      var before := inserted[..|inserted| - 1];
      var all := jobs + ScanJobs(inserted);
      ScanJobCounts(jobs, before, source, kind);
      assert all == jobs + ScanJobs(before) + [all[|all| - 1]];
      CountsOfOneMoreJob(jobs + ScanJobs(before), all[|all| - 1], source, kind);
    }
  }

  // ---------------------------------------------------------------- the two job lists of a plan

  /** A source without any scan job gets one, once; a source with one gets none. */
  lemma {:induction false} InsertedOnce(states: map<SourceId, JobState>, owners: seq<SourceId>, id: SourceId)
    ensures Occurrences(JobInserts(states, owners), id) <= 1
    ensures id in states ==> Occurrences(JobInserts(states, owners), id) == 0
    ensures id in StatesAfter(states, owners) <==> id in states || Occurrences(JobInserts(states, owners), id) == 1
    decreases |owners|
  {
    if owners != [] {
      var before, last := owners[..|owners| - 1], owners[|owners| - 1];
      InsertedOnce(states, before, id);
      var earlier := JobInserts(states, before);
      if last in StatesAfter(states, before) {
        assert JobInserts(states, owners) == earlier;
      } else {
        assert JobInserts(states, owners)[..|earlier|] == earlier;
      }
    }
  }

  /** The restarted sources are the owners whose scan job has stopped. */
  lemma {:induction false} ReactivatedExactly(states: map<SourceId, JobState>, owners: seq<SourceId>, id: SourceId)
    ensures id in JobReactivations(states, owners) <==> id in owners && id in states && Stopped(states[id])
    ensures var after := StatesAfter(states, owners);
            && (id in after <==> id in states || id in owners)
            && (id in after && Stopped(after[id]) <==> id !in owners && id in states && Stopped(states[id]))
    decreases |owners|
  {
    if owners != [] {
      ReactivatedExactly(states, owners[..|owners| - 1], id);
    }
  }

  lemma {:induction false} NoScanJobNoState(jobs: seq<Job>, id: SourceId)
    requires id !in ScanJobStates(jobs)
    ensures ActiveCount(jobs, id, FILESYSTEM_SCAN) == 0
    decreases |jobs|
  {
    if jobs != [] {
      NoScanJobNoState(jobs[..|jobs| - 1], id);
    }
  }

  // ---------------------------------------------------------------- what a scan does to the index

  /** The jobs a scan leaves for a source: those it had, the stopped ones it restarts, and a new scan. */
  lemma CountsAfterPlan(jobs: seq<Job>, plan: Plan, source: SourceId, kind: string)
    requires source !in plan.deletedSources && !IsReplaced(plan.replacements, source)
    ensures var kept := WithoutSources(SupersedeJobs(jobs, plan.replacements), set id | id in plan.deletedSources);
            ActiveCount(ReactivateJobs(kept, plan.jobReactivations) + ScanJobs(plan.jobInserts), source, kind)
            == ActiveCount(jobs, source, kind)
               + (if source in plan.jobReactivations then StoppedCount(jobs, source, kind) else 0)
               + if kind == FILESYSTEM_SCAN then Occurrences(plan.jobInserts, source) else 0
  {
    var lost := set id | id in plan.deletedSources;
    var superseded := SupersedeJobs(jobs, plan.replacements);
    var kept := WithoutSources(superseded, lost);
    SupersededCounts(jobs, plan.replacements, source, kind);
    RemainingCounts(superseded, lost, source, kind);
    ReactivatedCounts(kept, plan.jobReactivations, source, kind);
    ScanJobCounts(ReactivateJobs(kept, plan.jobReactivations), plan.jobInserts, source, kind);
  }

  /** A deleted source is left with no job. */
  lemma CountsOfDeleted(jobs: seq<Job>, plan: Plan, source: SourceId, kind: string)
    requires source in plan.deletedSources && source !in plan.jobInserts
    ensures var kept := WithoutSources(SupersedeJobs(jobs, plan.replacements), set id | id in plan.deletedSources);
            ActiveCount(ReactivateJobs(kept, plan.jobReactivations) + ScanJobs(plan.jobInserts), source, kind) == 0
  {
    var lost := set id | id in plan.deletedSources;
    var superseded := SupersedeJobs(jobs, plan.replacements);
    var kept := WithoutSources(superseded, lost);
    RemainingCounts(superseded, lost, source, kind);
    ReactivatedCounts(kept, plan.jobReactivations, source, kind);
    ScanJobCounts(ReactivateJobs(kept, plan.jobReactivations), plan.jobInserts, source, kind);
    NotListed(plan.jobInserts, source);
  }

  lemma {:induction false} NotListed(ids: seq<SourceId>, id: SourceId)
    requires id !in ids
    ensures Occurrences(ids, id) == 0
    decreases |ids|
  {
    if ids != [] {
      NotListed(ids[..|ids| - 1], id);
    }
  }

  lemma JobOwnersStay(names: Naming, db: Db, order: seq<SourceId>, scans: seq<RootScan>, id: SourceId)
    requires Ready(names, db, order, scans) && ValidSnapshot(SnapshotOf(db, order))
    requires var plan := PlanOf(names, db, order, scans); id in plan.jobInserts || id in plan.jobReactivations
    ensures var plan := PlanOf(names, db, order, scans);
            id !in plan.deletedSources && !IsReplaced(plan.replacements, id)
  {
    var snap, gs := SnapshotOf(db, order), Identities(ScannedFiles(scans));
    JobListSources(ScanJobStates(db.jobs), Owners(names, snap, gs));
    var i :| 0 <= i < |gs| && Owners(names, snap, gs)[i] == id;
    OwnerIsKept(names, db, order, scans, gs[i]);
  }

  /** Restarted sources end with what was active or stopped, the others with at most one active job. */
  ghost predicate Restarted(jobs: seq<Job>, after: seq<Job>, restarted: seq<SourceId>, source: SourceId, kind: string) {
    if source in restarted
    then ActiveCount(after, source, kind) == ActiveCount(jobs, source, kind) + StoppedCount(jobs, source, kind)
    else ActiveCount(after, source, kind) <= 1
  }

  /** Active jobs of one source and kind after a scan. */
  lemma ActiveAfterScan(
    names: Naming, db: Db, order: seq<SourceId>, scans: seq<RootScan>, source: SourceId, kind: string)
    requires Ready(names, db, order, scans) && ValidSnapshot(SnapshotOf(db, order))
    requires ActiveCount(db.jobs, source, kind) <= 1
    ensures var plan := PlanOf(names, db, order, scans);
            Restarted(db.jobs, Apply(db, plan).jobs, plan.jobReactivations, source, kind)
  {
    var plan := PlanOf(names, db, order, scans);
    var states, owners := ScanJobStates(db.jobs), Owners(names, SnapshotOf(db, order), Identities(ScannedFiles(scans)));
    InsertedOnce(states, owners, source);
    ReactivatedExactly(states, owners, source);
    if source in plan.jobReactivations || source in plan.jobInserts {
      JobOwnersStay(names, db, order, scans, source);
    }
    if source !in states {
      NoScanJobNoState(db.jobs, source);
    }
    if source in plan.deletedSources {
      CountsOfDeleted(db.jobs, plan, source, kind);
    } else {
      SurvivorIsNotReplaced(names, db, order, scans, source);
      CountsAfterPlan(db.jobs, plan, source, kind);
    }
  }

  /** The newest scan job of a source has stopped. */
  predicate ScanStopped(jobs: seq<Job>, id: SourceId) {
    id in ScanJobStates(jobs) && Stopped(ScanJobStates(jobs)[id])
  }

  /** A scan restarts the owners it sees whose scan job has stopped. */
  lemma RestartedOwners(names: Naming, db: Db, order: seq<SourceId>, scans: seq<RootScan>, id: SourceId)
    requires ValidSnapshot(SnapshotOf(db, order))
    ensures id in PlanOf(names, db, order, scans).jobReactivations <==>
            id in Seen(names, SnapshotOf(db, order), scans) && ScanStopped(db.jobs, id)
  {
    var owners := Owners(names, SnapshotOf(db, order), Identities(ScannedFiles(scans)));
    ReactivatedExactly(ScanJobStates(db.jobs), owners, id);
  }

  /** If its scan job has stopped, and so all its stopped jobs restart, the source ends with one of the kind at most. */
  predicate FitsRestart(jobs: seq<Job>, source: SourceId, kind: string) {
    ScanStopped(jobs, source) ==> ActiveCount(jobs, source, kind) + StoppedCount(jobs, source, kind) <= 1
  }

  lemma RestartsKeepOneActiveJob(
    jobs: seq<Job>, after: seq<Job>, restarted: seq<SourceId>, seen: set<SourceId>, kind: string)
    requires forall source :: Restarted(jobs, after, restarted, source, kind)
    requires forall source :: source in restarted <==> source in seen && ScanStopped(jobs, source)
    ensures OneActiveJob(after, kind) <==> forall source :: source in seen ==> FitsRestart(jobs, source, kind)
  {
    forall source
      ensures source !in restarted ==> ActiveCount(after, source, kind) <= 1
      ensures source in restarted ==>
                ActiveCount(after, source, kind)
                == ActiveCount(jobs, source, kind) + StoppedCount(jobs, source, kind)
    {
      assert Restarted(jobs, after, restarted, source, kind);
    }
  }

  /**
   Whatever the kind, a scan keeps at most one active job of it per source if and only if no owner of a scanned
   identity whose scan job has stopped has two stopped jobs of it, or a stopped and an active one.
   */
  lemma ScanKeepsOneActiveJob(names: Naming, db: Db, order: seq<SourceId>, scans: seq<RootScan>, kind: string)
    requires Ready(names, db, order, scans) && ValidSnapshot(SnapshotOf(db, order)) && OneActiveJob(db.jobs, kind)
    ensures OneActiveJob(Apply(db, PlanOf(names, db, order, scans)).jobs, kind) <==>
            forall id :: id in Seen(names, SnapshotOf(db, order), scans) ==> FitsRestart(db.jobs, id, kind)
  {
    var plan, seen := PlanOf(names, db, order, scans), Seen(names, SnapshotOf(db, order), scans);
    forall source ensures Restarted(db.jobs, Apply(db, plan).jobs, plan.jobReactivations, source, kind) {
      ActiveAfterScan(names, db, order, scans, source, kind);
    }
    forall source ensures source in plan.jobReactivations <==> source in seen && ScanStopped(db.jobs, source) {
      RestartedOwners(names, db, order, scans, source);
    }
    RestartsKeepOneActiveJob(db.jobs, Apply(db, plan).jobs, plan.jobReactivations, seen, kind);
  }

  // ---------------------------------------------------------------- a scan that breaks it

  const REFRESH := "musicbrainz_refresh"

  /** A located source with a quarantined scan, a quarantined refresh and a queued one. */
  function Quarantined(id: SourceId, identity: Identity): Db {
    Db(map["root" := true],
       map[id := Source(id, Key("root", "x"), 0, identity, NeedsReview, None, None)],
       map[1 := Location(id, Key("root", "x"))], 2,
       [Job("a", Some(id), None, FILESYSTEM_SCAN, JobState.Quarantined),
        Job("b", Some(id), None, REFRESH, JobState.Quarantined), Job("c", Some(id), None, REFRESH, Queued)],
       {}, {}, map[], map[])
  }

  lemma QuarantinedCounts(id: SourceId, identity: Identity)
    ensures var jobs := Quarantined(id, identity).jobs;
            && (forall kind :: OneActiveJob(jobs, kind))
            && ActiveCount(jobs, id, REFRESH) == 1 && StoppedCount(jobs, id, REFRESH) == 1
            && id in ScanJobStates(jobs) && Stopped(ScanJobStates(jobs)[id])
  {
    var jobs := Quarantined(id, identity).jobs;
    assert jobs[..2][..1][..0] == [] && jobs[..2][1] == jobs[1] && jobs[..2][..1][0] == jobs[0];
    forall source, kind ensures ActiveCount(jobs, source, kind) <= 1 {
      assert ActiveCount(jobs[..2][..1], source, kind) == 0;
      assert ActiveCount(jobs[..2], source, kind) == 0;
    }
    assert StoppedCount(jobs[..2][..1], id, REFRESH) == 0 && StoppedCount(jobs[..2], id, REFRESH) == 1;
    assert ScanJobStates(jobs[..2][..1]) == map[id := JobState.Quarantined];
    assert ScanJobStates(jobs[..2]) == map[id := JobState.Quarantined];
  }

  lemma QuarantinedIsReady(names: Naming, identity: Identity)
    requires CollisionFree(names)
    ensures var id, f := names.idOf(identity), File(Key("root", "x"), 0, identity);
            && Ready(names, Quarantined(id, identity), [id], [RootScan("root", Some([f]))])
            && ValidSnapshot(SnapshotOf(Quarantined(id, identity), [id]))
            && Owner(names, SnapshotOf(Quarantined(id, identity), [id]), identity) == id
            && ScannedFiles([RootScan("root", Some([f]))]) == [f]
  {
    var id, f := names.idOf(identity), File(Key("root", "x"), 0, identity);
    var db, scans := Quarantined(id, identity), [RootScan("root", Some([f]))];
    assert scans[..0] == [];
    assert ScannedFiles(scans) == [f];
    assert [id][0] == id;
    assert ValidDb(db);
    assert Ready(names, db, [id], scans);
    ExistingFacts(SnapshotOf(db, [id]), identity);
  }

  /** Restarting the scan of such a source restarts its refresh too, beside the one already queued. */
  lemma ReactivationCanDoubleAJob(names: Naming, identity: Identity)
    requires CollisionFree(names)
    ensures var id, f := names.idOf(identity), File(Key("root", "x"), 0, identity);
            var db, scans := Quarantined(id, identity), [RootScan("root", Some([f]))];
            && Ready(names, db, [id], scans) && ValidSnapshot(SnapshotOf(db, [id]))
            && (forall kind :: OneActiveJob(db.jobs, kind))
            && !OneActiveJob(Apply(db, PlanOf(names, db, [id], scans)).jobs, REFRESH)
  {
    var id, f := names.idOf(identity), File(Key("root", "x"), 0, identity);
    var db, scans := Quarantined(id, identity), [RootScan("root", Some([f]))];
    QuarantinedCounts(id, identity);
    QuarantinedIsReady(names, identity);
    assert [f][0] == f;
    SeenFacts(names, SnapshotOf(db, [id]), scans, id);
    assert !FitsRestart(db.jobs, id, REFRESH);
    ScanKeepsOneActiveJob(names, db, [id], scans, REFRESH);
  }
}
