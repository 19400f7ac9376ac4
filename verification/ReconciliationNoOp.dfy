/** The no-op theorem: a second scan of unchanged files, list by list. */
module ReconciliationNoOp {
  import opened Wrappers
  import opened Ordering
  import opened Reconciliation
  import opened ReconciliationFacts
  import opened ReconciliationStore
  import opened ReconciliationProperties
  import opened ReconciliationIndex
  import opened ReconciliationStability

  /** A plan that changes no source, location, job or record, and counts every file as unchanged. */
  predicate IsNoOp(plan: Plan, files: nat) {
    && plan.newSources == [] && plan.newLocations == [] && plan.deletedLocations == {}
    && plan.reappeared == [] && plan.replacements == [] && plan.deletedSources == []
    && plan.jobInserts == [] && plan.jobReactivations == [] && plan.refresh == {}
    && plan.result == ScanResult(0, 0, 0, 0, files, 0)
  }

  // ---------------------------------------------------------------- scan jobs

  predicate Settled(states: map<SourceId, JobState>, id: SourceId) {
    id in states && !Stopped(states[id])
  }

  /** Every owner without a scan job gets one, and every owner with a stopped one has it restarted. */
  lemma {:induction false} JobCover(states: map<SourceId, JobState>, owners: seq<SourceId>, id: SourceId)
    requires id in owners
    ensures id !in states ==> id in JobInserts(states, owners)
    ensures id in states && Stopped(states[id]) ==> id in JobReactivations(states, owners)
    decreases |owners|
  {
    var before, last := owners[..|owners| - 1], owners[|owners| - 1];
    assert owners == before + [last];
    if id in before {
      JobCover(states, before, id);
    } else {
      StateOfOther(states, before, id);
    }
  }

  lemma {:induction false} StateOfOther(states: map<SourceId, JobState>, owners: seq<SourceId>, id: SourceId)
    requires id !in owners
    ensures id in StatesAfter(states, owners) <==> id in states
    ensures id in states ==> StatesAfter(states, owners)[id] == states[id]
    decreases |owners|
  {
    if owners != [] {
      StateOfOther(states, owners[..|owners| - 1], id);
    }
  }

  lemma {:induction false} SettledOwnersNeedNothing(states: map<SourceId, JobState>, owners: seq<SourceId>)
    requires forall i :: 0 <= i < |owners| ==> Settled(states, owners[i])
    ensures JobInserts(states, owners) == [] && JobReactivations(states, owners) == []
    ensures StatesAfter(states, owners) == states
    decreases |owners|
  {
    if owners != [] {
      SettledOwnersNeedNothing(states, owners[..|owners| - 1]);
      assert Settled(states, owners[|owners| - 1]);
    }
  }

  predicate SameState(a: map<SourceId, JobState>, b: map<SourceId, JobState>, id: SourceId) {
    (id in a <==> id in b) && (id in a ==> a[id] == b[id])
  }

  lemma {:induction false} StateSurvives(
    jobs: seq<Job>, replacements: seq<Replacement>, ids: set<SourceId>, id: SourceId)
    ensures !IsReplaced(replacements, id) ==>
              SameState(ScanJobStates(jobs), ScanJobStates(SupersedeJobs(jobs, replacements)), id)
    ensures id !in ids ==> SameState(ScanJobStates(jobs), ScanJobStates(WithoutSources(jobs, ids)), id)
    decreases |jobs|
  {
    if jobs != [] {
      var before, job := jobs[..|jobs| - 1], jobs[|jobs| - 1];
      StateSurvives(before, replacements, ids, id);
      assert jobs == before + [job];
      StatesOfOneMore(before, job);
      var superseded := SupersedeJobs(jobs, replacements);
      StatesOfOneMore(SupersedeJobs(before, replacements), superseded[|superseded| - 1]);
      if !(job.source.Some? && job.source.value in ids) {
        StatesOfOneMore(WithoutSources(before, ids), job);
      } else {
        assert WithoutSources(jobs, ids) == WithoutSources(before, ids);
      }
    }
  }

  lemma StatesOfOneMore(jobs: seq<Job>, job: Job)
    ensures ScanJobStates(jobs + [job]) ==
            if job.source.Some? && job.kind == FILESYSTEM_SCAN then ScanJobStates(jobs)[job.source.value := job.state]
            else ScanJobStates(jobs)
  {
    assert (jobs + [job])[..|jobs|] == jobs;
  }

  lemma {:induction false} RestartedState(jobs: seq<Job>, restarted: seq<SourceId>, id: SourceId)
    ensures var was, now := ScanJobStates(jobs), ScanJobStates(ReactivateJobs(jobs, restarted));
            && (id in was <==> id in now)
            && (id in was && !Stopped(was[id]) ==> now[id] == was[id])
            && (id in was && Stopped(was[id]) && id in restarted ==> now[id] == Queued)
    decreases |jobs|
  {
    if jobs != [] {
      var before := jobs[..|jobs| - 1];
      RestartedState(before, restarted, id);
      var r := ReactivateJobs(jobs, restarted);
      assert r[..|r| - 1] == ReactivateJobs(before, restarted);
    }
  }

  lemma {:induction false} AppendedState(jobs: seq<Job>, inserted: seq<SourceId>, id: SourceId)
    ensures id in inserted ==> Settled(ScanJobStates(jobs + ScanJobs(inserted)), id)
    ensures id !in inserted ==> SameState(ScanJobStates(jobs), ScanJobStates(jobs + ScanJobs(inserted)), id)
    decreases |inserted|
  {
    if inserted == [] {
      assert jobs + ScanJobs(inserted) == jobs;
    } else {
      var before := inserted[..|inserted| - 1];
      AppendedState(jobs, before, id);
      assert inserted == before + [inserted[|inserted| - 1]];
      var all := jobs + ScanJobs(inserted);
      assert all[..|all| - 1] == jobs + ScanJobs(before);
    }
  }

  lemma ScanJobSettled(
    jobs: seq<Job>, replacements: seq<Replacement>, lost: set<SourceId>, owners: seq<SourceId>, id: SourceId)
    requires id in owners && !IsReplaced(replacements, id) && id !in lost
    ensures var states, kept := ScanJobStates(jobs), WithoutSources(SupersedeJobs(jobs, replacements), lost);
            Settled(ScanJobStates(ReactivateJobs(kept, JobReactivations(states, owners))
              + ScanJobs(JobInserts(states, owners))), id)
  {
    var states, superseded := ScanJobStates(jobs), SupersedeJobs(jobs, replacements);
    var kept := WithoutSources(superseded, lost);
    JobCover(states, owners, id);
    StateSurvives(jobs, replacements, lost, id);
    StateSurvives(superseded, replacements, lost, id);
    RestartedState(kept, JobReactivations(states, owners), id);
    AppendedState(ReactivateJobs(kept, JobReactivations(states, owners)), JobInserts(states, owners), id);
  }

  lemma OwnerJobSettled(names: Naming, db: Db, order: seq<SourceId>, scans: seq<RootScan>, g: Identity)
    requires Ready(names, db, order, scans) && ValidSnapshot(SnapshotOf(db, order))
    requires g in Identities(ScannedFiles(scans))
    ensures Settled(ScanJobStates(Apply(db, PlanOf(names, db, order, scans)).jobs),
            Owner(names, SnapshotOf(db, order), g))
  {
    var snap, gs := SnapshotOf(db, order), Identities(ScannedFiles(scans));
    var plan, owner := PlanOf(names, db, order, scans), Owner(names, snap, g);
    OwnerIsKept(names, db, order, scans, g);
    var i :| 0 <= i < |gs| && gs[i] == g;
    assert Owners(names, snap, gs)[i] == owner;
    ScanJobSettled(db.jobs, plan.replacements, (set id | id in plan.deletedSources), Owners(names, snap, gs), owner);
  }

  // ---------------------------------------------------------------- the theorem

  lemma KnownOwnerReturned(names: Naming, db: Db, order: seq<SourceId>, scans: seq<RootScan>, g: Identity)
    requires Ready(names, db, order, scans) && ValidSnapshot(SnapshotOf(db, order))
    requires g in Identities(ScannedFiles(scans))
    ensures var snap := SnapshotOf(db, order); var owner := Owner(names, snap, g);
            owner in db.sources && IsReturn(snap, owner) ==>
              IsReappeared(PlanOf(names, db, order, scans).reappeared, owner)
  {
    var snap := SnapshotOf(db, order);
    var owner := Owner(names, snap, g);
    OwnerFacts(names, db, order, g);
    ReappearedMembers(snap, Identities(ScannedFiles(scans)));
    if owner in db.sources && IsReturn(snap, owner) {
      assert Reappearance(owner, db.sources[owner].record.value) in PlanOf(names, db, order, scans).reappeared;
    }
  }

  lemma NotReturning(
    names: Naming, db: Db, order: seq<SourceId>, scans: seq<RootScan>, order': seq<SourceId>, g: Identity)
    requires Ready(names, db, order, scans) && ValidSnapshot(SnapshotOf(db, order))
    requires g in Identities(ScannedFiles(scans))
    ensures var owner := Owner(names, SnapshotOf(db, order), g);
            var snap := SnapshotOf(Apply(db, PlanOf(names, db, order, scans)), order');
            owner in snap.sources && !IsReturn(snap, owner)
  {
    var plan, owner := PlanOf(names, db, order, scans), Owner(names, SnapshotOf(db, order), g);
    OwnerAfter(names, db, order, scans, g);
    OwnerIsKept(names, db, order, scans, g);
    SourceShape(db, plan, owner);
    AddSourcesFacts(db.sources, plan.newSources);
    if IsNew(plan.newSources, owner) {
      CreatedSource(names, db, order, scans, AddSources(db.sources, plan.newSources)[owner]);
    } else {
      KnownOwnerReturned(names, db, order, scans, g);
    }
  }

  /** Once every file is found under its owner, no group has anything to report. */
  lemma QuietGroup(
    names: Naming, db: Db, order: seq<SourceId>, scans: seq<RootScan>, again: Naming, order': seq<SourceId>,
    g: Identity)
    requires Rescans(names, db, order, scans, again, order') && g in Identities(ScannedFiles(scans))
    requires forall f ::
             f in ScannedFiles(scans) && StandInHit(names, SnapshotOf(db, order), f)
             ==> SoleFile(ScannedFiles(scans), f)
    ensures var snap := SnapshotOf(Apply(db, PlanOf(names, db, order, scans)), order');
            var owner := Existing(snap, g);
            && owner.Some? && !IsReturn(snap, owner.value) && !IsMove(snap, owner.value, Group(ScannedFiles(scans), g))
  {
    var files := ScannedFiles(scans);
    SameOwner(names, db, order, scans, again, order', g);
    NotReturning(names, db, order, scans, order', g);
    GroupsAreNonEmpty(files);
    GroupMembers(files, g);
    var f := Group(files, g)[0];
    assert f in Group(files, g);
    FoundAgain(names, db, order, scans, again, order', f);
  }

  ghost predicate NothingCounted(names: Naming, snap: Snapshot, files: seq<File>, gs: seq<Identity>)
    requires ValidSnapshot(snap) && NonEmptyGroups(files, gs)
  {
    && AddedCount(snap, files, gs) == ChangedCount(snap, files, gs) == MovedCount(snap, files, gs) == 0
    && CreatedSources(names, snap, files, gs) == [] && Replacements(names, snap, files, gs) == []
    && Reappeared(snap, gs) == []
  }

  lemma {:induction false} QuietGroupsCountNothing(names: Naming, snap: Snapshot, files: seq<File>, gs: seq<Identity>)
    requires ValidSnapshot(snap) && NonEmptyGroups(files, gs)
    requires forall g :: g in gs ==> Existing(snap, g).Some? && !IsReturn(snap, Existing(snap, g).value)
                                     && !IsMove(snap, Existing(snap, g).value, Group(files, g))
    ensures NothingCounted(names, snap, files, gs)
    decreases |gs|
  {
    if gs != [] {
      QuietGroupsCountNothing(names, snap, files, gs[..|gs| - 1]);
    }
  }

  lemma NoRowNeeded(
    names: Naming, db: Db, order: seq<SourceId>, scans: seq<RootScan>, again: Naming, order': seq<SourceId>, f: File)
    requires Rescans(names, db, order, scans, again, order') && f in ScannedFiles(scans)
    requires StandInHit(names, SnapshotOf(db, order), f) ==> SoleFile(ScannedFiles(scans), f)
    ensures var snap := SnapshotOf(Apply(db, PlanOf(names, db, order, scans)), order');
            !NeedsRow(snap, f.key, Owner(again, snap, f.identity))
  {
    IdentitiesMembers(ScannedFiles(scans));
    FoundAgain(names, db, order, scans, again, order', f);
    SameOwner(names, db, order, scans, again, order', f.identity);
  }

  lemma NothingToInsert(names: Naming, snap: Snapshot, files: seq<File>)
    requires ValidSnapshot(snap)
    requires forall f :: f in files ==> !NeedsRow(snap, f.key, Owner(names, snap, f.identity))
    ensures InsertedRows(names, snap, files, Identities(files)) == []
    ensures EvictedRows(names, snap, files, Identities(files)) == {}
  {
    IdentitiesMembers(files);
    InsertedMembers(names, snap, files, Identities(files));
    EvictedMembers(names, snap, files, Identities(files));
    var inserted := InsertedRows(names, snap, files, Identities(files));
    assert forall n :: n !in inserted;
    NonEmptyHasMember(inserted);
  }

  lemma NothingVanished(
    names: Naming, db: Db, order: seq<SourceId>, scans: seq<RootScan>, again: Naming, order': seq<SourceId>)
    requires Rescans(names, db, order, scans, again, order')
    ensures var snap := SnapshotOf(Apply(db, PlanOf(names, db, order, scans)), order');
            Vanished(snap, ScannedFiles(scans), ScannedRoots(scans)) == {}
  {
    var snap := SnapshotOf(Apply(db, PlanOf(names, db, order, scans)), order');
    forall l | l in snap.locations ensures !VanishedRow(snap, ScannedFiles(scans), ScannedRoots(scans), l) {
      if snap.locations[l].key.root in ScannedRoots(scans) {
        RowUnderScannedRoot(names, db, order, scans, l);
      }
    }
  }

  lemma QuietRows(
    names: Naming, db: Db, order: seq<SourceId>, scans: seq<RootScan>, again: Naming, order': seq<SourceId>)
    requires Rescans(names, db, order, scans, again, order')
    requires forall f ::
             f in ScannedFiles(scans) && StandInHit(names, SnapshotOf(db, order), f)
             ==> SoleFile(ScannedFiles(scans), f)
    ensures var snap := SnapshotOf(Apply(db, PlanOf(names, db, order, scans)), order');
            InsertedRows(again, snap, ScannedFiles(scans), Identities(ScannedFiles(scans))) == []
            && DeletedRows(again, snap, scans) == {}
  {
    var snap := SnapshotOf(Apply(db, PlanOf(names, db, order, scans)), order');
    forall f | f in ScannedFiles(scans) ensures !NeedsRow(snap, f.key, Owner(again, snap, f.identity)) {
      NoRowNeeded(names, db, order, scans, again, order', f);
    }
    NothingToInsert(again, snap, ScannedFiles(scans));
    NothingVanished(names, db, order, scans, again, order');
  }

  lemma RowlessIsSeen(
    names: Naming, db: Db, order: seq<SourceId>, scans: seq<RootScan>, again: Naming, order': seq<SourceId>,
    id: SourceId)
    requires Rescans(names, db, order, scans, again, order')
    requires var after := Apply(db, PlanOf(names, db, order, scans));
             id in after.sources && forall l :: l in after.locations ==> after.locations[l].source != id
    ensures id in Seen(again, SnapshotOf(Apply(db, PlanOf(names, db, order, scans)), order'), scans)
  {
    var g := RowlessSource(names, db, order, scans, id);
    SameOwner(names, db, order, scans, again, order', g);
    IdentitiesMembers(ScannedFiles(scans));
    SeenFacts(again, SnapshotOf(Apply(db, PlanOf(names, db, order, scans)), order'), scans, id);
  }

  lemma NothingIsLost(
    names: Naming, db: Db, order: seq<SourceId>, scans: seq<RootScan>, again: Naming, order': seq<SourceId>,
    id: SourceId)
    requires Rescans(names, db, order, scans, again, order')
    requires id in Apply(db, PlanOf(names, db, order, scans)).sources
    requires DeletedRows(again, SnapshotOf(Apply(db, PlanOf(names, db, order, scans)), order'), scans) == {}
    ensures var snap := SnapshotOf(Apply(db, PlanOf(names, db, order, scans)), order');
            id in Live(again, snap, scans) || id in Seen(again, snap, scans)
  {
    var after := Apply(db, PlanOf(names, db, order, scans));
    if l :| l in after.locations && after.locations[l].source == id {
      assert l !in DeletedRows(again, SnapshotOf(after, order'), scans);
    } else {
      RowlessIsSeen(names, db, order, scans, again, order', id);
    }
  }

  lemma QuietGroups(
    names: Naming, db: Db, order: seq<SourceId>, scans: seq<RootScan>, again: Naming, order': seq<SourceId>)
    requires Rescans(names, db, order, scans, again, order')
    requires forall f ::
             f in ScannedFiles(scans) && StandInHit(names, SnapshotOf(db, order), f)
             ==> SoleFile(ScannedFiles(scans), f)
    ensures var snap, files := SnapshotOf(Apply(db, PlanOf(names, db, order, scans)), order'), ScannedFiles(scans);
            NonEmptyGroups(files, Identities(files)) && NothingCounted(again, snap, files, Identities(files))
  {
    var snap, files := SnapshotOf(Apply(db, PlanOf(names, db, order, scans)), order'), ScannedFiles(scans);
    GroupsAreNonEmpty(files);
    forall g | g in Identities(files) { QuietGroup(names, db, order, scans, again, order', g); }
    QuietGroupsCountNothing(again, snap, files, Identities(files));
  }

  lemma QuietSources(
    names: Naming, db: Db, order: seq<SourceId>, scans: seq<RootScan>, again: Naming, order': seq<SourceId>)
    requires Rescans(names, db, order, scans, again, order')
    requires DeletedRows(again, SnapshotOf(Apply(db, PlanOf(names, db, order, scans)), order'), scans) == {}
    ensures var snap := SnapshotOf(Apply(db, PlanOf(names, db, order, scans)), order');
            Lost(snap.order, Live(again, snap, scans) + Seen(again, snap, scans)) == []
  {
    var snap := SnapshotOf(Apply(db, PlanOf(names, db, order, scans)), order');
    var kept := Live(again, snap, scans) + Seen(again, snap, scans);
    forall id | id in order' ensures id in kept {
      NothingIsLost(names, db, order, scans, again, order', id);
    }
    LostMembers(order', kept);
    NonEmptyHasMember(Lost(order', kept));
  }

  /** What makes the parts of a plan empty. */
  ghost predicate NothingToDo(names: Naming, snap: Snapshot, scans: seq<RootScan>)
    requires ValidSnapshot(snap)
  {
    var files := ScannedFiles(scans);
    var states, owners := ScanJobStates(snap.jobs), Owners(names, snap, Identities(files));
    && NonEmptyGroups(files, Identities(files)) && NothingCounted(names, snap, files, Identities(files))
    && InsertedRows(names, snap, files, Identities(files)) == [] && DeletedRows(names, snap, scans) == {}
    && Lost(snap.order, Live(names, snap, scans) + Seen(names, snap, scans)) == []
    && JobInserts(states, owners) == [] && JobReactivations(states, owners) == []
  }

  lemma EmptyParts(names: Naming, snap: Snapshot, scans: seq<RootScan>)
    requires ValidSnapshot(snap) && NothingToDo(names, snap, scans)
    ensures var plan := PlanSpec(names, snap, scans);
            && plan.newSources == [] && plan.newLocations == [] && plan.deletedLocations == {}
            && plan.reappeared == [] && plan.replacements == [] && plan.deletedSources == []
            && plan.jobInserts == [] && plan.jobReactivations == []
  {
    assert Pairs([], Live(names, snap, scans)) == [];
  }

  lemma EmptyRefresh(names: Naming, snap: Snapshot, scans: seq<RootScan>)
    requires ValidSnapshot(snap) && NothingToDo(names, snap, scans)
    ensures PlanSpec(names, snap, scans).refresh == {}
  {
    assert RecordsOf(snap, []) == {};
  }

  lemma EmptyResult(names: Naming, snap: Snapshot, scans: seq<RootScan>)
    requires ValidSnapshot(snap) && NothingToDo(names, snap, scans)
    ensures PlanSpec(names, snap, scans).result == ScanResult(0, 0, 0, 0, |ScannedFiles(scans)|, 0)
  {
    assert Pairs([], Live(names, snap, scans)) == [] && RemovedCount([], []) == 0;
  }

  lemma QuietScanIsNoOp(
    names: Naming, db: Db, order: seq<SourceId>, scans: seq<RootScan>, again: Naming, order': seq<SourceId>)
    requires Rescans(names, db, order, scans, again, order')
    requires forall f ::
             f in ScannedFiles(scans) && StandInHit(names, SnapshotOf(db, order), f)
             ==> SoleFile(ScannedFiles(scans), f)
    ensures IsNoOp(PlanOf(again, Apply(db, PlanOf(names, db, order, scans)), order', scans), |ScannedFiles(scans)|)
  {
    QuietGroups(names, db, order, scans, again, order');
    QuietRows(names, db, order, scans, again, order');
    QuietSources(names, db, order, scans, again, order');
    QuietJobs(names, db, order, scans, again, order');
    var snap := SnapshotOf(Apply(db, PlanOf(names, db, order, scans)), order');
    EmptyParts(again, snap, scans);
    EmptyRefresh(again, snap, scans);
    EmptyResult(again, snap, scans);
  }

  lemma OwnerSettledAgain(
    names: Naming, db: Db, order: seq<SourceId>, scans: seq<RootScan>, again: Naming, order': seq<SourceId>,
    g: Identity)
    requires Rescans(names, db, order, scans, again, order') && g in Identities(ScannedFiles(scans))
    ensures var snap := SnapshotOf(Apply(db, PlanOf(names, db, order, scans)), order');
            Settled(ScanJobStates(snap.jobs), Owner(again, snap, g))
  {
    SameOwner(names, db, order, scans, again, order', g);
    OwnerJobSettled(names, db, order, scans, g);
  }

  lemma QuietJobs(
    names: Naming, db: Db, order: seq<SourceId>, scans: seq<RootScan>, again: Naming, order': seq<SourceId>)
    requires Rescans(names, db, order, scans, again, order')
    ensures var snap := SnapshotOf(Apply(db, PlanOf(names, db, order, scans)), order');
            var states, owners := ScanJobStates(snap.jobs), Owners(again, snap, Identities(ScannedFiles(scans)));
            JobInserts(states, owners) == [] && JobReactivations(states, owners) == []
  {
    var snap := SnapshotOf(Apply(db, PlanOf(names, db, order, scans)), order');
    var gs := Identities(ScannedFiles(scans));
    forall i | 0 <= i < |gs| ensures Settled(ScanJobStates(snap.jobs), Owner(again, snap, gs[i])) {
      OwnerSettledAgain(names, db, order, scans, again, order', gs[i]);
    }
    SettledOwnersNeedNothing(ScanJobStates(snap.jobs), Owners(again, snap, gs));
  }

  /** A stand-in hit beside another file of its identity gets its row from the second scan. */
  lemma HitGetsItsRow(
    names: Naming, db: Db, order: seq<SourceId>, scans: seq<RootScan>, again: Naming, order': seq<SourceId>, f: File)
    requires Rescans(names, db, order, scans, again, order') && f in ScannedFiles(scans)
    requires StandInHit(names, SnapshotOf(db, order), f) && !SoleFile(ScannedFiles(scans), f)
    ensures PlanOf(again, Apply(db, PlanOf(names, db, order, scans)), order', scans).newLocations != []
  {
    var after := Apply(db, PlanOf(names, db, order, scans));
    FoundAgain(names, db, order, scans, again, order', f);
    IdentitiesMembers(ScannedFiles(scans));
    SameOwner(names, db, order, scans, again, order', f.identity);
    ScannedFileFacts(again, after, order', scans, f);
  }

  /**
   Scanning again over an unchanged filesystem changes nothing if and only if every file the first
   scan took for a row, on the strength of a rowless source's columns, is the only file with its identity.
   */
  lemma SecondScanIsNoOp(
    names: Naming, db: Db, order: seq<SourceId>, scans: seq<RootScan>, again: Naming, order': seq<SourceId>)
    requires Rescans(names, db, order, scans, again, order')
    ensures IsNoOp(PlanOf(again, Apply(db, PlanOf(names, db, order, scans)), order', scans), |ScannedFiles(scans)|) <==>
            forall f :: f in ScannedFiles(scans) && StandInHit(names, SnapshotOf(db, order), f) ==>
              SoleFile(ScannedFiles(scans), f)
  {
    var files, snap := ScannedFiles(scans), SnapshotOf(db, order);
    if f :| f in files && StandInHit(names, snap, f) && !SoleFile(files, f) {
      HitGetsItsRow(names, db, order, scans, again, order', f);
    } else {
      QuietScanIsNoOp(names, db, order, scans, again, order');
    }
  }
}
