/** Every foreign key keeps resolving across a scan, and (root, path) keeps naming one location row. */
module ReconciliationIntegrity {
  import opened Wrappers
  import opened Reconciliation
  import opened ReconciliationFacts
  import opened ReconciliationStore
  import opened ReconciliationProperties
  import opened ReconciliationIndex

  lemma {:induction false} UpdateOfFacts(updates: seq<Update>, id: SourceId)
    ensures UpdateOf(updates, id).Some? ==>
            UpdateOf(updates, id).value in updates
            && UpdateOf(updates, id).value.source == id
    ensures UpdateOf(updates, id).None? ==> forall u :: u in updates ==> u.source != id
    decreases |updates|
  {
    if updates != [] {
      UpdateOfFacts(updates[..|updates| - 1], id);
      assert updates == updates[..|updates| - 1] + [updates[|updates| - 1]];
    }
  }

  lemma UpdateRoots(names: Naming, db: Db, order: seq<SourceId>, scans: seq<RootScan>, u: Update)
    requires Ready(names, db, order, scans) && ValidSnapshot(SnapshotOf(db, order))
    requires u in PlanOf(names, db, order, scans).updates
    ensures u.key.root in db.roots
  {
    var snap, files := SnapshotOf(db, order), ScannedFiles(scans);
    var gs := Identities(files);
    GroupsAreNonEmpty(files);
    UpdatedMembers(names, snap, files, gs);
    FileRoots(db, scans);
    var i :| 0 <= i < |gs| && PlanOf(names, db, order, scans).updates[i] == u;
    GroupMembers(files, gs[i]);
    assert Group(files, gs[i])[0] in Group(files, gs[i]);
  }

  lemma SourceStaysValid(names: Naming, db: Db, order: seq<SourceId>, scans: seq<RootScan>, id: SourceId)
    requires Ready(names, db, order, scans) && ValidSnapshot(SnapshotOf(db, order))
    requires id in Apply(db, PlanOf(names, db, order, scans)).sources
    ensures var after := Apply(db, PlanOf(names, db, order, scans)); var row := after.sources[id];
            && row.id == id && row.key.root in db.roots
            && (row.record.Some? ==> row.record.value in after.records)
            && (row.replacedBy.Some? ==> row.replacedBy.value in after.sources)
            && (forall g :: id == names.idOf(g) ==> row.identity == g)
  {
    var plan := PlanOf(names, db, order, scans);
    var base := AddSources(db.sources, plan.newSources)[id];
    SourceShape(db, plan, id);
    AddSourcesFacts(db.sources, plan.newSources);
    UpdateOfFacts(plan.updates, id);
    if UpdateOf(plan.updates, id).Some? {
      UpdateRoots(names, db, order, scans, UpdateOf(plan.updates, id).value);
    }
    if IsNew(plan.newSources, id) {
      CreatedSource(names, db, order, scans, base);
    }
    if r :| r in plan.replacements && r.retired == id {
      ReplacedSourcesAreDeleted(names, db, order, scans, r);
    }
    var row := Apply(db, plan).sources[id];
    if row.replacedBy.Some? {
      KeptSourcesStay(db, plan, row.replacedBy.value);
    }
  }

  lemma LocationStaysValid(names: Naming, db: Db, order: seq<SourceId>, scans: seq<RootScan>, l: nat)
    requires Ready(names, db, order, scans) && ValidSnapshot(SnapshotOf(db, order))
    requires l in Apply(db, PlanOf(names, db, order, scans)).locations
    ensures var after := Apply(db, PlanOf(names, db, order, scans)); var row := after.locations[l];
            0 < l < after.nextLocation && row.source in after.sources && row.key.root in db.roots
  {
    var snap, files := SnapshotOf(db, order), ScannedFiles(scans);
    var plan := PlanOf(names, db, order, scans);
    FinalRows(names, db, order, scans);
    StagedRows(db, plan);
    if l in db.locations {
      LostSources(names, db, order, scans, db.locations[l].source);
      assert db.locations[l].source in Live(names, snap, scans);
      KeptSourcesStay(db, plan, db.locations[l].source);
    } else {
      var n := plan.newLocations[l - db.nextLocation];
      assert n in plan.newLocations;
      InsertedMembers(names, snap, files, Identities(files));
      var f :| f in files && f.identity in Identities(files) && Inserts(names, snap, f, n);
      OwnerAfter(names, db, order, scans, f.identity);
      FileRoots(db, scans);
    }
  }

  // ---------------------------------------------------------------- jobs

  /** Jobs keep their source through every rewrite of a scan. */
  lemma {:induction false} JobSources(
    jobs: seq<Job>, replacements: seq<Replacement>, ids: set<SourceId>, restarted: seq<SourceId>)
    ensures forall j ::
            j in SupersedeJobs(jobs, replacements)
            ==> exists k :: k in jobs && k.source == j.source && k.record == j.record
    ensures forall j :: j in WithoutSources(jobs, ids) ==> j in jobs && (j.source.Some? ==> j.source.value !in ids)
    ensures forall j ::
            j in ReactivateJobs(jobs, restarted)
            ==> exists k :: k in jobs && k.source == j.source && k.record == j.record
    decreases |jobs|
  {
    if jobs != [] {
      JobSources(jobs[..|jobs| - 1], replacements, ids, restarted);
      assert jobs == jobs[..|jobs| - 1] + [jobs[|jobs| - 1]];
    }
  }

  lemma {:induction false} ScanJobSources(sources: seq<SourceId>)
    ensures forall j :: j in ScanJobs(sources) ==> j.source.Some? && j.source.value in sources && j.record.None?
    decreases |sources|
  {
    if sources != [] {
      ScanJobSources(sources[..|sources| - 1]);
    }
  }

  lemma {:induction false} JobListSources(states: map<SourceId, JobState>, owners: seq<SourceId>)
    ensures forall id :: id in JobInserts(states, owners) ==> id in owners
    ensures forall id :: id in JobReactivations(states, owners) ==> id in owners
    decreases |owners|
  {
    if owners != [] {
      JobListSources(states, owners[..|owners| - 1]);
    }
  }

  /** Every job after a scan is a new scan job or an earlier job of a surviving target. */
  lemma FinalJob(db: Db, plan: Plan, j: Job)
    requires j in Apply(db, plan).jobs
    ensures || j in ScanJobs(plan.jobInserts)
            || ((j.source.Some? ==> j.source.value !in plan.deletedSources)
                && exists k :: k in db.jobs && k.source == j.source && k.record == j.record)
  {
    var lost := set id | id in plan.deletedSources;
    var superseded := SupersedeJobs(db.jobs, plan.replacements);
    var kept := WithoutSources(superseded, lost);
    JobSources(kept, plan.replacements, lost, plan.jobReactivations);
    JobSources(superseded, plan.replacements, lost, plan.jobReactivations);
    JobSources(db.jobs, plan.replacements, lost, plan.jobReactivations);
  }

  lemma InsertedJobSource(names: Naming, db: Db, order: seq<SourceId>, scans: seq<RootScan>, id: SourceId)
    requires Ready(names, db, order, scans) && ValidSnapshot(SnapshotOf(db, order))
    requires id in PlanOf(names, db, order, scans).jobInserts
    ensures id in Apply(db, PlanOf(names, db, order, scans)).sources
  {
    var snap, gs := SnapshotOf(db, order), Identities(ScannedFiles(scans));
    JobListSources(ScanJobStates(db.jobs), Owners(names, snap, gs));
    var i :| 0 <= i < |gs| && Owners(names, snap, gs)[i] == id;
    OwnerAfter(names, db, order, scans, gs[i]);
  }

  lemma JobsStayValid(names: Naming, db: Db, order: seq<SourceId>, scans: seq<RootScan>, j: Job)
    requires Ready(names, db, order, scans) && ValidSnapshot(SnapshotOf(db, order))
    requires j in Apply(db, PlanOf(names, db, order, scans)).jobs
    ensures j.source.Some? ==> j.source.value in Apply(db, PlanOf(names, db, order, scans)).sources
    ensures j.record.Some? ==> j.record.value in db.records
  {
    var plan := PlanOf(names, db, order, scans);
    FinalJob(db, plan, j);
    ScanJobSources(plan.jobInserts);
    if j in ScanJobs(plan.jobInserts) {
      InsertedJobSource(names, db, order, scans, j.source.value);
    } else if j.source.Some? {
      KeptSourcesStay(db, plan, j.source.value);
    }
  }

  lemma RefreshedRecordsExist(names: Naming, db: Db, order: seq<SourceId>, scans: seq<RootScan>)
    requires Ready(names, db, order, scans) && ValidSnapshot(SnapshotOf(db, order))
    ensures PlanOf(names, db, order, scans).refresh <= db.records
    ensures PlanOf(names, db, order, scans).refresh !! db.activeRefresh
  {
    var snap, files := SnapshotOf(db, order), ScannedFiles(scans);
    ReplacementMembers(names, snap, files, Identities(files));
    forall r | r in Replacements(names, snap, files, Identities(files)) ensures r.record in db.records {
      var g :| g in Identities(files) && r in Retirement(names, snap, files, g);
    }
  }

  /** A scan keeps every foreign key, the uniqueness of (root, path) and the meaning of digest ids. */
  lemma ScanKeepsDb(names: Naming, db: Db, order: seq<SourceId>, scans: seq<RootScan>)
    requires Ready(names, db, order, scans) && ValidSnapshot(SnapshotOf(db, order))
    ensures var after := Apply(db, PlanOf(names, db, order, scans)); ValidDb(after) && HashedIds(names, after)
  {
    var plan := PlanOf(names, db, order, scans);
    var after := Apply(db, plan);
    assert SourcesValid(after) && HashedIds(names, after) by {
      forall id | id in after.sources ensures (forall g :: id == names.idOf(g) ==> after.sources[id].identity == g) {
        SourceStaysValid(names, db, order, scans, id);
      }
      forall id | id in after.sources { SourceStaysValid(names, db, order, scans, id); }
    }
    assert LocationsValid(after) by {
      RowsStayUnique(names, db, order, scans);
      forall l | l in after.locations { LocationStaysValid(names, db, order, scans, l); }
    }
    assert ReferencesValid(after) by {
      forall j | j in after.jobs { JobsStayValid(names, db, order, scans, j); }
      RefreshedRecordsExist(names, db, order, scans);
      DetachedPublications(names, db, order, scans);
    }
  }

  /** The rows a scan takes: those not current whose source it deletes. Every other row stays, at most detached. */
  lemma DetachedPublications(names: Naming, db: Db, order: seq<SourceId>, scans: seq<RootScan>)
    requires Ready(names, db, order, scans) && ValidSnapshot(SnapshotOf(db, order))
    ensures var plan := PlanOf(names, db, order, scans);
            var rows, after := db.publications, Apply(db, plan).publications;
            && after.Keys <= rows.Keys
            && (forall p :: p in rows ==>
                  (p !in after <==>
                    !rows[p].current && rows[p].source.Some?
                    && rows[p].source.value in plan.deletedSources))
            && (forall p :: p in after ==>
                  after[p] == if rows[p].source.Some? && rows[p].source.value in plan.deletedSources
                              then rows[p].(source := None) else rows[p])
            && (forall p :: p in after && after[p].source.Some? ==> after[p].source.value in Apply(db, plan).sources)
  {
    var plan := PlanOf(names, db, order, scans);
    var after := Apply(db, plan);
    forall p | p in after.publications && after.publications[p].source.Some?
      ensures after.publications[p].source.value in after.sources
    {
      KeptSourcesStay(db, plan, after.publications[p].source.value);
    }
  }
}
