/** What the counters, the record refreshes and the returning sources of a plan are. */
module ReconciliationCounts {
  import opened Wrappers
  import opened Ordering
  import opened Reconciliation
  import opened ReconciliationFacts
  import opened ReconciliationProperties
  import opened ReconciliationMeaning

  // ---------------------------------------------------------------- identities, kind by kind

  /** Something is recorded at the path of one of the identity's files. */
  ghost predicate AnyHeld(snap: Snapshot, files: seq<File>, g: Identity) {
    exists f :: f in files && f.identity == g && IsHeld(snap, f.key)
  }

  /** A row of the source is at this path, or the source has no row and its own columns name the path. */
  ghost predicate KnownAt(snap: Snapshot, id: SourceId, key: Key) {
    StandsAt(snap, id, key) || exists l :: l in snap.locations && snap.locations[l] == Location(id, key)
  }

  ghost predicate HasMoved(snap: Snapshot, files: seq<File>, g: Identity) {
    exists id :: IsFirstSource(snap, g, id) && forall f :: f in files && f.identity == g ==> !KnownAt(snap, id, f.key)
  }

  ghost function Scanned(files: seq<File>): set<Identity> {
    set f | f in files :: f.identity
  }

  ghost function AddedOf(snap: Snapshot, files: seq<File>): set<Identity> {
    set g | g in Scanned(files) && !HasSource(snap, g) && !AnyHeld(snap, files, g)
  }

  ghost function ChangedOf(snap: Snapshot, files: seq<File>): set<Identity> {
    set g | g in Scanned(files) && !HasSource(snap, g) && AnyHeld(snap, files, g)
  }

  ghost function MovedOf(snap: Snapshot, files: seq<File>): set<Identity> {
    set g | g in Scanned(files) && HasMoved(snap, files, g)
  }

  lemma AddedMeans(snap: Snapshot, files: seq<File>, g: Identity)
    requires ValidSnapshot(snap)
    ensures IfAdded(snap, files, g) == if !HasSource(snap, g) && !AnyHeld(snap, files, g) then 1 else 0
    ensures IfChanged(snap, files, g) == if !HasSource(snap, g) && AnyHeld(snap, files, g) then 1 else 0
  {
    ExistingMeans(snap, g);
    FirstRecordedMeans(snap, files, g);
  }

  lemma KnownMeans(snap: Snapshot, id: SourceId, key: Key)
    requires id in snap.sources
    ensures KnownAt(snap, id, key) <==> RecordedAt(snap, id, key)
  {
  }

  lemma MovedMeans(snap: Snapshot, files: seq<File>, g: Identity)
    requires ValidSnapshot(snap)
    ensures IfMoved(snap, files, g) == if HasMoved(snap, files, g) then 1 else 0
  {
    ExistingMeans(snap, g);
    GroupMembers(files, g);
    var group := Group(files, g);
    if Existing(snap, g).Some? {
      var id := Existing(snap, g).value;
      forall f | f in files && f.identity == g
        ensures f in group && (KnownAt(snap, id, f.key) <==> RecordedAt(snap, id, f.key))
      {
        KnownMeans(snap, id, f.key);
      }
      forall i | 0 <= i < |group| ensures group[i] in files && group[i].identity == g {
        assert group[i] in group;
      }
    }
  }

  // ---------------------------------------------------------------- counting them

  lemma OneMoreCounted(gs: seq<Identity>, counted: set<Identity>)
    requires gs != [] && NoDup(gs)
    ensures var before, last := gs[..|gs| - 1], gs[|gs| - 1];
            && NoDup(before)
            && |set g | g in gs && g in counted|
               == |set g | g in before && g in counted| + if last in counted then 1 else 0
  {
    var before, last := gs[..|gs| - 1], gs[|gs| - 1];
    assert forall i, k :: 0 <= i < k < |before| ==> gs[i] != gs[k];
    assert last !in before;
    assert gs == before + [last];
    var earlier := set g | g in before && g in counted;
    assert (set g | g in gs && g in counted) == earlier + if last in counted then {last} else {};
  }

  lemma {:induction false} CountsOfGroups(snap: Snapshot, files: seq<File>, gs: seq<Identity>)
    requires ValidSnapshot(snap) && NoDup(gs) && forall g :: g in gs ==> g in Scanned(files)
    ensures AddedCount(snap, files, gs) == |set g | g in gs && g in AddedOf(snap, files)|
    ensures ChangedCount(snap, files, gs) == |set g | g in gs && g in ChangedOf(snap, files)|
    ensures MovedCount(snap, files, gs) == |set g | g in gs && g in MovedOf(snap, files)|
    decreases |gs|
  {
    if gs != [] {
      var before, last := gs[..|gs| - 1], gs[|gs| - 1];
      OneMoreCounted(gs, AddedOf(snap, files));
      OneMoreCounted(gs, ChangedOf(snap, files));
      OneMoreCounted(gs, MovedOf(snap, files));
      CountsOfGroups(snap, files, before);
      AddedMeans(snap, files, last);
      MovedMeans(snap, files, last);
    }
  }

  lemma CountsAre(snap: Snapshot, files: seq<File>)
    requires ValidSnapshot(snap)
    ensures AddedCount(snap, files, Identities(files)) == |AddedOf(snap, files)|
    ensures ChangedCount(snap, files, Identities(files)) == |ChangedOf(snap, files)|
    ensures MovedCount(snap, files, Identities(files)) == |MovedOf(snap, files)|
  {
    var gs := Identities(files);
    IdentitiesMembers(files);
    assert forall g :: g in gs <==> g in Scanned(files);
    CountsOfGroups(snap, files, gs);
    assert AddedOf(snap, files) == set g | g in gs && g in AddedOf(snap, files);
    assert ChangedOf(snap, files) == set g | g in gs && g in ChangedOf(snap, files);
    assert MovedOf(snap, files) == set g | g in gs && g in MovedOf(snap, files);
  }

  // ---------------------------------------------------------------- deleted sources

  ghost function UnreplacedOf(deleted: seq<SourceId>, replacements: seq<Replacement>): set<SourceId> {
    set id | id in deleted && forall r :: r in replacements ==> r.retired != id
  }

  lemma {:induction false} RemovedIs(deleted: seq<SourceId>, replacements: seq<Replacement>)
    requires NoDup(deleted)
    ensures RemovedCount(deleted, replacements) == |UnreplacedOf(deleted, replacements)|
    decreases |deleted|
  {
    if deleted != [] {
      var before, last := deleted[..|deleted| - 1], deleted[|deleted| - 1];
      assert forall i, k :: 0 <= i < k < |before| ==> deleted[i] != deleted[k];
      RemovedIs(before, replacements);
      assert last !in before && deleted == before + [last];
      OneMoreUnreplaced(before, last, replacements);
    }
  }

  lemma OneMoreUnreplaced(before: seq<SourceId>, last: SourceId, replacements: seq<Replacement>)
    requires last !in before
    ensures |UnreplacedOf(before + [last], replacements)|
            == |UnreplacedOf(before, replacements)| + if IsReplaced(replacements, last) then 0 else 1
  {
    var earlier := UnreplacedOf(before, replacements);
    forall id ensures id in UnreplacedOf(before + [last], replacements) <==>
                      id in earlier || (id == last && !IsReplaced(replacements, last)) {
    }
    assert UnreplacedOf(before + [last], replacements)
        == earlier + if IsReplaced(replacements, last) then {} else {last};
  }

  lemma {:induction false} LostNoDup(order: seq<SourceId>, kept: set<SourceId>)
    requires NoDup(order)
    ensures NoDup(Lost(order, kept))
    decreases |order|
  {
    if order != [] {
      var before, last := order[..|order| - 1], order[|order| - 1];
      assert forall i, k :: 0 <= i < k < |before| ==> order[i] != order[k];
      LostNoDup(before, kept);
      LostMembers(before, kept);
      assert last !in before;
    }
  }

  /** What the counters of a plan count. */
  lemma ResultCounts(names: Naming, snap: Snapshot, scans: seq<RootScan>)
    requires ValidSnapshot(snap)
    ensures var plan, files := PlanSpec(names, snap, scans), ScannedFiles(scans);
            && plan.result.added == |AddedOf(snap, files)| && plan.result.changed == |ChangedOf(snap, files)|
            && plan.result.moved == |MovedOf(snap, files)|
            && plan.result.removed == |UnreplacedOf(plan.deletedSources, plan.replacements)|
            && plan.result.unchangedFiles
               == |files| - (plan.result.added + plan.result.changed + plan.result.moved)
            && plan.result.queuedJobs == |plan.jobInserts| + |plan.jobReactivations|
  {
    var plan := PlanSpec(names, snap, scans);
    CountsAre(snap, ScannedFiles(scans));
    LostNoDup(snap.order, Live(names, snap, scans) + Seen(names, snap, scans));
    RemovedIs(plan.deletedSources, plan.replacements);
  }

  // ---------------------------------------------------------------- records to refresh

  /** The record was kept by a changed file, or belonged to a source that is deleted. */
  ghost predicate LosesSource(names: Naming, snap: Snapshot, scans: seq<RootScan>, record: RecordId)
    requires ValidSnapshot(snap)
  {
    || (exists f, r :: IsCandidate(names, snap, ScannedFiles(scans), f, r) && r.record == record)
    || (exists id :: id in PlanSpec(names, snap, scans).deletedSources && id in snap.sources
                     && snap.sources[id].record == Some(record))
  }

  lemma RefreshedRecords(names: Naming, snap: Snapshot, scans: seq<RootScan>, record: RecordId)
    requires ValidSnapshot(snap) && DistinctKeys(ScannedFiles(scans))
    ensures record in PlanSpec(names, snap, scans).refresh <==>
            record !in snap.activeRefresh && LosesSource(names, snap, scans, record)
  {
    var files, plan := ScannedFiles(scans), PlanSpec(names, snap, scans);
    var candidates := Replacements(names, snap, files, Identities(files));
    forall r ensures r in candidates <==> exists f :: IsCandidate(names, snap, files, f, r) {
      CandidatesAre(names, snap, files, r);
    }
    RefreshParts(names, snap, scans, record);
  }

  lemma RefreshParts(names: Naming, snap: Snapshot, scans: seq<RootScan>, record: RecordId)
    requires ValidSnapshot(snap)
    ensures var files, plan := ScannedFiles(scans), PlanSpec(names, snap, scans);
            record in plan.refresh <==>
            && record !in snap.activeRefresh
            && ((exists r :: r in Replacements(names, snap, files, Identities(files)) && r.record == record)
                || exists id :: id in plan.deletedSources && id in snap.sources
                                && snap.sources[id].record == Some(record))
  {
  }

  // ---------------------------------------------------------------- returning sources

  /** The owners of scanned identities that had disappeared and have a record. */
  lemma ReturningSources(names: Naming, snap: Snapshot, scans: seq<RootScan>, r: Reappearance)
    requires ValidSnapshot(snap)
    ensures r in PlanSpec(names, snap, scans).reappeared <==>
            exists f :: f in ScannedFiles(scans) && IsFirstSource(snap, f.identity, r.source)
                        && snap.sources[r.source].intake == Disappeared
                        && snap.sources[r.source].record == Some(r.record)
  {
    var files := ScannedFiles(scans);
    ReappearedMembers(snap, Identities(files));
    IdentitiesMembers(files);
    forall g ensures Existing(snap, g) == Some(r.source) <==> IsFirstSource(snap, g, r.source) {
      ExistingMeans(snap, g);
      FirstSourceMeans(snap, g, r.source);
    }
  }
}
