/** The tables after a scan, in terms of the tables before it and the scanned files alone. */
module ReconciliationOutcome {
  import opened Wrappers
  import opened Ordering
  import opened Reconciliation
  import opened ReconciliationFacts
  import opened ReconciliationStore
  import opened ReconciliationProperties
  import opened ReconciliationIndex
  import opened ReconciliationIntegrity
  import opened ReconciliationStability
  import opened ReconciliationMeaning

  // ---------------------------------------------------------------- which sources go

  ghost predicate OwnsScanned(names: Naming, db: Db, order: seq<SourceId>, scans: seq<RootScan>, id: SourceId) {
    exists f :: f in ScannedFiles(scans) && Owns(names, SnapshotOf(db, order), f.identity, id)
  }

  lemma SeenMeans(names: Naming, db: Db, order: seq<SourceId>, scans: seq<RootScan>, id: SourceId)
    requires ValidSnapshot(SnapshotOf(db, order))
    ensures id in Seen(names, SnapshotOf(db, order), scans) <==> OwnsScanned(names, db, order, scans, id)
  {
    var snap := SnapshotOf(db, order);
    SeenFacts(names, snap, scans, id);
    forall f | f in ScannedFiles(scans)
      ensures Owns(names, snap, f.identity, id) <==> id == Owner(names, snap, f.identity)
    {
      OwnerMeans(names, snap, f.identity, id);
    }
  }

  lemma RecordedIsLive(names: Naming, db: Db, order: seq<SourceId>, scans: seq<RootScan>, id: SourceId, key: Key)
    requires Ready(names, db, order, scans) && ValidSnapshot(SnapshotOf(db, order))
    requires Recorded(Apply(db, PlanOf(names, db, order, scans)), id, key)
    ensures id in Live(names, SnapshotOf(db, order), scans)
  {
    RecordedAfter(names, db, order, scans, id, key);
  }

  /** A scan deletes the sources that end without a row and own no scanned identity. */
  lemma DeletedSourcesAre(names: Naming, db: Db, order: seq<SourceId>, scans: seq<RootScan>, id: SourceId)
    requires Ready(names, db, order, scans) && ValidSnapshot(SnapshotOf(db, order))
    ensures var plan := PlanOf(names, db, order, scans);
            id in plan.deletedSources <==>
            && id in db.sources && !OwnsScanned(names, db, order, scans, id)
            && forall key :: !Recorded(Apply(db, plan), id, key)
  {
    LostSources(names, db, order, scans, id);
    SeenMeans(names, db, order, scans, id);
    if id in Live(names, SnapshotOf(db, order), scans) {
      LiveIsRecorded(names, db, order, scans, id);
    }
    if key :| Recorded(Apply(db, PlanOf(names, db, order, scans)), id, key) {
      RecordedIsLive(names, db, order, scans, id, key);
    }
  }

  // ---------------------------------------------------------------- replacements

  /** The pairs of a plan: the source a changed file was recorded under, once it is deleted. */
  lemma ReplacementsAre(names: Naming, db: Db, order: seq<SourceId>, scans: seq<RootScan>, r: Replacement)
    requires Ready(names, db, order, scans) && ValidSnapshot(SnapshotOf(db, order))
    ensures var plan := PlanOf(names, db, order, scans);
            r in plan.replacements <==>
            && r.retired in plan.deletedSources
            && exists f :: IsCandidate(names, SnapshotOf(db, order), ScannedFiles(scans), f, r)
  {
    CandidatesAre(names, SnapshotOf(db, order), ScannedFiles(scans), r);
    PairPart(names, db, order, scans, r);
  }

  lemma PairPart(names: Naming, db: Db, order: seq<SourceId>, scans: seq<RootScan>, r: Replacement)
    requires Ready(names, db, order, scans) && ValidSnapshot(SnapshotOf(db, order))
    ensures var plan, files := PlanOf(names, db, order, scans), ScannedFiles(scans);
            r in plan.replacements <==>
            && r.retired in plan.deletedSources
            && r in Replacements(names, SnapshotOf(db, order), files, Identities(files))
  {
    var snap, files := SnapshotOf(db, order), ScannedFiles(scans);
    PairsMembers(Replacements(names, snap, files, Identities(files)), Live(names, snap, scans));
    LostSources(names, db, order, scans, r.retired);
    if r in PlanOf(names, db, order, scans).replacements {
      ReplacedSourcesAreDeleted(names, db, order, scans, r);
    }
  }

  // ---------------------------------------------------------------- new sources

  lemma NewRow(names: Naming, db: Db, order: seq<SourceId>, scans: seq<RootScan>, f: File)
    requires Ready(names, db, order, scans) && ValidSnapshot(SnapshotOf(db, order))
    requires f in ScannedFiles(scans) && !HasSource(SnapshotOf(db, order), f.identity)
    ensures var plan, id := PlanOf(names, db, order, scans), names.idOf(f.identity);
            id in Apply(db, plan).sources && Apply(db, plan).sources[id] in plan.newSources
  {
    var plan, id := PlanOf(names, db, order, scans), names.idOf(f.identity);
    IdentitiesMembers(ScannedFiles(scans));
    OwnerMeans(names, SnapshotOf(db, order), f.identity, id);
    OwnerAfter(names, db, order, scans, f.identity);
    OwnerFacts(names, db, order, f.identity);
    OwnerIsKept(names, db, order, scans, f.identity);
    AddSourcesFacts(db.sources, plan.newSources);
    SourceShape(db, plan, id);
    NewRowIsWritten(names, db, order, scans, id);
  }

  lemma NewRowIsWritten(names: Naming, db: Db, order: seq<SourceId>, scans: seq<RootScan>, id: SourceId)
    requires Ready(names, db, order, scans) && ValidSnapshot(SnapshotOf(db, order))
    requires id !in db.sources && IsNew(PlanOf(names, db, order, scans).newSources, id)
    requires var plan := PlanOf(names, db, order, scans);
             id !in plan.deletedSources && !IsReplaced(plan.replacements, id)
    ensures var plan := PlanOf(names, db, order, scans);
            && id in Apply(db, plan).sources
            && Apply(db, plan).sources[id] == AddSources(db.sources, plan.newSources)[id]
            && AddSources(db.sources, plan.newSources)[id] in plan.newSources
  {
    var plan := PlanOf(names, db, order, scans);
    AddSourcesFacts(db.sources, plan.newSources);
    var base := AddSources(db.sources, plan.newSources)[id];
    CreatedSource(names, db, order, scans, base);
    if IsReappeared(plan.reappeared, id) {
      ReappearedIsOwner(names, db, order, scans, id);
    }
    TouchedShape(db, plan, id);
    FinalSource(db, plan, id);
  }

  /** After a scan the source of an identity that had none is described by the rows, sources and files before it. */
  lemma NewSourceAfter(names: Naming, db: Db, order: seq<SourceId>, scans: seq<RootScan>, f: File)
    requires Ready(names, db, order, scans) && ValidSnapshot(SnapshotOf(db, order))
    requires IsLeastFile(ScannedFiles(scans), f) && !HasSource(SnapshotOf(db, order), f.identity)
    ensures var after := Apply(db, PlanOf(names, db, order, scans));
            && names.idOf(f.identity) in after.sources
            && DescribesNew(names, SnapshotOf(db, order), ScannedFiles(scans), f, after.sources[names.idOf(f.identity)])
  {
    NewRow(names, db, order, scans, f);
    var s := Apply(db, PlanOf(names, db, order, scans)).sources[names.idOf(f.identity)];
    SourceShape(db, PlanOf(names, db, order, scans), names.idOf(f.identity));
    NewSourceIs(names, SnapshotOf(db, order), scans, f, s);
  }

  lemma NewSourceIs(names: Naming, snap: Snapshot, scans: seq<RootScan>, f: File, s: Source)
    requires ValidSnapshot(snap) && DistinctKeys(ScannedFiles(scans)) && CollisionFree(names)
    requires s in PlanSpec(names, snap, scans).newSources && s.id == names.idOf(f.identity)
    requires IsLeastFile(ScannedFiles(scans), f)
    ensures DescribesNew(names, snap, ScannedFiles(scans), f, s)
  {
    NewSourcesAre(names, snap, scans, s);
    var other :| DescribesNew(names, snap, ScannedFiles(scans), other, s);
    LeastFileIsUnique(ScannedFiles(scans), f, other);
  }

  /** Every replacement pair names the record its successor has afterwards. */
  lemma SuccessorKeepsRecord(names: Naming, db: Db, order: seq<SourceId>, scans: seq<RootScan>, r: Replacement)
    requires Ready(names, db, order, scans) && ValidSnapshot(SnapshotOf(db, order))
    requires r in PlanOf(names, db, order, scans).replacements
    ensures var after := Apply(db, PlanOf(names, db, order, scans));
            && r.retired in db.sources && db.sources[r.retired].record == Some(r.record)
            && r.successor in after.sources && after.sources[r.successor].record == Some(r.record)
  {
    var snap, files := SnapshotOf(db, order), ScannedFiles(scans);
    ReplacementsAre(names, db, order, scans, r);
    var f :| IsCandidate(names, snap, files, f, r);
    GroupMembers(files, f.identity);
    GroupStartsWithLeast(files, f.identity);
    var first := Group(files, f.identity)[0];
    NewSourceAfter(names, db, order, scans, first);
    KeepsMeans(snap, files, f.identity, r.record);
    KeepsMeans(snap, files, f.identity, Apply(db, PlanOf(names, db, order, scans)).sources[r.successor].record.value);
    assert KeepsRecord(snap, files, f.identity, r.record);
  }

  // ---------------------------------------------------------------- known sources

  lemma KnownRowIsWritten(names: Naming, db: Db, order: seq<SourceId>, scans: seq<RootScan>, id: SourceId)
    requires Ready(names, db, order, scans) && ValidSnapshot(SnapshotOf(db, order))
    requires id in db.sources && id !in PlanOf(names, db, order, scans).deletedSources
    ensures var plan := PlanOf(names, db, order, scans);
            var row := Returned(plan, Relocated(plan, db.sources[id]));
            && !IsNew(plan.newSources, id)
            && id in Apply(db, plan).sources
            && Apply(db, plan).sources[id]
               == row.(replacedBy := if row.replacedBy.Some? && row.replacedBy.value in plan.deletedSources
                                     then None else row.replacedBy)
  {
    var plan := PlanOf(names, db, order, scans);
    AddSourcesFacts(db.sources, plan.newSources);
    if IsNew(plan.newSources, id) {
      CreatedSource(names, db, order, scans, AddSources(db.sources, plan.newSources)[id]);
    }
    SurvivorIsNotReplaced(names, db, order, scans, id);
    TouchedShape(db, plan, id);
    assert Returned(plan, Relocated(plan, db.sources[id])).id == id;
  }

  /** The first file of a scanned identity the source owns. */
  ghost predicate IsItsFile(db: Db, order: seq<SourceId>, scans: seq<RootScan>, id: SourceId, f: File) {
    IsLeastFile(ScannedFiles(scans), f) && IsFirstSource(SnapshotOf(db, order), f.identity, id)
  }

  lemma UpdateMeans(names: Naming, db: Db, order: seq<SourceId>, scans: seq<RootScan>, id: SourceId, f: File)
    requires Ready(names, db, order, scans) && ValidSnapshot(SnapshotOf(db, order))
    requires id in db.sources && IsItsFile(db, order, scans, id, f)
    ensures UpdateOf(PlanOf(names, db, order, scans).updates, id) == Some(Update(id, f.key, f.device))
  {
    var files, snap := ScannedFiles(scans), SnapshotOf(db, order);
    var g := f.identity;
    FirstSourceMeans(snap, g, id);
    IdentitiesMembers(files);
    GroupMembers(files, g);
    GroupStartsWithLeast(files, g);
    LeastFileIsUnique(files, f, Group(files, g)[0]);
    OwnerUpdate(names, db, order, scans, g);
  }

  lemma NoUpdateMeans(names: Naming, db: Db, order: seq<SourceId>, scans: seq<RootScan>, id: SourceId)
    requires Ready(names, db, order, scans) && ValidSnapshot(SnapshotOf(db, order)) && id in db.sources
    requires UpdateOf(PlanOf(names, db, order, scans).updates, id).Some?
    ensures exists f :: IsItsFile(db, order, scans, id, f)
  {
    var files, snap := ScannedFiles(scans), SnapshotOf(db, order);
    var updates, gs := PlanOf(names, db, order, scans).updates, Identities(files);
    GroupsAreNonEmpty(files);
    UpdatedMembers(names, snap, files, gs);
    UpdateOfFacts(updates, id);
    var i :| 0 <= i < |gs| && updates[i] == UpdateOf(updates, id).value;
    OwnerFacts(names, db, order, gs[i]);
    FirstSourceMeans(snap, gs[i], id);
    GroupStartsWithLeast(files, gs[i]);
    assert IsItsFile(db, order, scans, id, Group(files, gs[i])[0]);
  }

  lemma ReturnMeans(names: Naming, db: Db, order: seq<SourceId>, scans: seq<RootScan>, id: SourceId)
    requires Ready(names, db, order, scans) && ValidSnapshot(SnapshotOf(db, order)) && id in db.sources
    ensures IsReappeared(PlanOf(names, db, order, scans).reappeared, id) <==>
              && db.sources[id].intake == Disappeared && db.sources[id].record.Some?
              && exists f :: IsItsFile(db, order, scans, id, f)
  {
    if r :| r in PlanOf(names, db, order, scans).reappeared && r.source == id {
      ReturnedFile(db, order, scans, r);
    }
    if f :| IsItsFile(db, order, scans, id, f) {
      if db.sources[id].intake == Disappeared && db.sources[id].record.Some? {
        FileReturns(db, order, scans, id, f);
      }
    }
  }

  lemma ReturnedFile(db: Db, order: seq<SourceId>, scans: seq<RootScan>, r: Reappearance)
    requires ValidSnapshot(SnapshotOf(db, order))
    requires r in Reappeared(SnapshotOf(db, order), Identities(ScannedFiles(scans)))
    ensures r.source in db.sources
    ensures db.sources[r.source].intake == Disappeared && db.sources[r.source].record.Some?
    ensures exists f :: IsItsFile(db, order, scans, r.source, f)
  {
    var files, snap := ScannedFiles(scans), SnapshotOf(db, order);
    ReappearedMembers(snap, Identities(files));
    var g :| g in Identities(files) && Existing(snap, g).Some? && IsReturn(snap, Existing(snap, g).value)
             && r.source == Existing(snap, g).value;
    FirstSourceMeans(snap, g, r.source);
    GroupsAreNonEmpty(files);
    GroupStartsWithLeast(files, g);
    assert IsItsFile(db, order, scans, r.source, Group(files, g)[0]);
  }

  lemma FileReturns(db: Db, order: seq<SourceId>, scans: seq<RootScan>, id: SourceId, f: File)
    requires ValidSnapshot(SnapshotOf(db, order)) && id in db.sources && IsItsFile(db, order, scans, id, f)
    requires db.sources[id].intake == Disappeared && db.sources[id].record.Some?
    ensures IsReappeared(Reappeared(SnapshotOf(db, order), Identities(ScannedFiles(scans))), id)
  {
    var files, snap := ScannedFiles(scans), SnapshotOf(db, order);
    ReappearedMembers(snap, Identities(files));
    FirstSourceMeans(snap, f.identity, id);
    IdentitiesMembers(files);
    assert f.identity in Identities(files) && IsReturn(snap, id);
    assert Reappearance(id, snap.sources[id].record.value) in Reappeared(snap, Identities(files));
  }

  /** A source that stays moves to its identity's first file, returns if it had disappeared, and keeps the rest. */
  lemma KnownSourceAfter(names: Naming, db: Db, order: seq<SourceId>, scans: seq<RootScan>, id: SourceId)
    requires Ready(names, db, order, scans) && ValidSnapshot(SnapshotOf(db, order))
    requires id in db.sources && id !in PlanOf(names, db, order, scans).deletedSources
    ensures var plan := PlanOf(names, db, order, scans);
            var was := db.sources[id];
            id in Apply(db, plan).sources &&
            var row := Apply(db, plan).sources[id];
            && row.id == id && row.identity == was.identity && row.record == was.record
            && (forall f :: IsItsFile(db, order, scans, id, f) ==> row.key == f.key && row.device == f.device)
            && ((forall f :: !IsItsFile(db, order, scans, id, f)) ==> row.key == was.key && row.device == was.device)
            && row.intake == (if was.intake == Disappeared && was.record.Some?
                                 && exists f :: IsItsFile(db, order, scans, id, f) then NeedsReview else was.intake)
            && row.replacedBy == (if was.replacedBy.Some? && was.replacedBy.value in plan.deletedSources
                                  then None else was.replacedBy)
  {
    var plan := PlanOf(names, db, order, scans);
    KnownRowIsWritten(names, db, order, scans, id);
    ReturnMeans(names, db, order, scans, id);
    forall f | IsItsFile(db, order, scans, id, f)
      ensures UpdateOf(plan.updates, id) == Some(Update(id, f.key, f.device))
    {
      UpdateMeans(names, db, order, scans, id, f);
    }
    if UpdateOf(plan.updates, id).Some? {
      NoUpdateMeans(names, db, order, scans, id);
    }
  }

  // ---------------------------------------------------------------- location rows

  lemma StandInHitMeans(names: Naming, snap: Snapshot, f: File)
    requires ValidSnapshot(snap)
    ensures StandInHit(names, snap, f) <==>
            !HasRowAt(snap, f.key) && exists id :: Owns(names, snap, f.identity, id) && Holds(snap, f.key, id)
  {
    var owner := Owner(names, snap, f.identity);
    RowAtMeans(snap, f.key);
    HolderMeans(snap, f.key, owner);
    forall id ensures Owns(names, snap, f.identity, id) <==> id == owner {
      OwnerMeans(names, snap, f.identity, id);
    }
  }

  /** The file has a row afterwards unless only its owner's own columns stood for one. */
  ghost predicate GetsRow(names: Naming, snap: Snapshot, f: File, id: SourceId) {
    Owns(names, snap, f.identity, id) && (HasRowAt(snap, f.key) || !Holds(snap, f.key, id))
  }

  lemma RowAtScannedFile(names: Naming, db: Db, order: seq<SourceId>, scans: seq<RootScan>, f: File, id: SourceId)
    requires Ready(names, db, order, scans) && ValidSnapshot(SnapshotOf(db, order)) && f in ScannedFiles(scans)
    ensures Recorded(Apply(db, PlanOf(names, db, order, scans)), id, f.key) <==>
            GetsRow(names, SnapshotOf(db, order), f, id)
  {
    RecordedAtFile(names, db, order, scans, f, id);
    OwnerMeans(names, SnapshotOf(db, order), f.identity, id);
    if id == Owner(names, SnapshotOf(db, order), f.identity) {
      StandInHitMeans(names, SnapshotOf(db, order), f);
      forall other | Owns(names, SnapshotOf(db, order), f.identity, other) ensures other == id {
        OwnerMeans(names, SnapshotOf(db, order), f.identity, other);
      }
    }
  }

  /** The rows after a scan: under scanned roots those of the scanned files, elsewhere those that were there. */
  lemma RowsAfterScan(names: Naming, db: Db, order: seq<SourceId>, scans: seq<RootScan>, id: SourceId, key: Key)
    requires Ready(names, db, order, scans) && ValidSnapshot(SnapshotOf(db, order))
    ensures Recorded(Apply(db, PlanOf(names, db, order, scans)), id, key) <==>
            if key.root in ScannedRoots(scans)
            then exists f :: f in ScannedFiles(scans) && f.key == key && GetsRow(names, SnapshotOf(db, order), f, id)
            else Recorded(db, id, key)
  {
    var after := Apply(db, PlanOf(names, db, order, scans));
    if key.root in ScannedRoots(scans) {
      if l :| l in after.locations && after.locations[l] == Location(id, key) {
        RowUnderScannedRoot(names, db, order, scans, l);
      }
      forall f | f in ScannedFiles(scans) && f.key == key
        ensures Recorded(after, id, key) <==> GetsRow(names, SnapshotOf(db, order), f, id)
      {
        RowAtScannedFile(names, db, order, scans, f, id);
      }
    } else {
      RowElsewhere(names, db, order, scans, id, key);
    }
  }

  lemma RowElsewhere(names: Naming, db: Db, order: seq<SourceId>, scans: seq<RootScan>, id: SourceId, key: Key)
    requires Ready(names, db, order, scans) && ValidSnapshot(SnapshotOf(db, order))
    requires key.root !in ScannedRoots(scans)
    ensures Recorded(Apply(db, PlanOf(names, db, order, scans)), id, key) <==> Recorded(db, id, key)
  {
    var after := Apply(db, PlanOf(names, db, order, scans));
    if l :| l in after.locations && after.locations[l] == Location(id, key) {
      UnscannedRowsUntouched(names, db, order, scans, l);
    }
    if l :| l in db.locations && db.locations[l] == Location(id, key) {
      UnscannedRowsUntouched(names, db, order, scans, l);
    }
  }

  /** A row that stays keeps its number, and a number is never given again. */
  lemma KeptRows(names: Naming, db: Db, order: seq<SourceId>, scans: seq<RootScan>, l: nat)
    requires Ready(names, db, order, scans) && ValidSnapshot(SnapshotOf(db, order))
    ensures var after := Apply(db, PlanOf(names, db, order, scans));
            && (l in db.locations && l in after.locations ==> after.locations[l] == db.locations[l])
            && ((l in db.locations && Recorded(after, db.locations[l].source, db.locations[l].key))
                ==> l in after.locations)
            && (l in after.locations && l !in db.locations ==> db.nextLocation <= l < after.nextLocation)
  {
    var plan := PlanOf(names, db, order, scans);
    FinalRows(names, db, order, scans);
    StagedRows(db, plan);
    if l in db.locations && l in plan.deletedLocations {
      var row := db.locations[l];
      RecordedAfter(names, db, order, scans, row.source, row.key);
      assert forall k :: k in db.locations && db.locations[k] == row ==> k == l;
      if NewLocation(row.source, row.key) in plan.newLocations {
        NotInsertedAgain(names, db, order, scans, l);
      }
    }
  }

  lemma NotInsertedAgain(names: Naming, db: Db, order: seq<SourceId>, scans: seq<RootScan>, l: nat)
    requires Ready(names, db, order, scans) && ValidSnapshot(SnapshotOf(db, order)) && l in db.locations
    ensures NewLocation(db.locations[l].source, db.locations[l].key) !in PlanOf(names, db, order, scans).newLocations
  {
    var snap, files := SnapshotOf(db, order), ScannedFiles(scans);
    InsertedMembers(names, snap, files, Identities(files));
    RowLookup(snap, l);
  }

  // ---------------------------------------------------------------- the other tables

  /** New sources bring their records, refreshes are remembered, and roots and aliases stand. */
  lemma OtherTables(names: Naming, db: Db, order: seq<SourceId>, scans: seq<RootScan>)
    requires Ready(names, db, order, scans) && ValidSnapshot(SnapshotOf(db, order))
    ensures var plan := PlanOf(names, db, order, scans);
            var after := Apply(db, plan);
            && after.roots == db.roots && after.aliases == db.aliases
            && after.activeRefresh == db.activeRefresh + plan.refresh
            && forall record :: record in after.records <==>
                 record in db.records || exists s :: s in plan.newSources && s.record == Some(record)
  {
  }
}
