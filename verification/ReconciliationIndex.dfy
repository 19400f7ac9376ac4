/** The location table after a scan. */
module ReconciliationIndex {
  import opened Wrappers
  import opened Reconciliation
  import opened ReconciliationFacts
  import opened ReconciliationStore
  import opened ReconciliationProperties

  ghost predicate Recorded(db: Db, source: SourceId, key: Key) {
    exists l :: l in db.locations && db.locations[l] == Location(source, key)
  }

  lemma {:induction false} InsertLocationsFacts(locations: map<nat, Location>, next: nat, inserted: seq<NewLocation>)
    requires forall l :: l in locations ==> l < next
    ensures var r := InsertLocations(locations, next, inserted);
            && (forall l :: l in r <==> l in locations || next <= l < next + |inserted|)
            && (forall l :: l in locations ==> r[l] == locations[l])
            && (forall i :: 0 <= i < |inserted| ==>
                  next + i in r && r[next + i] == Location(inserted[i].source, inserted[i].key))
    decreases |inserted|
  {
    if inserted != [] {
      var before := inserted[..|inserted| - 1];
      InsertLocationsFacts(locations, next, before);
      forall i | 0 <= i < |before| ensures inserted[i] == before[i] { }
    }
  }

  /** A row before deletions is one that was kept, or one the plan inserts. */
  lemma StagedRows(db: Db, plan: Plan)
    requires LocationsValid(db)
    ensures var staged := BeforeDeletion(db, plan).locations;
            && (forall l :: l in staged <==>
                  (l in db.locations && l !in plan.deletedLocations)
                  || db.nextLocation <= l < db.nextLocation + |plan.newLocations|)
            && (forall l :: l in db.locations && l !in plan.deletedLocations ==> staged[l] == db.locations[l])
            && (forall i :: 0 <= i < |plan.newLocations| ==>
                  db.nextLocation + i in staged
                  && staged[db.nextLocation + i] == Location(plan.newLocations[i].source, plan.newLocations[i].key))
  {
    InsertLocationsFacts(db.locations - plan.deletedLocations, db.nextLocation, plan.newLocations);
  }

  lemma RowLookup(snap: Snapshot, l: nat)
    requires ValidSnapshot(snap) && l in snap.locations
    ensures Lookup(snap, snap.locations[l].key) == Some(Entry(l, snap.locations[l].source))
  {
    assert Lookup(snap, snap.locations[l].key).value.id in snap.locations;
  }

  lemma LostSources(names: Naming, db: Db, order: seq<SourceId>, scans: seq<RootScan>, id: SourceId)
    requires Ready(names, db, order, scans) && ValidSnapshot(SnapshotOf(db, order))
    ensures var snap := SnapshotOf(db, order);
            id in PlanOf(names, db, order, scans).deletedSources <==>
            id in db.sources && id !in Live(names, snap, scans) && id !in Seen(names, snap, scans)
  {
    var snap := SnapshotOf(db, order);
    LostMembers(snap.order, Live(names, snap, scans) + Seen(names, snap, scans));
  }

  /** No staged row belongs to a source the plan deletes, so deletions leave every staged row in place. */
  lemma FinalRows(names: Naming, db: Db, order: seq<SourceId>, scans: seq<RootScan>)
    requires Ready(names, db, order, scans) && ValidSnapshot(SnapshotOf(db, order))
    ensures var plan := PlanOf(names, db, order, scans);
            Apply(db, plan).locations == BeforeDeletion(db, plan).locations
  {
    var plan := PlanOf(names, db, order, scans);
    forall l | l in BeforeDeletion(db, plan).locations
      ensures BeforeDeletion(db, plan).locations[l].source !in plan.deletedSources
    {
      StagedRowStays(names, db, order, scans, l);
    }
  }

  lemma StagedRowStays(names: Naming, db: Db, order: seq<SourceId>, scans: seq<RootScan>, l: nat)
    requires Ready(names, db, order, scans) && ValidSnapshot(SnapshotOf(db, order))
    requires l in BeforeDeletion(db, PlanOf(names, db, order, scans)).locations
    ensures var plan := PlanOf(names, db, order, scans);
            BeforeDeletion(db, plan).locations[l].source !in plan.deletedSources
  {
    var snap := SnapshotOf(db, order);
    var plan := PlanOf(names, db, order, scans);
    var staged := BeforeDeletion(db, plan).locations;
    StagedRows(db, plan);
    LostSources(names, db, order, scans, staged[l].source);
    if l in db.locations {
      assert db.locations[l].source in Live(names, snap, scans);
    } else {
      var n := plan.newLocations[l - db.nextLocation];
      assert n in plan.newLocations && n.source in Live(names, snap, scans);
    }
  }

  lemma RecordedAfter(names: Naming, db: Db, order: seq<SourceId>, scans: seq<RootScan>, source: SourceId, key: Key)
    requires Ready(names, db, order, scans) && ValidSnapshot(SnapshotOf(db, order))
    ensures var plan := PlanOf(names, db, order, scans);
            Recorded(Apply(db, plan), source, key) <==>
            || (exists l ::
               l in db.locations && l !in plan.deletedLocations
               && db.locations[l] == Location(source, key))
            || NewLocation(source, key) in plan.newLocations
  {
    var plan := PlanOf(names, db, order, scans);
    FinalRows(names, db, order, scans);
    StagedRows(db, plan);
    var rows := Apply(db, plan).locations;
    if l :| l in rows && rows[l] == Location(source, key) {
      if l !in db.locations {
        assert plan.newLocations[l - db.nextLocation] == NewLocation(source, key);
      }
    }
    if NewLocation(source, key) in plan.newLocations {
      var i :| 0 <= i < |plan.newLocations| && plan.newLocations[i] == NewLocation(source, key);
      assert rows[db.nextLocation + i] == Location(source, key);
    }
  }

  /** Inserting after deleting never violates the declared uniqueness of (root, path). */
  lemma RowsStayUnique(names: Naming, db: Db, order: seq<SourceId>, scans: seq<RootScan>)
    requires Ready(names, db, order, scans) && ValidSnapshot(SnapshotOf(db, order))
    ensures UniqueKeys(Apply(db, PlanOf(names, db, order, scans)).locations)
  {
    var snap, files := SnapshotOf(db, order), ScannedFiles(scans);
    var plan := PlanOf(names, db, order, scans);
    var rows := Apply(db, plan).locations;
    FinalRows(names, db, order, scans);
    StagedRows(db, plan);
    IdentitiesMembers(files);
    InsertedDistinct(names, snap, files, Identities(files));
    forall a, b | a in rows && b in rows && a < b ensures rows[a].key != rows[b].key {
      if a in db.locations && b !in db.locations {
        KeptAndInsertedDiffer(names, db, order, scans, a, plan.newLocations[b - db.nextLocation]);
      } else if a !in db.locations {
        assert b !in db.locations;
        assert plan.newLocations[a - db.nextLocation].key != plan.newLocations[b - db.nextLocation].key;
      }
    }
  }

  lemma KeptAndInsertedDiffer(
    names: Naming, db: Db, order: seq<SourceId>, scans: seq<RootScan>, l: nat, n: NewLocation)
    requires Ready(names, db, order, scans) && ValidSnapshot(SnapshotOf(db, order))
    requires l in db.locations && l !in PlanOf(names, db, order, scans).deletedLocations
    requires n in PlanOf(names, db, order, scans).newLocations
    ensures db.locations[l].key != n.key
  {
    var snap, files := SnapshotOf(db, order), ScannedFiles(scans);
    InsertedMembers(names, snap, files, Identities(files));
    DeletedRowFacts(names, db, order, scans, l);
    var f :| f in files && f.identity in Identities(files) && Inserts(names, snap, f, n);
    RowLookup(snap, l);
  }

  // ---------------------------------------------------------------- exactness

  /** The row a scanned file has after the scan names its owner; a stand-in hit has no row at all. */
  lemma ScannedFileRow(names: Naming, db: Db, order: seq<SourceId>, scans: seq<RootScan>, f: File)
    requires Ready(names, db, order, scans) && ValidSnapshot(SnapshotOf(db, order)) && f in ScannedFiles(scans)
    ensures var snap := SnapshotOf(db, order); var after := Apply(db, PlanOf(names, db, order, scans));
            && (Recorded(after, Owner(names, snap, f.identity), f.key) <==> !StandInHit(names, snap, f))
            && (forall source :: Recorded(after, source, f.key) ==> source == Owner(names, snap, f.identity))
  {
    forall source
      ensures Recorded(Apply(db, PlanOf(names, db, order, scans)), source, f.key) <==>
              source == Owner(names, SnapshotOf(db, order), f.identity) && !StandInHit(names, SnapshotOf(db, order), f)
    {
      RecordedAtFile(names, db, order, scans, f, source);
    }
  }

  lemma RecordedAtFile(
    names: Naming, db: Db, order: seq<SourceId>, scans: seq<RootScan>, f: File, source: SourceId)
    requires Ready(names, db, order, scans) && ValidSnapshot(SnapshotOf(db, order)) && f in ScannedFiles(scans)
    ensures Recorded(Apply(db, PlanOf(names, db, order, scans)), source, f.key) <==>
            source == Owner(names, SnapshotOf(db, order), f.identity) && !StandInHit(names, SnapshotOf(db, order), f)
  {
    RecordedAfter(names, db, order, scans, source, f.key);
    ScannedRowCases(names, db, order, scans, f, source);
  }

  lemma ScannedRowCases(
    names: Naming, db: Db, order: seq<SourceId>, scans: seq<RootScan>, f: File, source: SourceId)
    requires Ready(names, db, order, scans) && ValidSnapshot(SnapshotOf(db, order)) && f in ScannedFiles(scans)
    ensures var snap := SnapshotOf(db, order); var plan := PlanOf(names, db, order, scans);
            var owner := Owner(names, snap, f.identity);
            && (NewLocation(source, f.key) in plan.newLocations <==> source == owner && NeedsRow(snap, f.key, owner))
            && ((exists l ::
               l in db.locations && l !in plan.deletedLocations
               && db.locations[l] == Location(source, f.key))
                <==> source == owner && Lookup(snap, f.key).Some? && Lookup(snap, f.key).value.source == owner
                     && Lookup(snap, f.key).value.id != 0)
  {
    var snap, files := SnapshotOf(db, order), ScannedFiles(scans);
    ScannedFileFacts(names, db, order, scans, f);
    InsertedMembers(names, snap, files, Identities(files));
    forall l | l in db.locations && db.locations[l].key == f.key
      ensures Lookup(snap, f.key) == Some(Entry(l, db.locations[l].source))
    {
      DeletedRowFacts(names, db, order, scans, l);
      RowLookup(snap, l);
    }
    if Lookup(snap, f.key).Some? && Lookup(snap, f.key).value.id != 0 {
      DeletedRowFacts(names, db, order, scans, Lookup(snap, f.key).value.id);
    }
  }

  /** Every scanned file has one row, naming a source with its identity, and no other row is under a scanned root. */
  ghost predicate ExactIndex(after: Db, scans: seq<RootScan>) {
    && UniqueKeys(after.locations)
    && (forall f :: f in ScannedFiles(scans) ==> exists source ::
          Recorded(after, source, f.key) && source in after.sources && after.sources[source].identity == f.identity)
    && (forall l :: l in after.locations && after.locations[l].key.root in ScannedRoots(scans) ==>
          exists f :: f in ScannedFiles(scans) && f.key == after.locations[l].key)
  }

  /** Rows under roots the scan did not reach are the same rows before and after. */
  lemma UnscannedRowsUntouched(names: Naming, db: Db, order: seq<SourceId>, scans: seq<RootScan>, l: nat)
    requires Ready(names, db, order, scans) && ValidSnapshot(SnapshotOf(db, order))
    ensures var after := Apply(db, PlanOf(names, db, order, scans));
            && (l in db.locations && db.locations[l].key.root !in ScannedRoots(scans) ==>
                  && l in after.locations && after.locations[l] == db.locations[l]
                  && db.locations[l].source in after.sources)
            && (l in after.locations && after.locations[l].key.root !in ScannedRoots(scans) ==>
                  l in db.locations && db.locations[l] == after.locations[l])
  {
    var snap, files := SnapshotOf(db, order), ScannedFiles(scans);
    var plan := PlanOf(names, db, order, scans);
    FinalRows(names, db, order, scans);
    StagedRows(db, plan);
    FileRoots(db, scans);
    InsertedMembers(names, snap, files, Identities(files));
    if l in db.locations && db.locations[l].key.root !in ScannedRoots(scans) {
      DeletedRowFacts(names, db, order, scans, l);
      LostSources(names, db, order, scans, db.locations[l].source);
      assert db.locations[l].source in Live(names, snap, scans);
      KeptSourcesStay(db, plan, db.locations[l].source);
    }
    if l in Apply(db, plan).locations && l !in db.locations {
      assert plan.newLocations[l - db.nextLocation] in plan.newLocations;
    }
  }

  lemma {:induction false} AddSourcesFacts(sources: map<SourceId, Source>, added: seq<Source>)
    ensures forall id :: id in AddSources(sources, added) <==> id in sources || IsNew(added, id)
    ensures forall id :: id in sources && !IsNew(added, id) ==> AddSources(sources, added)[id] == sources[id]
    ensures forall id ::
            IsNew(added, id)
            ==> AddSources(sources, added)[id] in added && AddSources(sources, added)[id].id == id
    decreases |added|
  {
    if added != [] {
      var before, last := added[..|added| - 1], added[|added| - 1];
      AddSourcesFacts(sources, before);
      assert added == before + [last];
      assert forall id :: IsNew(added, id) <==> IsNew(before, id) || id == last.id;
    }
  }

  lemma KeptSourcesStay(db: Db, plan: Plan, id: SourceId)
    requires id in db.sources && id !in plan.deletedSources
    ensures id in Apply(db, plan).sources
  {
    AddSourcesFacts(db.sources, plan.newSources);
  }

  // ---------------------------------------------------------------- sources after a scan

  /** What the updates of a plan do to one source row. */
  lemma TouchedRow(plan: Plan, base: Source)
    ensures var row := Retired(plan, Returned(plan, Relocated(plan, base)));
            && row.id == base.id && row.identity == base.identity && row.record == base.record
            && row.key == Relocated(plan, base).key
            && row.intake == (if IsReplaced(plan.replacements, base.id) then Replaced
                              else if IsReappeared(plan.reappeared, base.id) then NeedsReview else base.intake)
            && (!IsReplaced(plan.replacements, base.id) ==> row.replacedBy == base.replacedBy)
  {
    assert Returned(plan, Relocated(plan, base)).id == base.id;
  }

  lemma TouchedShape(db: Db, plan: Plan, id: SourceId)
    requires SourcesValid(db) && id in AddSources(db.sources, plan.newSources)
    ensures var base := AddSources(db.sources, plan.newSources)[id];
            base.id == id && id in TouchedSources(plan, db.sources)
            && TouchedSources(plan, db.sources)[id] == Retired(plan, Returned(plan, Relocated(plan, base)))
  {
    AddSourcesFacts(db.sources, plan.newSources);
  }

  lemma FinalSource(db: Db, plan: Plan, id: SourceId)
    ensures var touched := TouchedSources(plan, db.sources);
            && (id in Apply(db, plan).sources <==> id in touched && id !in plan.deletedSources)
            && (id in Apply(db, plan).sources ==>
                  var row := Apply(db, plan).sources[id];
                  && row == touched[id].(replacedBy := row.replacedBy)
                  && (row.replacedBy == touched[id].replacedBy || row.replacedBy.None?)
                  && (row.replacedBy.Some? ==> row.replacedBy.value !in plan.deletedSources))
  {
  }

  lemma SourceShape(db: Db, plan: Plan, id: SourceId)
    requires SourcesValid(db)
    ensures var all := AddSources(db.sources, plan.newSources);
            id in Apply(db, plan).sources <==> id in all && id !in plan.deletedSources
    ensures id in Apply(db, plan).sources ==>
              var base := AddSources(db.sources, plan.newSources)[id];
              var row := Apply(db, plan).sources[id];
              && base.id == id && row.id == id && row.identity == base.identity && row.record == base.record
              && row.key == Relocated(plan, base).key
              && row.intake == (if IsReplaced(plan.replacements, id) then Replaced
                                else if IsReappeared(plan.reappeared, id) then NeedsReview else base.intake)
              && (row.replacedBy.Some? ==> row.replacedBy.value !in plan.deletedSources)
              && (!IsReplaced(plan.replacements, id) ==> row.replacedBy.None? || row.replacedBy == base.replacedBy)
  {
    FinalSource(db, plan, id);
    if id in AddSources(db.sources, plan.newSources) {
      TouchedShape(db, plan, id);
      TouchedRow(plan, AddSources(db.sources, plan.newSources)[id]);
    }
  }

  lemma CreatedSource(names: Naming, db: Db, order: seq<SourceId>, scans: seq<RootScan>, s: Source)
    requires Ready(names, db, order, scans) && ValidSnapshot(SnapshotOf(db, order))
    requires s in PlanOf(names, db, order, scans).newSources
    ensures s.id !in db.sources && s.id == names.idOf(s.identity) && s.identity in Identities(ScannedFiles(scans))
    ensures Existing(SnapshotOf(db, order), s.identity).None?
    ensures s.key.root in db.roots && s.replacedBy.None? && s.record.Some? && s.intake.NeedsReview?
  {
    var snap, files := SnapshotOf(db, order), ScannedFiles(scans);
    GroupsAreNonEmpty(files);
    CreatedMembers(names, snap, files, Identities(files));
    var g :| g in Identities(files) && Existing(snap, g).None? && s == NewSource(names, snap, Group(files, g), g);
    OwnerFacts(names, db, order, g);
    GroupMembers(files, g);
    FileRoots(db, scans);
    assert Group(files, g)[0] in Group(files, g);
  }

  /** After the scan the owner of every scanned identity exists and has that identity. */
  lemma OwnerAfter(names: Naming, db: Db, order: seq<SourceId>, scans: seq<RootScan>, g: Identity)
    requires Ready(names, db, order, scans) && ValidSnapshot(SnapshotOf(db, order))
    requires g in Identities(ScannedFiles(scans))
    ensures var owner := Owner(names, SnapshotOf(db, order), g);
            var after := Apply(db, PlanOf(names, db, order, scans));
            owner in after.sources && after.sources[owner].identity == g
  {
    var snap, files := SnapshotOf(db, order), ScannedFiles(scans);
    var plan, owner := PlanOf(names, db, order, scans), Owner(names, snap, g);
    IdentitiesMembers(files);
    var f :| f in files && f.identity == g;
    SeenFacts(names, snap, scans, owner);
    LostSources(names, db, order, scans, owner);
    OwnerFacts(names, db, order, g);
    SourceShape(db, plan, owner);
    AddSourcesFacts(db.sources, plan.newSources);
    if owner in db.sources {
      if s :| s in plan.newSources && s.id == owner {
        CreatedSource(names, db, order, scans, s);
      }
    } else {
      GroupsAreNonEmpty(files);
      CreatedMembers(names, snap, files, Identities(files));
      assert NewSource(names, snap, Group(files, g), g) in plan.newSources;
      assert IsNew(plan.newSources, owner);
      CreatedSource(names, db, order, scans, AddSources(db.sources, plan.newSources)[owner]);
    }
  }

  /**
   After a scan the index is exact if and only if no scanned file sits at the recorded path of a
   rowless source that already owns the file's identity.
   */
  lemma IndexIsExact(names: Naming, db: Db, order: seq<SourceId>, scans: seq<RootScan>)
    requires Ready(names, db, order, scans) && ValidSnapshot(SnapshotOf(db, order))
    ensures ExactIndex(Apply(db, PlanOf(names, db, order, scans)), scans) <==>
            forall f :: f in ScannedFiles(scans) ==> !StandInHit(names, SnapshotOf(db, order), f)
  {
    var snap, files := SnapshotOf(db, order), ScannedFiles(scans);
    var after := Apply(db, PlanOf(names, db, order, scans));
    RowsStayUnique(names, db, order, scans);
    forall f | f in files
      ensures (exists source :: Recorded(after, source, f.key) && source in after.sources
                                && after.sources[source].identity == f.identity)
              <==> !StandInHit(names, snap, f)
    {
      ScannedFileRow(names, db, order, scans, f);
      ScannedFileFacts(names, db, order, scans, f);
      OwnerAfter(names, db, order, scans, f.identity);
    }
    forall l | l in after.locations && after.locations[l].key.root in ScannedRoots(scans)
      ensures exists f :: f in files && f.key == after.locations[l].key
    {
      RowUnderScannedRoot(names, db, order, scans, l);
    }
  }

  lemma RowUnderScannedRoot(names: Naming, db: Db, order: seq<SourceId>, scans: seq<RootScan>, l: nat)
    requires Ready(names, db, order, scans) && ValidSnapshot(SnapshotOf(db, order))
    requires var after := Apply(db, PlanOf(names, db, order, scans));
             l in after.locations && after.locations[l].key.root in ScannedRoots(scans)
    ensures exists f :: f in ScannedFiles(scans)
                        && f.key == Apply(db, PlanOf(names, db, order, scans)).locations[l].key
  {
    var snap, files := SnapshotOf(db, order), ScannedFiles(scans);
    var plan := PlanOf(names, db, order, scans);
    FinalRows(names, db, order, scans);
    StagedRows(db, plan);
    InsertedMembers(names, snap, files, Identities(files));
    if l in db.locations {
      DeletedRowFacts(names, db, order, scans, l);
    } else {
      assert plan.newLocations[l - db.nextLocation] in plan.newLocations;
      var f :| f in files && Inserts(names, snap, f, plan.newLocations[l - db.nextLocation]);
    }
  }
}
