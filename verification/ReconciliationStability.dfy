/** A second scan of an unchanged filesystem: exactly when it has nothing to do. */
module ReconciliationStability {
  import opened Wrappers
  import opened Ordering
  import opened Reconciliation
  import opened ReconciliationFacts
  import opened ReconciliationStore
  import opened ReconciliationProperties
  import opened ReconciliationIndex
  import opened ReconciliationIntegrity

  /** A scan, and the state and snapshot order a second scan of the same files starts from. */
  ghost predicate Rescans(
    names: Naming, db: Db, order: seq<SourceId>, scans: seq<RootScan>, again: Naming, order': seq<SourceId>)
  {
    && Ready(names, db, order, scans) && ValidSnapshot(SnapshotOf(db, order))
    && again.idOf == names.idOf
    && var after := Apply(db, PlanOf(names, db, order, scans));
       Ready(again, after, order', scans) && ValidSnapshot(SnapshotOf(after, order'))
  }

  /** Nothing but the state `Apply` leaves is needed to scan again. */
  lemma SecondScanReady(
    names: Naming, db: Db, order: seq<SourceId>, scans: seq<RootScan>, again: Naming, order': seq<SourceId>)
    requires Ready(names, db, order, scans) && ValidSnapshot(SnapshotOf(db, order)) && again.idOf == names.idOf
    requires Enumerates(order', Apply(db, PlanOf(names, db, order, scans)).sources.Keys)
    ensures Rescans(names, db, order, scans, again, order')
  {
    ScanKeepsDb(names, db, order, scans);
    SnapshotValid(Apply(db, PlanOf(names, db, order, scans)), order');
  }

  // ---------------------------------------------------------------- the same owners

  lemma OwnerIsKept(names: Naming, db: Db, order: seq<SourceId>, scans: seq<RootScan>, g: Identity)
    requires Ready(names, db, order, scans) && ValidSnapshot(SnapshotOf(db, order))
    requires g in Identities(ScannedFiles(scans))
    ensures var plan, owner := PlanOf(names, db, order, scans), Owner(names, SnapshotOf(db, order), g);
            !IsReplaced(plan.replacements, owner) && owner !in plan.deletedSources
  {
    var snap, files := SnapshotOf(db, order), ScannedFiles(scans);
    var plan, owner := PlanOf(names, db, order, scans), Owner(names, snap, g);
    IdentitiesMembers(files);
    var f :| f in files && f.identity == g;
    SeenFacts(names, snap, scans, owner);
    LostSources(names, db, order, scans, owner);
    forall r | r in plan.replacements ensures r.retired != owner {
      ReplacedSourcesAreDeleted(names, db, order, scans, r);
    }
  }

  /** The intake state of a source never moves it behind another one with the same identity. */
  lemma OwnerStaysFirst(names: Naming, db: Db, order: seq<SourceId>, scans: seq<RootScan>, g: Identity, id: SourceId)
    requires Ready(names, db, order, scans) && ValidSnapshot(SnapshotOf(db, order))
    requires g in Identities(ScannedFiles(scans))
    requires var after := Apply(db, PlanOf(names, db, order, scans));
             id in after.sources && after.sources[id].identity == g
    ensures var after, owner := Apply(db, PlanOf(names, db, order, scans)), Owner(names, SnapshotOf(db, order), g);
            owner in after.sources && LexLeq(SourceKey(after.sources[owner]), SourceKey(after.sources[id]))
  {
    var snap := SnapshotOf(db, order);
    var plan, owner := PlanOf(names, db, order, scans), Owner(names, snap, g);
    OwnerAfter(names, db, order, scans, g);
    if id != owner {
      OwnerIsKept(names, db, order, scans, g);
      OtherIntakeUnchanged(names, db, order, scans, g, id);
      ExistingIsFirst(snap, g, id);
      SourceShape(db, plan, owner);
      AddSourcesFacts(db.sources, plan.newSources);
      if IsNew(plan.newSources, owner) {
        CreatedSource(names, db, order, scans, AddSources(db.sources, plan.newSources)[owner]);
      }
      ActiveSortsFirst(Apply(db, plan).sources[owner], db.sources[owner], Apply(db, plan).sources[id]);
    }
  }

  lemma ActiveSortsFirst(now: Source, before: Source, other: Source)
    requires now.id == before.id && (now.intake == before.intake || now.intake.NeedsReview?)
    requires LexLeq(SourceKey(before), SourceKey(other))
    ensures LexLeq(SourceKey(now), SourceKey(other))
  {
    assert SourceKey(now)[1..] == Codes(now.id) == SourceKey(before)[1..];
    if SourceKey(now) != SourceKey(before) {
      assert SourceKey(now)[0] == 0 && SourceKey(before)[0] == 1;
      assert SourceKey(other)[0] == 1;
    }
  }

  lemma OtherIntakeUnchanged(
    names: Naming, db: Db, order: seq<SourceId>, scans: seq<RootScan>, g: Identity, id: SourceId)
    requires Ready(names, db, order, scans) && ValidSnapshot(SnapshotOf(db, order))
    requires g in Identities(ScannedFiles(scans)) && id != Owner(names, SnapshotOf(db, order), g)
    requires var after := Apply(db, PlanOf(names, db, order, scans));
             id in after.sources && after.sources[id].identity == g
    ensures id in db.sources && db.sources[id].identity == g
    ensures SourceKey(Apply(db, PlanOf(names, db, order, scans)).sources[id]) == SourceKey(db.sources[id])
  {
    var plan := PlanOf(names, db, order, scans);
    OtherIsOld(names, db, order, scans, g, id);
    SourceShape(db, plan, id);
    AddSourcesFacts(db.sources, plan.newSources);
    if IsReappeared(plan.reappeared, id) {
      ReappearedIsOwner(names, db, order, scans, id);
    }
    SurvivorIsNotReplaced(names, db, order, scans, id);
  }

  lemma OtherIsOld(
    names: Naming, db: Db, order: seq<SourceId>, scans: seq<RootScan>, g: Identity, id: SourceId)
    requires Ready(names, db, order, scans) && ValidSnapshot(SnapshotOf(db, order))
    requires g in Identities(ScannedFiles(scans)) && id != Owner(names, SnapshotOf(db, order), g)
    requires var after := Apply(db, PlanOf(names, db, order, scans));
             id in after.sources && after.sources[id].identity == g
    ensures !IsNew(PlanOf(names, db, order, scans).newSources, id)
    ensures id in db.sources && db.sources[id].identity == g
  {
    var plan := PlanOf(names, db, order, scans);
    SourceShape(db, plan, id);
    AddSourcesFacts(db.sources, plan.newSources);
    if IsNew(plan.newSources, id) {
      CreatedSource(names, db, order, scans, AddSources(db.sources, plan.newSources)[id]);
    }
  }

  lemma SurvivorIsNotReplaced(names: Naming, db: Db, order: seq<SourceId>, scans: seq<RootScan>, id: SourceId)
    requires Ready(names, db, order, scans) && ValidSnapshot(SnapshotOf(db, order))
    ensures var plan := PlanOf(names, db, order, scans);
            IsReplaced(plan.replacements, id) ==> id in plan.deletedSources
  {
    var plan := PlanOf(names, db, order, scans);
    if r :| r in plan.replacements && r.retired == id {
      ReplacedSourcesAreDeleted(names, db, order, scans, r);
    }
  }

  lemma ReappearedIsOwner(names: Naming, db: Db, order: seq<SourceId>, scans: seq<RootScan>, id: SourceId)
    requires Ready(names, db, order, scans) && ValidSnapshot(SnapshotOf(db, order))
    requires IsReappeared(PlanOf(names, db, order, scans).reappeared, id)
    ensures id in db.sources && id == Owner(names, SnapshotOf(db, order), db.sources[id].identity)
  {
    var snap, files := SnapshotOf(db, order), ScannedFiles(scans);
    ReappearedMembers(snap, Identities(files));
    var r :| r in PlanOf(names, db, order, scans).reappeared && r.source == id;
    var h :| h in Identities(files) && Existing(snap, h).Some? && r.source == Existing(snap, h).value;
    ExistingHasIdentity(snap, h);
  }

  lemma SameOwner(
    names: Naming, db: Db, order: seq<SourceId>, scans: seq<RootScan>, again: Naming, order': seq<SourceId>,
    g: Identity)
    requires Rescans(names, db, order, scans, again, order') && g in Identities(ScannedFiles(scans))
    ensures Existing(SnapshotOf(Apply(db, PlanOf(names, db, order, scans)), order'), g)
            == Some(Owner(names, SnapshotOf(db, order), g))
  {
    var after := Apply(db, PlanOf(names, db, order, scans));
    var owner := Owner(names, SnapshotOf(db, order), g);
    OwnerAfter(names, db, order, scans, g);
    ExistingFacts(SnapshotOf(after, order'), g);
    var found := Existing(SnapshotOf(after, order'), g).value;
    OwnerStaysFirst(names, db, order, scans, g, found);
    SameKeySameSource(after.sources[found], after.sources[owner]);
  }

  lemma SameKeySameSource(a: Source, b: Source)
    requires LexLeq(SourceKey(a), SourceKey(b)) && LexLeq(SourceKey(b), SourceKey(a))
    ensures a.id == b.id
  {
    LexTrichotomy(SourceKey(a), SourceKey(b));
    assert SourceKey(a)[1..] == Codes(a.id) && SourceKey(b)[1..] == Codes(b.id);
    CodesInjective(a.id, b.id);
  }

  // ---------------------------------------------------------------- the same rows

  /** A stand-in hit whose identity is seen nowhere else; scanning it again is harmless. */
  ghost predicate SoleFile(files: seq<File>, f: File) {
    forall other :: other in files && other.identity == f.identity ==> other == f
  }

  lemma GroupOfSoleFile(files: seq<File>, f: File)
    requires f in files && SoleFile(files, f)
    ensures Group(files, f.identity) != [] && Group(files, f.identity)[0] == f
  {
    GroupMembers(files, f.identity);
    assert Group(files, f.identity)[0] in Group(files, f.identity);
  }

  lemma CreatedKey(names: Naming, db: Db, order: seq<SourceId>, scans: seq<RootScan>, s: Source)
    requires Ready(names, db, order, scans) && ValidSnapshot(SnapshotOf(db, order))
    requires s in PlanOf(names, db, order, scans).newSources
    ensures Group(ScannedFiles(scans), s.identity) != [] && s.key == Group(ScannedFiles(scans), s.identity)[0].key
  {
    var files := ScannedFiles(scans);
    GroupsAreNonEmpty(files);
    CreatedMembers(names, SnapshotOf(db, order), files, Identities(files));
  }

  lemma OwnerUpdate(names: Naming, db: Db, order: seq<SourceId>, scans: seq<RootScan>, g: Identity)
    requires Ready(names, db, order, scans) && ValidSnapshot(SnapshotOf(db, order))
    requires g in Identities(ScannedFiles(scans)) && Group(ScannedFiles(scans), g) != []
    ensures var update := UpdateOf(PlanOf(names, db, order, scans).updates, Owner(names, SnapshotOf(db, order), g));
            var first := Group(ScannedFiles(scans), g)[0];
            update == Some(Update(Owner(names, SnapshotOf(db, order), g), first.key, first.device))
  {
    GroupsAreNonEmpty(ScannedFiles(scans));
    ListedUpdate(names, db, order, ScannedFiles(scans), Identities(ScannedFiles(scans)), g);
  }

  lemma ListedUpdate(names: Naming, db: Db, order: seq<SourceId>, files: seq<File>, gs: seq<Identity>, g: Identity)
    requires ValidDb(db) && Enumerates(order, db.sources.Keys) && CollisionFree(names) && HashedIds(names, db)
    requires ValidSnapshot(SnapshotOf(db, order)) && NonEmptyGroups(files, gs) && g in gs && Group(files, g) != []
    ensures var snap := SnapshotOf(db, order);
            var update := UpdateOf(UpdatedSources(names, snap, files, gs), Owner(names, snap, g));
            update == Some(Update(Owner(names, snap, g), Group(files, g)[0].key, Group(files, g)[0].device))
  {
    var snap := SnapshotOf(db, order);
    var updates, owner := UpdatedSources(names, snap, files, gs), Owner(names, snap, g);
    UpdatedMembers(names, snap, files, gs);
    UpdateOfFacts(updates, owner);
    var i :| 0 <= i < |gs| && gs[i] == g;
    assert updates[i] in updates && updates[i].source == owner;
    var k :| 0 <= k < |gs| && updates[k] == UpdateOf(updates, owner).value;
    OwnersDistinct(names, db, order, g, gs[k]);
  }

  lemma OwnerKeyAfter(names: Naming, db: Db, order: seq<SourceId>, scans: seq<RootScan>, g: Identity)
    requires Ready(names, db, order, scans) && ValidSnapshot(SnapshotOf(db, order))
    requires g in Identities(ScannedFiles(scans)) && Group(ScannedFiles(scans), g) != []
    ensures var after, owner := Apply(db, PlanOf(names, db, order, scans)), Owner(names, SnapshotOf(db, order), g);
            owner in after.sources && after.sources[owner].key == Group(ScannedFiles(scans), g)[0].key
  {
    var plan, owner := PlanOf(names, db, order, scans), Owner(names, SnapshotOf(db, order), g);
    OwnerAfter(names, db, order, scans, g);
    SourceShape(db, plan, owner);
    AddSourcesFacts(db.sources, plan.newSources);
    if IsNew(plan.newSources, owner) {
      CreatedKey(names, db, order, scans, AddSources(db.sources, plan.newSources)[owner]);
    } else {
      OwnerUpdate(names, db, order, scans, g);
    }
  }

  lemma KeptWithoutRow(names: Naming, db: Db, order: seq<SourceId>, scans: seq<RootScan>, id: SourceId)
    requires Ready(names, db, order, scans) && ValidSnapshot(SnapshotOf(db, order))
    requires id in db.sources && id !in PlanOf(names, db, order, scans).deletedSources
    requires forall key :: !Recorded(Apply(db, PlanOf(names, db, order, scans)), id, key)
    ensures exists f :: f in ScannedFiles(scans) && id == Owner(names, SnapshotOf(db, order), f.identity)
  {
    LostSources(names, db, order, scans, id);
    SeenFacts(names, SnapshotOf(db, order), scans, id);
    if id in Live(names, SnapshotOf(db, order), scans) {
      LiveIsRecorded(names, db, order, scans, id);
    }
  }

  /** A source left without a row owns a scanned identity. */
  lemma RowlessSource(
    names: Naming, db: Db, order: seq<SourceId>, scans: seq<RootScan>, id: SourceId) returns (g: Identity)
    requires Ready(names, db, order, scans) && ValidSnapshot(SnapshotOf(db, order))
    requires id in Apply(db, PlanOf(names, db, order, scans)).sources
    requires forall key :: !Recorded(Apply(db, PlanOf(names, db, order, scans)), id, key)
    ensures g in Identities(ScannedFiles(scans)) && id == Owner(names, SnapshotOf(db, order), g)
  {
    var plan := PlanOf(names, db, order, scans);
    SourceShape(db, plan, id);
    AddSourcesFacts(db.sources, plan.newSources);
    if IsNew(plan.newSources, id) {
      var s := AddSources(db.sources, plan.newSources)[id];
      CreatedSource(names, db, order, scans, s);
      OwnerFacts(names, db, order, s.identity);
      g := s.identity;
    } else {
      KeptWithoutRow(names, db, order, scans, id);
      IdentitiesMembers(ScannedFiles(scans));
      var f :| f in ScannedFiles(scans) && id == Owner(names, SnapshotOf(db, order), f.identity);
      g := f.identity;
    }
  }

  lemma LiveIsRecorded(names: Naming, db: Db, order: seq<SourceId>, scans: seq<RootScan>, id: SourceId)
    requires Ready(names, db, order, scans) && ValidSnapshot(SnapshotOf(db, order))
    requires id in Live(names, SnapshotOf(db, order), scans)
    ensures exists key :: Recorded(Apply(db, PlanOf(names, db, order, scans)), id, key)
  {
    var plan := PlanOf(names, db, order, scans);
    if l :| l in db.locations && l !in plan.deletedLocations && db.locations[l].source == id {
      RecordedAfter(names, db, order, scans, id, db.locations[l].key);
    } else {
      var n :| n in plan.newLocations && n.source == id;
      RecordedAfter(names, db, order, scans, id, n.key);
    }
  }

  lemma RowsAreRecorded(db: Db, order: seq<SourceId>, id: SourceId)
    requires ValidSnapshot(SnapshotOf(db, order))
    ensures HasRow(SnapshotOf(db, order), id) <==> exists key :: Recorded(db, id, key)
  {
    if l :| l in db.locations && db.locations[l].source == id {
      assert Recorded(db, id, db.locations[l].key);
    }
  }

  /** In the second snapshot a stand-in at a scanned path can only be that file's owner. */
  lemma StandInAfter(
    names: Naming, db: Db, order: seq<SourceId>, scans: seq<RootScan>, again: Naming, order': seq<SourceId>, f: File)
    requires Rescans(names, db, order, scans, again, order') && f in ScannedFiles(scans)
    ensures var after := Apply(db, PlanOf(names, db, order, scans));
            var entry := Lookup(SnapshotOf(after, order'), f.key);
            entry.Some? && entry.value.id == 0 ==>
              entry.value.source == Owner(names, SnapshotOf(db, order), f.identity)
  {
    var files, after := ScannedFiles(scans), Apply(db, PlanOf(names, db, order, scans));
    var snap := SnapshotOf(after, order');
    var entry := Lookup(snap, f.key);
    if entry.Some? && entry.value.id == 0 {
      RowsAreRecorded(after, order', entry.value.source);
      var g := RowlessSource(names, db, order, scans, entry.value.source);
      GroupsAreNonEmpty(files);
      OwnerKeyAfter(names, db, order, scans, g);
      GroupMembers(files, g);
      assert Group(files, g)[0] in Group(files, g);
      assert Group(files, g)[0] == f;
    }
  }

  lemma TwinRow(names: Naming, db: Db, order: seq<SourceId>, scans: seq<RootScan>, f: File, twin: File)
    requires Ready(names, db, order, scans) && ValidSnapshot(SnapshotOf(db, order))
    requires f in ScannedFiles(scans) && twin in ScannedFiles(scans) && twin.identity == f.identity && twin != f
    requires StandInHit(names, SnapshotOf(db, order), f)
    ensures Recorded(Apply(db, PlanOf(names, db, order, scans)), Owner(names, SnapshotOf(db, order), f.identity),
            twin.key)
  {
    if StandInHit(names, SnapshotOf(db, order), twin) {
      StandInIsOnlyEntry(SnapshotOf(db, order), f.key, twin.key);
    }
    ScannedFileRow(names, db, order, scans, twin);
  }

  lemma SoleHitOwnerIsRowless(
    names: Naming, db: Db, order: seq<SourceId>, scans: seq<RootScan>, f: File, key: Key)
    requires Ready(names, db, order, scans) && ValidSnapshot(SnapshotOf(db, order)) && f in ScannedFiles(scans)
    requires StandInHit(names, SnapshotOf(db, order), f) && SoleFile(ScannedFiles(scans), f)
    ensures !Recorded(Apply(db, PlanOf(names, db, order, scans)), Owner(names, SnapshotOf(db, order), f.identity), key)
  {
    var before, files := SnapshotOf(db, order), ScannedFiles(scans);
    var owner := Owner(names, before, f.identity);
    RecordedAfter(names, db, order, scans, owner, key);
    assert !HasRow(before, owner);
    InsertedMembers(names, before, files, Identities(files));
    forall other | other in files && Owner(names, before, other.identity) == owner ensures other == f {
      OwnersDistinct(names, db, order, f.identity, other.identity);
    }
  }

  lemma LookupIsRecorded(db: Db, order: seq<SourceId>, key: Key)
    requires ValidSnapshot(SnapshotOf(db, order))
    ensures Lookup(SnapshotOf(db, order), key).Some? && Lookup(SnapshotOf(db, order), key).value.id != 0 ==>
              Recorded(db, Lookup(SnapshotOf(db, order), key).value.source, key)
  {
  }

  lemma UnrecordedKey(db: Db, order: seq<SourceId>, key: Key)
    requires ValidSnapshot(SnapshotOf(db, order)) && forall source :: !Recorded(db, source, key)
    ensures Lookup(SnapshotOf(db, order), key) == match StandIn(SnapshotOf(db, order), order, key)
                                                  case None => None
                                                  case Some(id) => Some(Entry(0, id))
  {
    LookupIsRecorded(db, order, key);
  }

  lemma HitHasNoRow(names: Naming, db: Db, order: seq<SourceId>, scans: seq<RootScan>, f: File, source: SourceId)
    requires Ready(names, db, order, scans) && ValidSnapshot(SnapshotOf(db, order)) && f in ScannedFiles(scans)
    requires StandInHit(names, SnapshotOf(db, order), f)
    ensures !Recorded(Apply(db, PlanOf(names, db, order, scans)), source, f.key)
  {
    ScannedFileRow(names, db, order, scans, f);
  }

  lemma TwinnedHitIsLost(
    names: Naming, db: Db, order: seq<SourceId>, scans: seq<RootScan>, again: Naming, order': seq<SourceId>, f: File)
    requires Rescans(names, db, order, scans, again, order') && f in ScannedFiles(scans)
    requires StandInHit(names, SnapshotOf(db, order), f) && !SoleFile(ScannedFiles(scans), f)
    ensures NeedsRow(SnapshotOf(Apply(db, PlanOf(names, db, order, scans)), order'), f.key,
                     Owner(names, SnapshotOf(db, order), f.identity))
  {
    var files, after := ScannedFiles(scans), Apply(db, PlanOf(names, db, order, scans));
    forall source ensures !Recorded(after, source, f.key) { HitHasNoRow(names, db, order, scans, f, source); }
    UnrecordedKey(after, order', f.key);
    StandInAfter(names, db, order, scans, again, order', f);
    var twin :| twin in files && twin.identity == f.identity && twin != f;
    TwinRow(names, db, order, scans, f, twin);
    RowsAreRecorded(after, order', Owner(names, SnapshotOf(db, order), f.identity));
  }

  lemma SoleHitIsFound(
    names: Naming, db: Db, order: seq<SourceId>, scans: seq<RootScan>, again: Naming, order': seq<SourceId>, f: File)
    requires Rescans(names, db, order, scans, again, order') && f in ScannedFiles(scans)
    requires StandInHit(names, SnapshotOf(db, order), f) && SoleFile(ScannedFiles(scans), f)
    ensures var owner := Owner(names, SnapshotOf(db, order), f.identity);
            var snap := SnapshotOf(Apply(db, PlanOf(names, db, order, scans)), order');
            !NeedsRow(snap, f.key, owner) && owner in snap.sources && RecordedAt(snap, owner, f.key)
  {
    var files, after := ScannedFiles(scans), Apply(db, PlanOf(names, db, order, scans));
    var owner := Owner(names, SnapshotOf(db, order), f.identity);
    forall source ensures !Recorded(after, source, f.key) { HitHasNoRow(names, db, order, scans, f, source); }
    UnrecordedKey(after, order', f.key);
    StandInAfter(names, db, order, scans, again, order', f);
    forall key ensures !Recorded(after, owner, key) { SoleHitOwnerIsRowless(names, db, order, scans, f, key); }
    RowsAreRecorded(after, order', owner);
    IdentitiesMembers(files);
    GroupOfSoleFile(files, f);
    OwnerKeyAfter(names, db, order, scans, f.identity);
    assert owner in order';
  }

  lemma RowFoundAgain(
    names: Naming, db: Db, order: seq<SourceId>, scans: seq<RootScan>, order': seq<SourceId>, f: File)
    requires Ready(names, db, order, scans) && ValidSnapshot(SnapshotOf(db, order)) && f in ScannedFiles(scans)
    requires var after := Apply(db, PlanOf(names, db, order, scans)); ValidSnapshot(SnapshotOf(after, order'))
    requires !StandInHit(names, SnapshotOf(db, order), f)
    ensures var owner := Owner(names, SnapshotOf(db, order), f.identity);
            var snap := SnapshotOf(Apply(db, PlanOf(names, db, order, scans)), order');
            !NeedsRow(snap, f.key, owner) && owner in snap.sources && RecordedAt(snap, owner, f.key)
  {
    var after := Apply(db, PlanOf(names, db, order, scans));
    var owner, snap := Owner(names, SnapshotOf(db, order), f.identity), SnapshotOf(after, order');
    ScannedFileRow(names, db, order, scans, f);
    var l :| l in after.locations && after.locations[l] == Location(owner, f.key);
    RowLookup(snap, l);
  }

  /** A file is found again under its owner unless it was a stand-in hit with a twin. */
  lemma FoundAgain(
    names: Naming, db: Db, order: seq<SourceId>, scans: seq<RootScan>, again: Naming, order': seq<SourceId>, f: File)
    requires Rescans(names, db, order, scans, again, order') && f in ScannedFiles(scans)
    ensures var owner := Owner(names, SnapshotOf(db, order), f.identity);
            var snap := SnapshotOf(Apply(db, PlanOf(names, db, order, scans)), order');
            && (NeedsRow(snap, f.key, owner) <==>
                StandInHit(names, SnapshotOf(db, order), f) && !SoleFile(ScannedFiles(scans), f))
            && (!NeedsRow(snap, f.key, owner) ==> owner in snap.sources && RecordedAt(snap, owner, f.key))
  {
    if StandInHit(names, SnapshotOf(db, order), f) {
      if SoleFile(ScannedFiles(scans), f) {
        SoleHitIsFound(names, db, order, scans, again, order', f);
      } else {
        TwinnedHitIsLost(names, db, order, scans, again, order', f);
      }
    } else {
      RowFoundAgain(names, db, order, scans, order', f);
    }
  }
}
