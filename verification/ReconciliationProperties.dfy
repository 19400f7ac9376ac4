/** What a scan leaves behind: an exact index of the scanned files, and nothing for a second scan to do. */
module ReconciliationProperties {
  import opened Wrappers
  import opened Reconciliation
  import opened ReconciliationFacts
  import opened ReconciliationStore

  // ---------------------------------------------------------------- what the database and a scan promise

  ghost predicate SourcesValid(db: Db) {
    forall id :: id in db.sources ==>
      && db.sources[id].id == id && db.sources[id].key.root in db.roots
      && (db.sources[id].record.Some? ==> db.sources[id].record.value in db.records)
      && (db.sources[id].replacedBy.Some? ==> db.sources[id].replacedBy.value in db.sources)
  }

  ghost predicate LocationsValid(db: Db) {
    && UniqueKeys(db.locations)
    && forall l :: l in db.locations ==>
         0 < l < db.nextLocation && db.locations[l].source in db.sources && db.locations[l].key.root in db.roots
  }

  ghost predicate ReferencesValid(db: Db) {
    && (forall j :: j in db.jobs && j.source.Some? ==> j.source.value in db.sources)
    && (forall j :: j in db.jobs && j.record.Some? ==> j.record.value in db.records)
    && (forall p :: p in db.publications ==> db.publications[p].record in db.records)
    && (forall p ::
       p in db.publications && db.publications[p].source.Some?
       ==> db.publications[p].source.value in db.sources)
    && (forall a :: a in db.aliases ==> a in db.records && db.aliases[a] in db.records)
    && db.activeRefresh <= db.records
  }

  /** Foreign keys resolve and (root, path) names one location row. */
  ghost predicate ValidDb(db: Db) {
    SourcesValid(db) && LocationsValid(db) && ReferencesValid(db) && db.nextLocation > 0
  }

  /** A source whose id is the digest of an identity has that identity. */
  ghost predicate HashedIds(names: Naming, db: Db) {
    forall id, g :: id in db.sources && id == names.idOf(g) ==> db.sources[id].identity == g
  }

  ghost predicate CollisionFree(names: Naming) {
    forall a, b :: names.idOf(a) == names.idOf(b) ==> a == b
  }

  ghost predicate ValidScans(db: Db, scans: seq<RootScan>) {
    && DistinctKeys(ScannedFiles(scans))
    && forall s :: s in scans ==>
         && s.root in db.roots && db.roots[s.root]
         && (s.files.Some? ==> forall f :: f in s.files.value ==> f.key.root == s.root)
  }

  ghost predicate Ready(names: Naming, db: Db, order: seq<SourceId>, scans: seq<RootScan>) {
    && ValidDb(db) && Enumerates(order, db.sources.Keys) && CollisionFree(names) && HashedIds(names, db)
    && ValidScans(db, scans)
  }

  lemma SnapshotValid(db: Db, order: seq<SourceId>)
    requires ValidDb(db) && Enumerates(order, db.sources.Keys)
    ensures ValidSnapshot(SnapshotOf(db, order))
  {
  }

  function PlanOf(names: Naming, db: Db, order: seq<SourceId>, scans: seq<RootScan>): Plan
    requires ValidSnapshot(SnapshotOf(db, order))
  {
    PlanSpec(names, SnapshotOf(db, order), scans)
  }

  lemma {:induction false} ScannedFilesMembers(scans: seq<RootScan>)
    ensures forall f :: f in ScannedFiles(scans) <==> exists s :: s in scans && s.files.Some? && f in s.files.value
    ensures forall r :: r in ScannedRoots(scans) <==> exists s :: s in scans && s.files.Some? && s.root == r
    decreases |scans|
  {
    if scans != [] {
      ScannedFilesMembers(scans[..|scans| - 1]);
      assert scans == scans[..|scans| - 1] + [scans[|scans| - 1]];
    }
  }

  lemma FileRoots(db: Db, scans: seq<RootScan>)
    requires ValidScans(db, scans)
    ensures forall f :: f in ScannedFiles(scans) ==> f.key.root in ScannedRoots(scans) && f.key.root in db.roots
    ensures forall r :: r in ScannedRoots(scans) ==> r in db.roots
  {
    ScannedFilesMembers(scans);
  }

  // ---------------------------------------------------------------- owners

  /** The id a file is filed under belongs to its identity alone. */
  lemma OwnerFacts(names: Naming, db: Db, order: seq<SourceId>, g: Identity)
    requires ValidDb(db) && Enumerates(order, db.sources.Keys) && HashedIds(names, db)
    ensures var snap := SnapshotOf(db, order); ValidSnapshot(snap)
    ensures var snap := SnapshotOf(db, order); var owner := Owner(names, snap, g);
            && (owner in db.sources <==> Existing(snap, g).Some?)
            && (owner in db.sources ==> db.sources[owner].identity == g)
            && (owner !in db.sources ==> owner == names.idOf(g))
  {
    var snap := SnapshotOf(db, order);
    ExistingFacts(snap, g);
    assert names.idOf(g) in db.sources ==> db.sources[names.idOf(g)].identity == g;
  }

  lemma OwnersDistinct(names: Naming, db: Db, order: seq<SourceId>, a: Identity, b: Identity)
    requires ValidDb(db) && Enumerates(order, db.sources.Keys) && HashedIds(names, db) && CollisionFree(names)
    requires ValidSnapshot(SnapshotOf(db, order))
    requires Owner(names, SnapshotOf(db, order), a) == Owner(names, SnapshotOf(db, order), b)
    ensures a == b
  {
    OwnerFacts(names, db, order, a);
    OwnerFacts(names, db, order, b);
  }

  // ---------------------------------------------------------------- location rows

  /** A file recorded only by a source's own columns, which the planner takes for a row. */
  ghost predicate StandInHit(names: Naming, snap: Snapshot, f: File)
    requires ValidSnapshot(snap)
  {
    Lookup(snap, f.key) == Some(Entry(0, Owner(names, snap, f.identity)))
  }

  /** A row stays exactly when its path was not scanned and its root was not either, or its file has its owner. */
  lemma DeletedRowFacts(names: Naming, db: Db, order: seq<SourceId>, scans: seq<RootScan>, l: nat)
    requires Ready(names, db, order, scans) && l in db.locations
    requires ValidSnapshot(SnapshotOf(db, order))
    ensures var snap, files := SnapshotOf(db, order), ScannedFiles(scans);
            && (forall f :: f in files && f.key == db.locations[l].key ==>
                  (l in DeletedRows(names, snap, scans) <==> db.locations[l].source != Owner(names, snap, f.identity)))
            && ((forall f :: f in files ==> f.key != db.locations[l].key) ==>
                  (l in DeletedRows(names, snap, scans) <==> db.locations[l].key.root in ScannedRoots(scans)))
  {
    var snap, files := SnapshotOf(db, order), ScannedFiles(scans);
    var gs := Identities(files);
    EvictedMembers(names, snap, files, gs);
    IdentitiesMembers(files);
    FileRoots(db, scans);
    forall f | f in files && Evicts(names, snap, f, l) ensures f.key == db.locations[l].key { }
    forall f | f in files && f.key == db.locations[l].key
      ensures Lookup(snap, f.key) == Some(Entry(l, db.locations[l].source))
      ensures f.identity in gs
    {
      assert Lookup(snap, f.key).value.id in db.locations;
    }
  }

  lemma ScannedFileFacts(names: Naming, db: Db, order: seq<SourceId>, scans: seq<RootScan>, f: File)
    requires Ready(names, db, order, scans) && f in ScannedFiles(scans)
    requires ValidSnapshot(SnapshotOf(db, order))
    ensures var snap, files := SnapshotOf(db, order), ScannedFiles(scans); var owner := Owner(names, snap, f.identity);
            && owner in Seen(names, snap, scans)
            && f.identity in Identities(files)
            && (NeedsRow(snap, f.key, owner) <==>
                NewLocation(owner, f.key) in InsertedRows(names, snap, files, Identities(files)))
  {
    var snap, files := SnapshotOf(db, order), ScannedFiles(scans);
    var gs, owner := Identities(files), Owner(names, SnapshotOf(db, order), f.identity);
    IdentitiesMembers(files);
    InsertedMembers(names, snap, files, gs);
    assert f.identity in gs;
    var i :| 0 <= i < |gs| && gs[i] == f.identity;
    assert Owners(names, snap, gs)[i] == owner;
    if NeedsRow(snap, f.key, owner) {
      assert Inserts(names, snap, f, NewLocation(owner, f.key));
    }
  }

  lemma SeenFacts(names: Naming, snap: Snapshot, scans: seq<RootScan>, id: SourceId)
    requires ValidSnapshot(snap)
    ensures id in Seen(names, snap, scans) <==>
            exists f :: f in ScannedFiles(scans) && id == Owner(names, snap, f.identity)
  {
    var files := ScannedFiles(scans);
    var gs := Identities(files);
    IdentitiesMembers(files);
    if id in Seen(names, snap, scans) {
      var i :| 0 <= i < |gs| && Owners(names, snap, gs)[i] == id;
      assert gs[i] in gs;
    }
    if f :| f in files && id == Owner(names, snap, f.identity) {
      assert f.identity in gs;
      var i :| 0 <= i < |gs| && gs[i] == f.identity;
      assert Owners(names, snap, gs)[i] == id;
    }
  }

  /** The owner of a scanned file keeps or gets a row, unless the file is a stand-in hit. */
  lemma OwnerLives(names: Naming, db: Db, order: seq<SourceId>, scans: seq<RootScan>, f: File)
    requires Ready(names, db, order, scans) && f in ScannedFiles(scans)
    requires ValidSnapshot(SnapshotOf(db, order))
    requires !StandInHit(names, SnapshotOf(db, order), f)
    ensures Owner(names, SnapshotOf(db, order), f.identity) in Live(names, SnapshotOf(db, order), scans)
  {
    var snap := SnapshotOf(db, order);
    ScannedFileFacts(names, db, order, scans, f);
    if !NeedsRow(snap, f.key, Owner(names, snap, f.identity)) {
      DeletedRowFacts(names, db, order, scans, Lookup(snap, f.key).value.id);
    }
  }

  /** A stand-in is all the planner knows of its source. */
  lemma StandInIsOnlyEntry(snap: Snapshot, key: Key, other: Key)
    requires ValidSnapshot(snap)
    requires Lookup(snap, key).Some? && Lookup(snap, key).value.id == 0 && Lookup(snap, other).Some?
    requires Lookup(snap, other).value.source == Lookup(snap, key).value.source
    ensures other == key
  {
    var entry := Lookup(snap, other).value;
    assert entry.id != 0 ==> HasRow(snap, entry.source);
  }

  lemma RetiredIsNotSeen(
    names: Naming, db: Db, order: seq<SourceId>, scans: seq<RootScan>, g: Identity, at: File, f: File)
    requires Ready(names, db, order, scans)
    requires ValidSnapshot(SnapshotOf(db, order))
    requires at in ScannedFiles(scans) && f in ScannedFiles(scans) && at.identity == g
    requires Existing(SnapshotOf(db, order), g).None?
    requires Lookup(SnapshotOf(db, order), at.key).Some?
    requires Lookup(SnapshotOf(db, order), at.key).value.source == Owner(names, SnapshotOf(db, order), f.identity)
    ensures !StandInHit(names, SnapshotOf(db, order), f)
  {
    var snap := SnapshotOf(db, order);
    OwnerFacts(names, db, order, f.identity);
    assert f.identity != g && f.key != at.key;
    if StandInHit(names, snap, f) {
      StandInIsOnlyEntry(snap, f.key, at.key);
    }
  }

  /** A candidate for replacement is a source some scanned file of a new identity was recorded under. */
  lemma RetiredAt(names: Naming, db: Db, order: seq<SourceId>, scans: seq<RootScan>, r: Replacement) returns (at: File)
    requires Ready(names, db, order, scans) && ValidSnapshot(SnapshotOf(db, order))
    requires r in Replacements(names, SnapshotOf(db, order), ScannedFiles(scans), Identities(ScannedFiles(scans)))
    ensures at in ScannedFiles(scans) && Existing(SnapshotOf(db, order), at.identity).None?
    ensures Lookup(SnapshotOf(db, order), at.key).Some?
    ensures Lookup(SnapshotOf(db, order), at.key).value.source == r.retired && r.retired in db.sources
  {
    var snap, files := SnapshotOf(db, order), ScannedFiles(scans);
    ReplacementMembers(names, snap, files, Identities(files));
    var g :| g in Identities(files) && r in Retirement(names, snap, files, g);
    at := RecordedFile(names, snap, Group(files, g));
    GroupMembers(files, g);
  }

  /** It owns no scanned file unless it lives on. */
  lemma RetiredOwnsNothing(
    names: Naming, db: Db, order: seq<SourceId>, scans: seq<RootScan>, r: Replacement, f: File)
    requires Ready(names, db, order, scans) && ValidSnapshot(SnapshotOf(db, order)) && f in ScannedFiles(scans)
    requires r in Replacements(names, SnapshotOf(db, order), ScannedFiles(scans), Identities(ScannedFiles(scans)))
    ensures r.retired == Owner(names, SnapshotOf(db, order), f.identity) ==>
              r.retired in Live(names, SnapshotOf(db, order), scans)
  {
    var at := RetiredAt(names, db, order, scans, r);
    if r.retired == Owner(names, SnapshotOf(db, order), f.identity) {
      RetiredIsNotSeen(names, db, order, scans, at.identity, at, f);
      OwnerLives(names, db, order, scans, f);
    }
  }

  /** Every source a plan marks as replaced is deleted by the same plan. */
  lemma ReplacedSourcesAreDeleted(names: Naming, db: Db, order: seq<SourceId>, scans: seq<RootScan>, r: Replacement)
    requires Ready(names, db, order, scans)
    requires ValidSnapshot(SnapshotOf(db, order)) && r in PlanOf(names, db, order, scans).replacements
    ensures r.retired in db.sources && r.retired in PlanOf(names, db, order, scans).deletedSources
  {
    var snap, files := SnapshotOf(db, order), ScannedFiles(scans);
    PairsMembers(Replacements(names, snap, files, Identities(files)), Live(names, snap, scans));
    LostMembers(snap.order, Live(names, snap, scans) + Seen(names, snap, scans));
    var at := RetiredAt(names, db, order, scans, r);
    SeenFacts(names, snap, scans, r.retired);
    forall f | f in files ensures r.retired != Owner(names, snap, f.identity) {
      RetiredOwnsNothing(names, db, order, scans, r, f);
    }
  }

  lemma RecordedFile(names: Naming, snap: Snapshot, group: seq<File>) returns (f: File)
    requires ValidSnapshot(snap) && FirstRecorded(snap, group).Some?
    ensures f in group && Lookup(snap, f.key).Some?
    ensures Lookup(snap, f.key).value.source == FirstRecorded(snap, group).value
  {
    if Lookup(snap, group[0].key).Some? {
      f := group[0];
    } else {
      f := RecordedFile(names, snap, group[1..]);
    }
  }
}
