/**
 A run from an empty database that ends in an inexact index, and in a scan that repeated does something: a move
 seen in two scans, then a removed root.
 */
module ReconciliationStranding {
  import opened Wrappers
  import opened Reconciliation
  import opened ReconciliationStore
  import opened ReconciliationFacts
  import opened ReconciliationProperties
  import opened ReconciliationIndex
  import opened ReconciliationStability
  import opened ReconciliationNoOp
  import opened ReconciliationRuns
  import opened ReconciliationRowed

  /** The one source of a database, its identity, and the paths at which it has rows. */
  ghost predicate OneSource(db: Db, id: SourceId, g: Identity, keys: set<Key>) {
    db.sources.Keys == {id} && db.sources[id].identity == g && RowsAt(db, id, keys)
  }

  function Outside(keys: set<Key>, root: RootId): set<Key> {
    set key | key in keys && key.root != root
  }

  ghost predicate RowsAt(db: Db, id: SourceId, keys: set<Key>) {
    forall source, key :: Recorded(db, source, key) <==> source == id && key in keys
  }

  lemma ScannedPath(names: Naming, db: Db, order: seq<SourceId>, scans: seq<RootScan>, source: SourceId, key: Key)
    requires Ready(names, db, order, scans) && ValidSnapshot(SnapshotOf(db, order)) && key.root in ScannedRoots(scans)
    ensures Recorded(Apply(db, PlanOf(names, db, order, scans)), source, key) ==>
              exists f :: f in ScannedFiles(scans) && f.key == key
  {
    var after := Apply(db, PlanOf(names, db, order, scans));
    if l :| l in after.locations && after.locations[l] == Location(source, key) {
      RowUnderScannedRoot(names, db, order, scans, l);
    }
  }

  lemma UnscannedPath(names: Naming, db: Db, order: seq<SourceId>, scans: seq<RootScan>, source: SourceId, key: Key)
    requires Ready(names, db, order, scans) && ValidSnapshot(SnapshotOf(db, order)) && key.root !in ScannedRoots(scans)
    ensures Recorded(Apply(db, PlanOf(names, db, order, scans)), source, key) <==> Recorded(db, source, key)
    ensures Recorded(db, source, key) ==> source in Apply(db, PlanOf(names, db, order, scans)).sources
  {
    var after := Apply(db, PlanOf(names, db, order, scans));
    if l :| l in after.locations && after.locations[l] == Location(source, key) {
      UnscannedRowsUntouched(names, db, order, scans, l);
    }
    if l :| l in db.locations && db.locations[l] == Location(source, key) {
      UnscannedRowsUntouched(names, db, order, scans, l);
    }
  }

  /** A scan keeps sources or creates them for scanned identities. */
  lemma SourceAfterScan(names: Naming, db: Db, order: seq<SourceId>, scans: seq<RootScan>, id: SourceId)
    requires Ready(names, db, order, scans) && ValidSnapshot(SnapshotOf(db, order))
    requires id in Apply(db, PlanOf(names, db, order, scans)).sources && id !in db.sources
    ensures exists f :: f in ScannedFiles(scans) && id == names.idOf(f.identity)
  {
    var plan := PlanOf(names, db, order, scans);
    SourceShape(db, plan, id);
    AddSourcesFacts(db.sources, plan.newSources);
    CreatedSource(names, db, order, scans, AddSources(db.sources, plan.newSources)[id]);
    IdentitiesMembers(ScannedFiles(scans));
  }

  /** A scan of one root that sees nothing but one file. */
  ghost predicate SeesOnly(scans: seq<RootScan>, f: File) {
    && (forall x :: x in ScannedFiles(scans) <==> x == f)
    && (forall root :: root in ScannedRoots(scans) <==> root == f.key.root)
  }

  lemma OwnerIsDigest(names: Naming, db: Db, order: seq<SourceId>, g: Identity)
    requires ValidSnapshot(SnapshotOf(db, order)) && db.sources.Keys <= {names.idOf(g)}
    ensures Owner(names, SnapshotOf(db, order), g) == names.idOf(g)
  {
    ExistingFacts(SnapshotOf(db, order), g);
  }

  lemma NoOtherSource(
    names: Naming, db: Db, order: seq<SourceId>, scans: seq<RootScan>, g: Identity, other: SourceId)
    requires Ready(names, db, order, scans) && ValidSnapshot(SnapshotOf(db, order))
    requires forall x :: x in ScannedFiles(scans) ==> x.identity == g
    requires db.sources.Keys <= {names.idOf(g)} && other in Apply(db, PlanOf(names, db, order, scans)).sources
    ensures other == names.idOf(g)
  {
    if other !in db.sources {
      SourceAfterScan(names, db, order, scans, other);
    }
  }

  lemma FileScanSources(names: Naming, db: Db, order: seq<SourceId>, scans: seq<RootScan>, f: File)
    requires Ready(names, db, order, scans) && ValidSnapshot(SnapshotOf(db, order)) && SeesOnly(scans, f)
    requires db.sources.Keys <= {names.idOf(f.identity)}
    ensures Owner(names, SnapshotOf(db, order), f.identity) == names.idOf(f.identity)
    ensures var id, after := names.idOf(f.identity), Apply(db, PlanOf(names, db, order, scans));
            after.sources.Keys == {id} && after.sources[id].identity == f.identity && after.sources[id].key == f.key
  {
    OwnerIsDigest(names, db, order, f.identity);
    FileScanOwner(names, db, order, scans, f);
    OneIdentityOneSource(names, db, order, scans, f);
  }

  lemma FileScanOwner(names: Naming, db: Db, order: seq<SourceId>, scans: seq<RootScan>, f: File)
    requires Ready(names, db, order, scans) && ValidSnapshot(SnapshotOf(db, order)) && SeesOnly(scans, f)
    ensures var id, after := Owner(names, SnapshotOf(db, order), f.identity),
            Apply(db, PlanOf(names, db, order, scans));
            id in after.sources && after.sources[id].identity == f.identity && after.sources[id].key == f.key
  {
    var files := ScannedFiles(scans);
    IdentitiesMembers(files);
    GroupsAreNonEmpty(files);
    GroupMembers(files, f.identity);
    OwnerAfter(names, db, order, scans, f.identity);
    OwnerKeyAfter(names, db, order, scans, f.identity);
    assert Group(files, f.identity)[0] in Group(files, f.identity);
  }

  lemma FileScanRow(
    names: Naming, db: Db, order: seq<SourceId>, scans: seq<RootScan>, f: File, source: SourceId, key: Key)
    requires Ready(names, db, order, scans) && ValidSnapshot(SnapshotOf(db, order)) && AllRowed(db)
    requires SeesOnly(scans, f)
    ensures Recorded(Apply(db, PlanOf(names, db, order, scans)), source, key) <==>
            if key.root == f.key.root then source == Owner(names, SnapshotOf(db, order), f.identity) && key == f.key
            else Recorded(db, source, key)
  {
    if key.root == f.key.root {
      RowedHasNoHit(names, db, order, f);
      ScannedFileRow(names, db, order, scans, f);
      ScannedPath(names, db, order, scans, source, key);
    } else {
      UnscannedPath(names, db, order, scans, source, key);
    }
  }

  lemma FileScanRows(
    names: Naming, db: Db, order: seq<SourceId>, scans: seq<RootScan>, f: File, id: SourceId, keys: set<Key>)
    requires Ready(names, db, order, scans) && ValidSnapshot(SnapshotOf(db, order)) && AllRowed(db)
    requires SeesOnly(scans, f) && RowsAt(db, id, keys) && Owner(names, SnapshotOf(db, order), f.identity) == id
    ensures RowsAt(Apply(db, PlanOf(names, db, order, scans)), id, Outside(keys, f.key.root) + {f.key})
  {
    var after := Apply(db, PlanOf(names, db, order, scans));
    forall source, key
      ensures Recorded(after, source, key) <==> source == id && key in Outside(keys, f.key.root) + {f.key}
    {
      FileScanRow(names, db, order, scans, f, source, key);
    }
  }

  /** A scan of one root that sees the source's file adds its row there and makes it the recorded path. */
  lemma FileScan(
    names: Naming, db: Db, order: seq<SourceId>, scans: seq<RootScan>, f: File, keys: set<Key>)
    requires Ready(names, db, order, scans) && ValidSnapshot(SnapshotOf(db, order)) && AllRowed(db)
    requires SeesOnly(scans, f) && db.sources.Keys <= {names.idOf(f.identity)}
    requires RowsAt(db, names.idOf(f.identity), keys)
    ensures var id, after := names.idOf(f.identity), Apply(db, PlanOf(names, db, order, scans));
            OneSource(after, id, f.identity, Outside(keys, f.key.root) + {f.key}) && after.sources[id].key == f.key
  {
    FileScanSources(names, db, order, scans, f);
    FileScanRows(names, db, order, scans, f, names.idOf(f.identity), keys);
  }

  lemma NoFilesNoChanges(names: Naming, db: Db, order: seq<SourceId>, scans: seq<RootScan>)
    requires ValidSnapshot(SnapshotOf(db, order)) && ScannedFiles(scans) == []
    ensures var plan := PlanOf(names, db, order, scans); plan.newSources == [] && plan.updates == []
  {
  }

  lemma EmptyScanRows(
    names: Naming, db: Db, order: seq<SourceId>, scans: seq<RootScan>, root: RootId, id: SourceId, keys: set<Key>)
    requires Ready(names, db, order, scans) && ValidSnapshot(SnapshotOf(db, order)) && RowsAt(db, id, keys)
    requires ScannedFiles(scans) == [] && forall r :: r in ScannedRoots(scans) <==> r == root
    ensures RowsAt(Apply(db, PlanOf(names, db, order, scans)), id, Outside(keys, root))
  {
    var after := Apply(db, PlanOf(names, db, order, scans));
    forall source, key ensures Recorded(after, source, key) <==> source == id && key in Outside(keys, root) {
      if key.root == root {
        ScannedPath(names, db, order, scans, source, key);
      } else {
        UnscannedPath(names, db, order, scans, source, key);
      }
    }
  }

  lemma EmptyScanSource(names: Naming, db: Db, order: seq<SourceId>, scans: seq<RootScan>, id: SourceId)
    requires Ready(names, db, order, scans) && ValidSnapshot(SnapshotOf(db, order)) && ScannedFiles(scans) == []
    ensures var after := Apply(db, PlanOf(names, db, order, scans));
            id in after.sources ==>
              && id in db.sources && after.sources[id].identity == db.sources[id].identity
              && after.sources[id].key == db.sources[id].key
  {
    NoFilesNoChanges(names, db, order, scans);
    SourceShape(db, PlanOf(names, db, order, scans), id);
  }

  lemma EmptyScanAddsNoSource(names: Naming, db: Db, order: seq<SourceId>, scans: seq<RootScan>)
    requires Ready(names, db, order, scans) && ValidSnapshot(SnapshotOf(db, order)) && ScannedFiles(scans) == []
    ensures Apply(db, PlanOf(names, db, order, scans)).sources.Keys <= db.sources.Keys
  {
    forall s | s in Apply(db, PlanOf(names, db, order, scans)).sources ensures s in db.sources {
      EmptyScanSource(names, db, order, scans, s);
    }
  }

  lemma EmptyScanSources(
    names: Naming, db: Db, order: seq<SourceId>, scans: seq<RootScan>, id: SourceId, other: Key)
    requires Ready(names, db, order, scans) && ValidSnapshot(SnapshotOf(db, order)) && ScannedFiles(scans) == []
    requires db.sources.Keys == {id} && Recorded(db, id, other) && other.root !in ScannedRoots(scans)
    ensures var after := Apply(db, PlanOf(names, db, order, scans));
            && after.sources.Keys == {id} && after.sources[id].identity == db.sources[id].identity
            && after.sources[id].key == db.sources[id].key
  {
    UnscannedPath(names, db, order, scans, id, other);
    EmptyScanSource(names, db, order, scans, id);
    EmptyScanAddsNoSource(names, db, order, scans);
  }

  /** A scan that no longer sees the file takes the row, but leaves the recorded path. */
  lemma EmptyScan(
    names: Naming, db: Db, order: seq<SourceId>, scans: seq<RootScan>, root: RootId, id: SourceId, g: Identity,
    keys: set<Key>, other: Key)
    requires Ready(names, db, order, scans) && ValidSnapshot(SnapshotOf(db, order)) && OneSource(db, id, g, keys)
    requires ScannedFiles(scans) == [] && forall r :: r in ScannedRoots(scans) <==> r == root
    requires other in keys && other.root != root
    ensures var after := Apply(db, PlanOf(names, db, order, scans));
            OneSource(after, id, g, Outside(keys, root)) && after.sources[id].key == db.sources[id].key
  {
    EmptyScanRows(names, db, order, scans, root, id, keys);
    EmptyScanSources(names, db, order, scans, id, other);
  }

  /** Removing the root of the only row leaves the source where another root's path is recorded. */
  lemma LastRowRemoved(db: Db, root: RootId, id: SourceId, g: Identity, keys: set<Key>)
    requires OneSource(db, id, g, keys) && root in db.roots && root != HISTORICAL
    requires (forall key :: key in keys ==> key.root == root) && db.sources[id].key.root != root
    ensures var after := RemoveRoot(db, root);
            after.sources.Keys == {id} && after.sources[id].identity == g && after.sources[id].key == db.sources[id].key
            && after.locations == map[]
  {
    var kept := map l | l in db.locations && db.locations[l].key.root != root :: db.locations[l];
    forall l | l in db.locations ensures db.locations[l].key.root == root {
      assert Recorded(db, db.locations[l].source, db.locations[l].key) && db.locations[l].key in keys;
    }
    assert kept == map[];
    FirstRowFacts(kept, id, db.nextLocation);
  }

  /** A database of one source without any row, recorded where the file is. */
  ghost predicate OnlyRecorded(db: Db, id: SourceId, f: File) {
    && db.sources.Keys == {id} && db.sources[id].identity == f.identity && db.sources[id].key == f.key
    && db.locations == map[]
  }

  lemma RowlessPathIsHit(names: Naming, db: Db, order: seq<SourceId>, f: File)
    requires ValidSnapshot(SnapshotOf(db, order)) && OnlyRecorded(db, names.idOf(f.identity), f)
    ensures StandInHit(names, SnapshotOf(db, order), f)
  {
    var id, snap := names.idOf(f.identity), SnapshotOf(db, order);
    ExistingFacts(snap, f.identity);
    assert Existing(snap, f.identity) == Some(id);
    assert !HasRow(snap, id);
    assert id in snap.order && StandIn(snap, snap.order, f.key) == Some(id);
  }

  /** The file there gets no row. */
  lemma RowlessPathIsLost(
    names: Naming, db: Db, order: seq<SourceId>, scans: seq<RootScan>, f: File)
    requires Ready(names, db, order, scans) && ValidSnapshot(SnapshotOf(db, order)) && f in ScannedFiles(scans)
    requires OnlyRecorded(db, names.idOf(f.identity), f)
    ensures !ExactIndex(Apply(db, PlanOf(names, db, order, scans)), scans)
  {
    RowlessPathIsHit(names, db, order, f);
    IndexIsExact(names, db, order, scans);
  }

  /** With another file of its identity beside it, scanning the same files again is not a no-op. */
  lemma LostPathIsScannedAgain(
    names: Naming, db: Db, order: seq<SourceId>, scans: seq<RootScan>, again: Naming, order': seq<SourceId>, f: File,
    twin: File)
    requires Ready(names, db, order, scans) && ValidSnapshot(SnapshotOf(db, order))
    requires f in ScannedFiles(scans) && OnlyRecorded(db, names.idOf(f.identity), f)
    requires twin in ScannedFiles(scans) && twin != f && twin.identity == f.identity
    requires again.idOf == names.idOf && Enumerates(order', Apply(db, PlanOf(names, db, order, scans)).sources.Keys)
    ensures var after := Apply(db, PlanOf(names, db, order, scans));
            && ValidSnapshot(SnapshotOf(after, order'))
            && !IsNoOp(PlanOf(again, after, order', scans), |ScannedFiles(scans)|)
  {
    RowlessPathIsHit(names, db, order, f);
    SecondScanReady(names, db, order, scans, again, order');
    SecondScanIsNoOp(names, db, order, scans, again, order');
  }

  /** Files of one identity leave no other source than its own. */
  lemma OneIdentityOneSource(names: Naming, db: Db, order: seq<SourceId>, scans: seq<RootScan>, f: File)
    requires Ready(names, db, order, scans) && ValidSnapshot(SnapshotOf(db, order)) && f in ScannedFiles(scans)
    requires forall x :: x in ScannedFiles(scans) ==> x.identity == f.identity
    requires db.sources.Keys <= {names.idOf(f.identity)}
    ensures Apply(db, PlanOf(names, db, order, scans)).sources.Keys == {names.idOf(f.identity)}
  {
    DigestRemains(names, db, order, scans, f);
    forall other | other in Apply(db, PlanOf(names, db, order, scans)).sources ensures other == names.idOf(f.identity) {
      NoOtherSource(names, db, order, scans, f.identity, other);
    }
  }

  lemma DigestRemains(names: Naming, db: Db, order: seq<SourceId>, scans: seq<RootScan>, f: File)
    requires Ready(names, db, order, scans) && ValidSnapshot(SnapshotOf(db, order)) && f in ScannedFiles(scans)
    requires db.sources.Keys <= {names.idOf(f.identity)}
    ensures names.idOf(f.identity) in Apply(db, PlanOf(names, db, order, scans)).sources
  {
    OwnerIsDigest(names, db, order, f.identity);
    IdentitiesMembers(ScannedFiles(scans));
    OwnerAfter(names, db, order, scans, f.identity);
  }

  // ---------------------------------------------------------------- the run

  const EMPTY := Db(map[], map[], map[], 1, [], {}, {}, map[], map[])
  const GONE := Key("gone", "y")
  const KEPT := Key("kept", "x")
  const COPY := Key("kept", "y")

  lemma Longer(idOf: Identity -> SourceId, states: seq<Db>, ops: seq<Op>, op: Op, next: Db)
    returns (longer: seq<Db>, all: seq<Op>)
    requires IsRun(idOf, states, ops) && StepsTo(idOf, states[|ops|], op, next)
    ensures IsRun(idOf, longer, all) && longer[0] == states[0] && |all| == |ops| + 1
    ensures longer[|all|] == next && all[|ops|] == op
  {
    longer, all := states + [next], ops + [op];
    forall i | 0 <= i < |ops| + 1
      ensures StepsTo(idOf, (states + [next])[i], (ops + [op])[i], (states + [next])[i + 1])
    {
      assert i < |ops| ==> StepsTo(idOf, states[i], ops[i], states[i + 1]);
    }
  }

  function ScanOf(recordOf: Identity -> RecordId, order: seq<SourceId>, root: RootId, files: seq<File>): Op {
    Scan(recordOf, order, [RootScan(root, Some(files))])
  }

  lemma OneRootScanned(root: RootId, files: seq<File>)
    ensures var scans := [RootScan(root, Some(files))];
            ScannedFiles(scans) == files && forall r :: r in ScannedRoots(scans) <==> r == root
  {
    var scans := [RootScan(root, Some(files))];
    assert scans[..0] == [];
    assert [] + files == files;
  }

  /** Everything a step needs of the state before it, and the state after. */
  lemma Scanning(
    idOf: Identity -> SourceId, recordOf: Identity -> RecordId, db: Db, order: seq<SourceId>, root: RootId,
    files: seq<File>)
    returns (next: Db)
    requires GoodDb(idOf, db) && Enumerates(order, db.sources.Keys) && root in db.roots && db.roots[root]
    requires forall a, b :: idOf(a) == idOf(b) ==> a == b
    requires DistinctKeys(files) && forall f :: f in files ==> f.key.root == root
    ensures var op := ScanOf(recordOf, order, root, files);
            && StepsTo(idOf, db, op, next) && GoodDb(idOf, next) && next.roots == db.roots
            && Ready(Naming(idOf, recordOf), db, order, op.scans) && ValidSnapshot(SnapshotOf(db, order))
            && next == Apply(db, PlanOf(Naming(idOf, recordOf), db, order, op.scans))
  {
    var op := ScanOf(recordOf, order, root, files);
    OneRootScanned(root, files);
    SnapshotValid(db, order);
    StepKeepsDb(idOf, db, op);
    next := After(idOf, db, op);
  }

  lemma Configuring(idOf: Identity -> SourceId, db: Db, root: RootId, enabled: bool) returns (next: Db)
    requires GoodDb(idOf, db) && root != HISTORICAL && forall a, b :: idOf(a) == idOf(b) ==> a == b
    ensures StepsTo(idOf, db, Configure(root, enabled), next) && GoodDb(idOf, next)
    ensures next == db.(roots := db.roots[root := enabled])
  {
    StepKeepsDb(idOf, db, Configure(root, enabled));
    next := db.(roots := db.roots[root := enabled]);
  }

  lemma SameRows(db: Db, other: Db, id: SourceId, g: Identity, keys: set<Key>)
    requires OneSource(db, id, g, keys) && other.sources == db.sources && other.locations == db.locations
    ensures OneSource(other, id, g, keys)
  {
    forall source, key ensures Recorded(other, source, key) <==> Recorded(db, source, key) {
    }
  }

  lemma RowsMakeRowed(db: Db, id: SourceId, g: Identity, keys: set<Key>, key: Key)
    requires OneSource(db, id, g, keys) && key in keys
    ensures AllRowed(db)
  {
    assert Recorded(db, id, key);
  }

  lemma OneFileSeen(f: File)
    ensures SeesOnly([RootScan(f.key.root, Some([f]))], f)
  {
    OneRootScanned(f.key.root, [f]);
  }

  lemma ScanningFile(
    idOf: Identity -> SourceId, recordOf: Identity -> RecordId, db: Db, order: seq<SourceId>, f: File, keys: set<Key>)
    returns (next: Db)
    requires GoodDb(idOf, db) && Enumerates(order, db.sources.Keys) && f.key.root in db.roots && db.roots[f.key.root]
    requires forall a, b :: idOf(a) == idOf(b) ==> a == b
    requires AllRowed(db) && db.sources.Keys <= {idOf(f.identity)} && RowsAt(db, idOf(f.identity), keys)
    ensures StepsTo(idOf, db, ScanOf(recordOf, order, f.key.root, [f]), next)
    ensures GoodDb(idOf, next) && next.roots == db.roots
    ensures OneSource(next, idOf(f.identity), f.identity, Outside(keys, f.key.root) + {f.key})
    ensures next.sources[idOf(f.identity)].key == f.key
  {
    OneFileSeen(f);
    next := Scanning(idOf, recordOf, db, order, f.key.root, [f]);
    FileScan(Naming(idOf, recordOf), db, order, [RootScan(f.key.root, Some([f]))], f, keys);
  }

  lemma ScanningNothing(
    idOf: Identity -> SourceId, recordOf: Identity -> RecordId, db: Db, root: RootId, id: SourceId, g: Identity,
    keys: set<Key>, other: Key) returns (next: Db)
    requires GoodDb(idOf, db) && root in db.roots && db.roots[root] && forall a, b :: idOf(a) == idOf(b) ==> a == b
    requires OneSource(db, id, g, keys) && other in keys && other.root != root
    ensures StepsTo(idOf, db, ScanOf(recordOf, [id], root, []), next)
    ensures GoodDb(idOf, next) && next.roots == db.roots
    ensures OneSource(next, id, g, Outside(keys, root)) && next.sources[id].key == db.sources[id].key
  {
    OneRootScanned(root, []);
    assert [id][0] == id;
    next := Scanning(idOf, recordOf, db, [id], root, []);
    EmptyScan(Naming(idOf, recordOf), db, [id], [RootScan(root, Some([]))], root, id, g, keys, other);
  }

  lemma TheKeys()
    ensures Outside({}, "gone") + {GONE} == {GONE} && Outside({GONE}, "kept") + {KEPT} == {GONE, KEPT}
    ensures Outside({GONE, KEPT}, "kept") == {GONE}
  {
  }

  /** The file is first seen under the root that goes. */
  lemma FirstSeen(idOf: Identity -> SourceId, recordOf: Identity -> RecordId, g: Identity)
    returns (states: seq<Db>, ops: seq<Op>)
    requires forall a, b :: idOf(a) == idOf(b) ==> a == b
    ensures IsRun(idOf, states, ops) && states[0] == EMPTY && GoodDb(idOf, states[|ops|])
    ensures states[|ops|].roots == map["gone" := true] && OneSource(states[|ops|], idOf(g), g, {GONE})
  {
    var s1 := Configuring(idOf, EMPTY, "gone", true);
    TheKeys();
    var s2 := ScanningFile(idOf, recordOf, s1, [], File(GONE, 0, g), {});
    states, ops := Longer(idOf, [EMPTY], [], Configure("gone", true), s1);
    states, ops := Longer(idOf, states, ops, ScanOf(recordOf, [], "gone", [File(GONE, 0, g)]), s2);
  }

  lemma RowsStayRowed(db: Db, other: Db, id: SourceId, g: Identity)
    requires OneSource(db, id, g, {GONE}) && other.sources == db.sources && other.locations == db.locations
    ensures OneSource(other, id, g, {GONE}) && AllRowed(other) && Enumerates([id], other.sources.Keys)
  {
    SameRows(db, other, id, g, {GONE});
    RowsMakeRowed(other, id, g, {GONE}, GONE);
    assert [id][0] == id;
  }

  lemma Reconfigured(idOf: Identity -> SourceId, g: Identity, db: Db) returns (disabled: Db, enabled: Db)
    requires forall a, b :: idOf(a) == idOf(b) ==> a == b
    requires GoodDb(idOf, db) && db.roots == map["gone" := true] && OneSource(db, idOf(g), g, {GONE})
    ensures StepsTo(idOf, db, Configure("gone", false), disabled)
    ensures StepsTo(idOf, disabled, Configure("kept", true), enabled)
    ensures GoodDb(idOf, enabled) && enabled.roots == map["gone" := false, "kept" := true]
    ensures OneSource(enabled, idOf(g), g, {GONE}) && AllRowed(enabled) && Enumerates([idOf(g)], enabled.sources.Keys)
  {
    disabled := Configuring(idOf, db, "gone", false);
    enabled := Configuring(idOf, disabled, "kept", true);
    RowsStayRowed(db, enabled, idOf(g), g);
    Toggled(db.roots);
  }

  lemma Toggled(roots: map<RootId, bool>)
    requires roots == map["gone" := true]
    ensures roots["gone" := false]["kept" := true] == map["gone" := false, "kept" := true]
  {
  }

  /** That root is then disabled, and the file is seen under the one that stays. */
  lemma SeenAgain(idOf: Identity -> SourceId, recordOf: Identity -> RecordId, g: Identity, db: Db)
    returns (disabled: Db, enabled: Db, next: Db)
    requires forall a, b :: idOf(a) == idOf(b) ==> a == b
    requires GoodDb(idOf, db) && db.roots == map["gone" := true] && OneSource(db, idOf(g), g, {GONE})
    ensures StepsTo(idOf, db, Configure("gone", false), disabled)
    ensures StepsTo(idOf, disabled, Configure("kept", true), enabled)
    ensures StepsTo(idOf, enabled, ScanOf(recordOf, [idOf(g)], "kept", [File(KEPT, 0, g)]), next)
    ensures GoodDb(idOf, next) && next.roots == map["gone" := false, "kept" := true]
    ensures OneSource(next, idOf(g), g, {GONE, KEPT}) && next.sources[idOf(g)].key == KEPT
  {
    disabled, enabled := Reconfigured(idOf, g, db);
    TheKeys();
    next := ScanningFile(idOf, recordOf, enabled, [idOf(g)], File(KEPT, 0, g), {GONE});
  }

  /** The file disappears from the root that stays, and the other root is removed: the source is left without a row. */
  lemma LeftWithoutRow(idOf: Identity -> SourceId, recordOf: Identity -> RecordId, g: Identity, db: Db)
    returns (unseen: Db, next: Db)
    requires forall a, b :: idOf(a) == idOf(b) ==> a == b
    requires GoodDb(idOf, db) && db.roots == map["gone" := false, "kept" := true]
    requires OneSource(db, idOf(g), g, {GONE, KEPT}) && db.sources[idOf(g)].key == KEPT
    ensures StepsTo(idOf, db, ScanOf(recordOf, [idOf(g)], "kept", []), unseen)
    ensures StepsTo(idOf, unseen, Remove("gone"), next) && GoodDb(idOf, next)
    ensures "kept" in next.roots && next.roots["kept"]
    ensures OnlyRecorded(next, idOf(g), File(KEPT, 0, g))
  {
    unseen := ScanningNothing(idOf, recordOf, db, "kept", idOf(g), g, {GONE, KEPT}, GONE);
    TheKeys();
    LastRowRemoved(unseen, "gone", idOf(g), g, {GONE});
    next := Removing(idOf, unseen, "gone");
  }

  lemma Removing(idOf: Identity -> SourceId, db: Db, root: RootId) returns (next: Db)
    requires GoodDb(idOf, db) && forall a, b :: idOf(a) == idOf(b) ==> a == b
    ensures StepsTo(idOf, db, Remove(root), next) && GoodDb(idOf, next) && next == RemoveRoot(db, root)
    ensures forall other ::
            other != root && other in db.roots
            ==> other in next.roots && next.roots[other] == db.roots[other]
  {
    StepKeepsDb(idOf, db, Remove(root));
    next := RemoveRoot(db, root);
  }

  function Both(g: Identity): seq<File> {
    [File(KEPT, 0, g), File(COPY, 0, g)]
  }

  /** The index is not exact after these scans, and the same scans once more are not a no-op. */
  ghost predicate SeenWithoutRow(names: Naming, db: Db, order: seq<SourceId>, scans: seq<RootScan>) {
    && !ExactIndex(db, scans)
    && Enumerates(order, db.sources.Keys) && ValidSnapshot(SnapshotOf(db, order))
    && !IsNoOp(PlanOf(names, db, order, scans), |ScannedFiles(scans)|)
  }

  lemma CopyIsSeen(
    names: Naming, db: Db, order: seq<SourceId>, scans: seq<RootScan>, f: File, twin: File)
    requires Ready(names, db, order, scans) && ValidSnapshot(SnapshotOf(db, order))
    requires ScannedFiles(scans) == [f, twin] && twin != f && twin.identity == f.identity
    requires OnlyRecorded(db, names.idOf(f.identity), f)
    ensures SeenWithoutRow(names, Apply(db, PlanOf(names, db, order, scans)), order, scans)
  {
    assert ScannedFiles(scans)[0] == f && ScannedFiles(scans)[1] == twin;
    RowlessPathIsLost(names, db, order, scans, f);
    OneIdentityOneSource(names, db, order, scans, f);
    LostPathIsScannedAgain(names, db, order, scans, names, order, f, twin);
  }

  /** The file comes back with a copy beside it, and gets no row until it is seen once more. */
  lemma SeenInVain(idOf: Identity -> SourceId, recordOf: Identity -> RecordId, g: Identity, db: Db) returns (next: Db)
    requires GoodDb(idOf, db) && forall a, b :: idOf(a) == idOf(b) ==> a == b
    requires "kept" in db.roots && db.roots["kept"] && OnlyRecorded(db, idOf(g), File(KEPT, 0, g))
    ensures StepsTo(idOf, db, ScanOf(recordOf, [idOf(g)], "kept", Both(g)), next)
    ensures SeenWithoutRow(Naming(idOf, recordOf), next, [idOf(g)], [RootScan("kept", Some(Both(g)))])
  {
    var f, scans, names := File(KEPT, 0, g), [RootScan("kept", Some(Both(g)))], Naming(idOf, recordOf);
    OneRootScanned("kept", Both(g));
    assert [idOf(g)][0] == idOf(g) && Both(g)[0] == f && Both(g)[1] == File(COPY, 0, g);
    next := Scanning(idOf, recordOf, db, [idOf(g)], "kept", Both(g));
    CopyIsSeen(names, db, [idOf(g)], scans, f, File(COPY, 0, g));
  }

  /**
   A run of scans and root changes from an empty database whose last scan leaves an inexact index, and which
   scanning the same files again changes.
   */
  lemma ARunCanStrandASource(idOf: Identity -> SourceId, recordOf: Identity -> RecordId, g: Identity)
    returns (states: seq<Db>, ops: seq<Op>)
    requires forall a, b :: idOf(a) == idOf(b) ==> a == b
    ensures IsRun(idOf, states, ops) && states[0] == EMPTY && ops != [] && ops[|ops| - 1].Scan?
    ensures SeenWithoutRow(Naming(idOf, recordOf), states[|ops|], [idOf(g)], ops[|ops| - 1].scans)
  {
    states, ops := FirstSeen(idOf, recordOf, g);
    var disabled, enabled, moved := SeenAgain(idOf, recordOf, g, states[|ops|]);
    var unseen, removed := LeftWithoutRow(idOf, recordOf, g, moved);
    var last := SeenInVain(idOf, recordOf, g, removed);
    states, ops := Longer(idOf, states, ops, Configure("gone", false), disabled);
    states, ops := Longer(idOf, states, ops, Configure("kept", true), enabled);
    states, ops := Longer(idOf, states, ops, ScanOf(recordOf, [idOf(g)], "kept", [File(KEPT, 0, g)]), moved);
    states, ops := Longer(idOf, states, ops, ScanOf(recordOf, [idOf(g)], "kept", []), unseen);
    states, ops := Longer(idOf, states, ops, Remove("gone"), removed);
    states, ops := Longer(idOf, states, ops, ScanOf(recordOf, [idOf(g)], "kept", Both(g)), last);
  }
}
