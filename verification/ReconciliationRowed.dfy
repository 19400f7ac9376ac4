/** Runs in which every source keeps a location row, so that every scan leaves an exact index. */
module ReconciliationRowed {
  import opened Wrappers
  import opened Reconciliation
  import opened ReconciliationStore
  import opened ReconciliationProperties
  import opened ReconciliationIndex
  import opened ReconciliationStability
  import opened ReconciliationNoOp
  import opened RecordCleanup
  import opened ReconciliationRuns

  ghost predicate AllRowed(db: Db) {
    forall id :: id in db.sources ==> exists key :: Recorded(db, id, key)
  }

  /** With a row for every source the planner never takes a source's own columns for one. */
  lemma RowedHasNoHit(names: Naming, db: Db, order: seq<SourceId>, f: File)
    requires ValidSnapshot(SnapshotOf(db, order)) && AllRowed(db)
    ensures !StandInHit(names, SnapshotOf(db, order), f)
  {
    var entry := Lookup(SnapshotOf(db, order), f.key);
    if entry.Some? {
      RowsAreRecorded(db, order, entry.value.source);
    }
  }

  /** A source after a scan has a row, or owns a scanned identity. */
  lemma RowOrOwner(names: Naming, db: Db, order: seq<SourceId>, scans: seq<RootScan>, id: SourceId)
    requires Ready(names, db, order, scans) && ValidSnapshot(SnapshotOf(db, order))
    requires id in Apply(db, PlanOf(names, db, order, scans)).sources
    ensures (exists key :: Recorded(Apply(db, PlanOf(names, db, order, scans)), id, key))
            || exists f :: f in ScannedFiles(scans) && id == Owner(names, SnapshotOf(db, order), f.identity)
  {
    if forall key :: !Recorded(Apply(db, PlanOf(names, db, order, scans)), id, key) {
      var g := RowlessSource(names, db, order, scans, id);
      IdentitiesMembers(ScannedFiles(scans));
    }
  }

  lemma ScanKeepsRows(names: Naming, db: Db, order: seq<SourceId>, scans: seq<RootScan>)
    requires Ready(names, db, order, scans) && ValidSnapshot(SnapshotOf(db, order)) && AllRowed(db)
    ensures AllRowed(Apply(db, PlanOf(names, db, order, scans)))
  {
    var after := Apply(db, PlanOf(names, db, order, scans));
    forall id | id in after.sources ensures exists key :: Recorded(after, id, key) {
      RowOrOwner(names, db, order, scans, id);
      if f :| f in ScannedFiles(scans) && id == Owner(names, SnapshotOf(db, order), f.identity) {
        RowedHasNoHit(names, db, order, f);
        ScannedFileRow(names, db, order, scans, f);
      }
    }
  }

  /** A scan of a database whose sources all have rows is exact, and the same scan again plans nothing. */
  lemma RowedScanIsExact(
    names: Naming, db: Db, order: seq<SourceId>, scans: seq<RootScan>, again: Naming, order': seq<SourceId>)
    requires Ready(names, db, order, scans) && ValidSnapshot(SnapshotOf(db, order)) && AllRowed(db)
    requires again.idOf == names.idOf && Enumerates(order', Apply(db, PlanOf(names, db, order, scans)).sources.Keys)
    ensures var after := Apply(db, PlanOf(names, db, order, scans));
            && ExactIndex(after, scans) && ValidSnapshot(SnapshotOf(after, order'))
            && IsNoOp(PlanOf(again, after, order', scans), |ScannedFiles(scans)|)
  {
    forall f | f in ScannedFiles(scans) ensures !StandInHit(names, SnapshotOf(db, order), f) {
      RowedHasNoHit(names, db, order, f);
    }
    IndexIsExact(names, db, order, scans);
    SecondScanReady(names, db, order, scans, again, order');
    SecondScanIsNoOp(names, db, order, scans, again, order');
  }

  /** A cleanup leaves only sources with rows, whatever it found. */
  lemma CleanupRestoresRows(idOf: Identity -> SourceId, db: Db, records: set<RecordId>)
    requires GoodDb(idOf, db) && IsLeastClosed(Candidates(db), db.aliases, records)
    ensures AllRowed(CleanedUp(db, records))
  {
    var after := CleanedUp(db, records);
    CleanupKeepsDb(idOf, db, records);
    forall id | id in after.sources ensures exists key :: Recorded(after, id, key) {
      assert id !in Rowless(db);
      var l :| l in db.locations && db.locations[l].source == id;
      assert Recorded(after, id, after.locations[l].key);
    }
  }

  lemma StepKeepsRows(idOf: Identity -> SourceId, db: Db, op: Op)
    requires GoodDb(idOf, db) && Allowed(db, op) && !op.Remove?
    requires forall a, b :: idOf(a) == idOf(b) ==> a == b
    requires op.Scan? ==> ValidSnapshot(SnapshotOf(db, op.order))
    requires AllRowed(db) || op.Clean?
    ensures AllRowed(After(idOf, db, op))
  {
    match op
    case Scan(recordOf, order, scans) => ScanKeepsRows(Naming(idOf, recordOf), db, order, scans);
    case Clean(records) => CleanupRestoresRows(idOf, db, records);
    case Configure(root, enabled) =>
      forall id | id in db.sources ensures exists key :: Recorded(After(idOf, db, op), id, key) {
        var key :| Recorded(db, id, key);
        assert Recorded(After(idOf, db, op), id, key);
      }
  }

  lemma RunStepKeepsRows(idOf: Identity -> SourceId, states: seq<Db>, ops: seq<Op>, i: nat)
    requires IsRun(idOf, states, ops) && i < |ops| && GoodDb(idOf, states[0]) && !ops[i].Remove?
    requires forall a, b :: idOf(a) == idOf(b) ==> a == b
    requires AllRowed(states[i]) || ops[i].Clean?
    ensures AllRowed(states[i + 1])
  {
    RunKeepsDb(idOf, states, ops, i);
    assert StepsTo(idOf, states[i], ops[i], states[i + 1]);
    StepKeepsRows(idOf, states[i], ops[i]);
  }

  ghost predicate NoRemoval(ops: seq<Op>, from: nat, n: nat)
    requires n <= |ops|
  {
    forall i :: from <= i < n ==> !ops[i].Remove?
  }

  /** Until a root is removed, sources that all have rows keep having them. */
  lemma {:induction false} RunKeepsRows(idOf: Identity -> SourceId, states: seq<Db>, ops: seq<Op>, from: nat, n: nat)
    requires IsRun(idOf, states, ops) && from <= n <= |ops| && GoodDb(idOf, states[0])
    requires forall a, b :: idOf(a) == idOf(b) ==> a == b
    requires NoRemoval(ops, from, n) && AllRowed(states[from])
    ensures AllRowed(states[n])
    decreases n
  {
    if from < n {
      RunKeepsRows(idOf, states, ops, from, n - 1);
      RunStepKeepsRows(idOf, states, ops, n - 1);
    }
  }

  /** From a state in which every source has a row, or from a cleanup, no root was removed. */
  ghost predicate Undisturbed(states: seq<Db>, ops: seq<Op>, from: nat, n: nat)
    requires from <= n <= |ops| && |states| == |ops| + 1
  {
    NoRemoval(ops, from, n) && (AllRowed(states[from]) || (from < n && ops[from].Clean?))
  }

  lemma UndisturbedKeepsRows(idOf: Identity -> SourceId, states: seq<Db>, ops: seq<Op>, from: nat, n: nat)
    requires IsRun(idOf, states, ops) && from <= n <= |ops| && GoodDb(idOf, states[0])
    requires forall a, b :: idOf(a) == idOf(b) ==> a == b
    requires Undisturbed(states, ops, from, n)
    ensures AllRowed(states[n])
  {
    if AllRowed(states[from]) {
      RunKeepsRows(idOf, states, ops, from, n);
    } else {
      RunStepKeepsRows(idOf, states, ops, from);
      RunKeepsRows(idOf, states, ops, from + 1, n);
    }
  }

  /**
   In every run, as long as no root was removed since every source had a row or since a cleanup, each scan
   leaves an exact index, and scanning the same files again does nothing.
   */
  lemma UndisturbedScansAreExact(
    idOf: Identity -> SourceId, states: seq<Db>, ops: seq<Op>, from: nat, n: nat, recordOf: Identity -> RecordId,
    order: seq<SourceId>)
    requires IsRun(idOf, states, ops) && from <= n < |ops| && ops[n].Scan? && GoodDb(idOf, states[0])
    requires forall a, b :: idOf(a) == idOf(b) ==> a == b
    requires Undisturbed(states, ops, from, n) && Enumerates(order, states[n + 1].sources.Keys)
    ensures ExactIndex(states[n + 1], ops[n].scans) && ValidSnapshot(SnapshotOf(states[n + 1], order))
    ensures IsNoOp(PlanOf(Naming(idOf, recordOf), states[n + 1], order, ops[n].scans), |ScannedFiles(ops[n].scans)|)
  {
    UndisturbedKeepsRows(idOf, states, ops, from, n);
    RunKeepsDb(idOf, states, ops, n);
    assert StepsTo(idOf, states[n], ops[n], states[n + 1]);
    RowedScanIsExact(
      Naming(idOf, ops[n].recordOf), states[n], ops[n].order, ops[n].scans, Naming(idOf, recordOf), order);
  }
}
