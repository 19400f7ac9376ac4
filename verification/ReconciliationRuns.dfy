/** What every run of scans, root changes and cleanups keeps. */
module ReconciliationRuns {
  import opened Wrappers
  import opened Reconciliation
  import opened ReconciliationStore
  import opened ReconciliationProperties
  import opened ReconciliationIntegrity
  import opened RecordCleanup

  datatype Op =
    | Scan(recordOf: Identity -> RecordId, order: seq<SourceId>, scans: seq<RootScan>)
    | Remove(root: RootId)
    | Configure(root: RootId, enabled: bool)
    | Clean(records: set<RecordId>)

  ghost predicate Allowed(db: Db, op: Op) {
    match op
    case Scan(_, order, scans) => Enumerates(order, db.sources.Keys) && ValidScans(db, scans)
    case Remove(_) => true
    case Configure(root, _) => root != HISTORICAL
    case Clean(records) => IsLeastClosed(Candidates(db), db.aliases, records)
  }

  ghost predicate GoodDb(idOf: Identity -> SourceId, db: Db) {
    ValidDb(db) && HashedIds(Naming(idOf, g => ""), db)
  }

  function After(idOf: Identity -> SourceId, db: Db, op: Op): Db
    requires op.Scan? ==> ValidSnapshot(SnapshotOf(db, op.order))
  {
    match op
    case Scan(recordOf, order, scans) => Apply(db, PlanOf(Naming(idOf, recordOf), db, order, scans))
    case Remove(root) => RemoveRoot(db, root)
    case Configure(root, enabled) => db.(roots := db.roots[root := enabled])
    case Clean(records) => CleanedUp(db, records)
  }

  ghost predicate StepsTo(idOf: Identity -> SourceId, db: Db, op: Op, next: Db) {
    && Allowed(db, op) && (op.Scan? ==> ValidSnapshot(SnapshotOf(db, op.order)))
    && next == After(idOf, db, op)
  }

  ghost predicate IsRun(idOf: Identity -> SourceId, states: seq<Db>, ops: seq<Op>) {
    |states| == |ops| + 1 && forall i :: 0 <= i < |ops| ==> StepsTo(idOf, states[i], ops[i], states[i + 1])
  }

  // ---------------------------------------------------------------- root removal

  lemma {:induction false} FirstRowFacts(locations: map<nat, Location>, source: SourceId, limit: nat)
    ensures var r := FirstRow(locations, source, limit);
            && (r.Some? ==> exists l ::
                  l in locations && l < limit && locations[l] == r.value && r.value.source == source
                  && forall k :: k in locations && locations[k].source == source ==> l <= k)
            && (r.None? ==> forall l :: l in locations && locations[l].source == source ==> l >= limit)
  {
    if limit > 0 {
      FirstRowFacts(locations, source, limit - 1);
    }
  }

  lemma RemovalKeepsSource(db: Db, root: RootId, id: SourceId)
    requires ValidDb(db) && root in db.roots && root != HISTORICAL && id in db.sources
    ensures var after := RemoveRoot(db, root);
            id in after.sources
            && after.sources[id] == db.sources[id].(key := after.sources[id].key)
            && after.sources[id].key.root in after.roots
  {
    FirstRowFacts(RowsOutside(db.locations, root), id, db.nextLocation);
  }

  /** The row of the source with the least number among those not under the root. */
  ghost predicate IsFirstOther(db: Db, root: RootId, id: SourceId, l: nat) {
    && l in db.locations && db.locations[l].source == id && db.locations[l].key.root != root
    && forall k :: k in db.locations && db.locations[k].source == id && db.locations[k].key.root != root ==> l <= k
  }

  /** The source is recorded under the root, by its own columns or by a row. */
  ghost predicate IsUnder(db: Db, root: RootId, id: SourceId)
    requires id in db.sources
  {
    || db.sources[id].key.root == root
    || exists l :: l in db.locations && db.locations[l].source == id && db.locations[l].key.root == root
  }

  /**
   What removing a root does: its rows go and no other, and a source under it takes the path of its first other row,
   or without one the historical root in place of the removed one.
   */
  lemma RemovalIs(db: Db, root: RootId)
    requires ValidDb(db) && root in db.roots && root != HISTORICAL
    ensures var after := RemoveRoot(db, root);
            && after.roots.Keys == db.roots.Keys + {HISTORICAL} - {root}
            && (forall r :: r in db.roots && r != root ==> after.roots[r] == db.roots[r])
            && (HISTORICAL !in db.roots ==> !after.roots[HISTORICAL])
            && (forall l :: l in after.locations <==> l in db.locations && db.locations[l].key.root != root)
            && (forall l :: l in after.locations ==> after.locations[l] == db.locations[l])
            && after == db.(roots := after.roots, locations := after.locations, sources := after.sources)
  {
  }

  lemma RemovedSourceIs(db: Db, root: RootId, id: SourceId)
    requires ValidDb(db) && root in db.roots && root != HISTORICAL && id in db.sources
    ensures var after, was := RemoveRoot(db, root), db.sources[id];
            && id in after.sources
            && (!IsUnder(db, root, id) ==> after.sources[id] == was)
            && (IsUnder(db, root, id) ==>
                  && (forall l :: IsFirstOther(db, root, id, l) ==>
                        after.sources[id] == was.(key := db.locations[l].key))
                  && ((forall l :: !IsFirstOther(db, root, id, l)) ==>
                        after.sources[id] == if was.key.root == root
                                             then was.(key := Key("historical-unmanaged", was.key.path)) else was))
  {
    FirstOther(db, root, id);
    TouchedAreUnder(db, root, id);
    if l :| IsFirstOther(db, root, id, l) {
      forall k | IsFirstOther(db, root, id, k) ensures k == l {
      }
    }
  }

  lemma TouchedAreUnder(db: Db, root: RootId, id: SourceId)
    requires id in db.sources
    ensures id in TouchedBy(db.sources, db.locations, root) <==> IsUnder(db, root, id)
  {
  }

  lemma FirstOther(db: Db, root: RootId, id: SourceId)
    requires LocationsValid(db)
    ensures var first := FirstRow(RowsOutside(db.locations, root), id, db.nextLocation);
            && (first.Some? ==> exists l :: IsFirstOther(db, root, id, l) && db.locations[l] == first.value)
            && (first.None? ==> forall l :: !IsFirstOther(db, root, id, l))
  {
    var kept := RowsOutside(db.locations, root);
    var first := FirstRow(kept, id, db.nextLocation);
    FirstRowFacts(kept, id, db.nextLocation);
    assert forall l :: l in kept <==> l in db.locations && db.locations[l].key.root != root;
    if first.Some? {
      var l :| l in kept && l < db.nextLocation && kept[l] == first.value && first.value.source == id
               && forall k :: k in kept && kept[k].source == id ==> l <= k;
      assert IsFirstOther(db, root, id, l);
    }
  }

  /** Removing a root leaves no row or source under it; a source keeps its first other row as its path. */
  lemma RemovalKeepsDb(idOf: Identity -> SourceId, db: Db, root: RootId)
    requires GoodDb(idOf, db)
    ensures GoodDb(idOf, RemoveRoot(db, root))
    ensures root != HISTORICAL ==> root !in RemoveRoot(db, root).roots
  {
    if root in db.roots && root != HISTORICAL {
      var after := RemoveRoot(db, root);
      forall id | id in db.sources { RemovalKeepsSource(db, root, id); }
      assert after.sources.Keys == db.sources.Keys;
      assert SourcesValid(after);
      assert LocationsValid(after);
      assert ReferencesValid(after);
    }
  }

  // ---------------------------------------------------------------- cleanup

  lemma {:induction false} RecordJobs(jobs: seq<Job>, ids: set<RecordId>)
    ensures forall j :: j in WithoutRecords(jobs, ids) ==> j in jobs && (j.record.Some? ==> j.record.value !in ids)
    decreases |jobs|
  {
    if jobs != [] {
      RecordJobs(jobs[..|jobs| - 1], ids);
      assert jobs == jobs[..|jobs| - 1] + [jobs[|jobs| - 1]];
    }
  }

  lemma KeptRecords(db: Db, records: set<RecordId>, id: SourceId)
    requires ValidDb(db) && records <= Candidates(db) && id in CleanedUp(db, records).sources
    ensures id in db.sources && id !in Rowless(db)
    ensures var row := CleanedUp(db, records).sources[id];
            && row == db.sources[id].(replacedBy := row.replacedBy)
            && (row.record.Some? ==> row.record.value in CleanedUp(db, records).records)
            && (row.replacedBy.Some? ==>
               row.replacedBy == db.sources[id].replacedBy
               && row.replacedBy.value !in Rowless(db))
  {
  }

  lemma CleanupKeepsSources(db: Db, records: set<RecordId>)
    requires ValidDb(db) && records <= Candidates(db)
    ensures SourcesValid(CleanedUp(db, records)) && LocationsValid(CleanedUp(db, records))
    ensures CleanedUp(db, records).locations == db.locations
  {
    forall id | id in CleanedUp(db, records).sources { KeptRecords(db, records, id); }
    forall l | l in db.locations ensures db.locations[l].source !in Rowless(db) { }
  }

  lemma CleanupKeepsReferences(db: Db, records: set<RecordId>)
    requires ValidDb(db) && IsLeastClosed(Candidates(db), db.aliases, records)
    ensures ReferencesValid(CleanedUp(db, records))
    ensures forall a :: a in db.aliases && a !in records ==>
              a in CleanedUp(db, records).aliases && CleanedUp(db, records).aliases[a] == db.aliases[a]
  {
    var rowless := Rowless(db);
    JobSources(db.jobs, [], rowless, []);
    RecordJobs(WithoutSources(db.jobs, rowless), records);
    forall a | a in db.aliases && a !in records ensures db.aliases[a] !in records {
      SurvivorsKeepTheirAlias(Candidates(db), db.aliases, records, a);
    }
  }

  /** A cleanup removes only rows nothing refers to, and no surviving record loses its alias row. */
  lemma CleanupKeepsDb(idOf: Identity -> SourceId, db: Db, records: set<RecordId>)
    requires GoodDb(idOf, db) && IsLeastClosed(Candidates(db), db.aliases, records)
    ensures GoodDb(idOf, CleanedUp(db, records))
    ensures CleanedUp(db, records).locations == db.locations
    ensures forall a :: a in db.aliases && a !in records ==>
              a in CleanedUp(db, records).aliases && CleanedUp(db, records).aliases[a] == db.aliases[a]
  {
    CleanupKeepsSources(db, records);
    CleanupKeepsReferences(db, records);
  }

  // ---------------------------------------------------------------- runs

  /** Every current publication row stays, with its record. */
  ghost predicate CurrentRowsStay(db: Db, after: Db) {
    forall p :: p in db.publications && db.publications[p].current ==>
      && p in after.publications && after.publications[p].current
      && after.publications[p].record == db.publications[p].record
  }

  lemma ScanStep(idOf: Identity -> SourceId, db: Db, op: Op)
    requires GoodDb(idOf, db) && Allowed(db, op) && op.Scan? && ValidSnapshot(SnapshotOf(db, op.order))
    requires forall a, b :: idOf(a) == idOf(b) ==> a == b
    ensures GoodDb(idOf, After(idOf, db, op)) && CurrentRowsStay(db, After(idOf, db, op))
  {
    ScanKeepsDb(Naming(idOf, op.recordOf), db, op.order, op.scans);
    DetachedPublications(Naming(idOf, op.recordOf), db, op.order, op.scans);
  }

  lemma CleanupKeepsPublications(db: Db, records: set<RecordId>)
    requires ValidDb(db) && records <= Candidates(db)
    ensures CurrentRowsStay(db, CleanedUp(db, records))
  {
  }

  lemma StepKeepsDb(idOf: Identity -> SourceId, db: Db, op: Op)
    requires GoodDb(idOf, db) && Allowed(db, op)
    requires forall a, b :: idOf(a) == idOf(b) ==> a == b
    requires op.Scan? ==> ValidSnapshot(SnapshotOf(db, op.order))
    ensures GoodDb(idOf, After(idOf, db, op)) && CurrentRowsStay(db, After(idOf, db, op))
  {
    match op
    case Scan(_, _, _) => ScanStep(idOf, db, op);
    case Remove(root) => RemovalKeepsDb(idOf, db, root);
    case Configure(_, _) =>
    case Clean(records) =>
      CleanupKeepsDb(idOf, db, records);
      CleanupKeepsPublications(db, records);
  }

  /** In every run each reference resolves, and no current publication row is ever deleted. */
  lemma {:induction false} RunKeepsDb(idOf: Identity -> SourceId, states: seq<Db>, ops: seq<Op>, n: nat)
    requires IsRun(idOf, states, ops) && n <= |ops| && GoodDb(idOf, states[0])
    requires forall a, b :: idOf(a) == idOf(b) ==> a == b
    ensures GoodDb(idOf, states[n])
    ensures CurrentRowsStay(states[0], states[n])
  {
    if n > 0 {
      RunKeepsDb(idOf, states, ops, n - 1);
      assert StepsTo(idOf, states[n - 1], ops[n - 1], states[n - 1 + 1]);
      StepKeepsDb(idOf, states[n - 1], ops[n - 1]);
    }
  }
}
