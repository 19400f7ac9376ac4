/** Deleting what nothing refers to any more: rowless sources and unreferenced library records. */
module RecordCleanup {
  import opened Wrappers
  import opened Reconciliation
  import opened ReconciliationStore

  /** Records retired into this one. */
  function Predecessors(aliases: map<RecordId, RecordId>, record: RecordId): set<RecordId> {
    set a | a in aliases && aliases[a] == record
  }

  function Additions(
    candidates: set<RecordId>, aliases: map<RecordId, RecordId>, removed: set<RecordId>): set<RecordId> {
    set r | r in candidates - removed && Predecessors(aliases, r) <= removed
  }

  /** All candidates whose predecessors are already in the set are in the set. */
  predicate Closed(candidates: set<RecordId>, aliases: map<RecordId, RecordId>, s: set<RecordId>) {
    forall r :: r in candidates && Predecessors(aliases, r) <= s ==> r in s
  }

  ghost predicate IsLeastClosed(candidates: set<RecordId>, aliases: map<RecordId, RecordId>, removed: set<RecordId>) {
    && removed <= candidates
    && Closed(candidates, aliases, removed)
    && forall s :: Closed(candidates, aliases, s) ==> removed <= s
  }

  /** The removable records, found by adding whole rounds until a round adds nothing. */
  method RemovableRecords(candidates: set<RecordId>, aliases: map<RecordId, RecordId>) returns (removed: set<RecordId>)
    ensures IsLeastClosed(candidates, aliases, removed)
  {
    removed := {};
    var additions := Additions(candidates, aliases, removed);
    while additions != {}
      invariant removed <= candidates
      invariant additions == Additions(candidates, aliases, removed)
      invariant forall s :: Closed(candidates, aliases, s) ==> removed <= s
      decreases |candidates - removed|
    {
      forall s | Closed(candidates, aliases, s) ensures additions <= s {
        forall r | r in additions ensures r in s {
          assert Predecessors(aliases, r) <= removed <= s;
        }
      }
      assert candidates - (removed + additions) < candidates - removed by {
        var r :| r in additions;
        assert r in candidates - removed;
      }
      SmallerSet(candidates - (removed + additions), candidates - removed);
      removed := removed + additions;
      additions := Additions(candidates, aliases, removed);
    }
    forall r | r in candidates && Predecessors(aliases, r) <= removed ensures r in removed {
      assert r !in Additions(candidates, aliases, removed);
    }
  }

  lemma SmallerSet<T>(a: set<T>, b: set<T>)
    requires a < b
    ensures |a| < |b|
  {
    assert b == a + (b - a);
    assert |b| == |a| + |b - a|;
  }

  /** Records that retire one another in a ring all stay. */
  lemma CyclesSurvive(
    candidates: set<RecordId>, aliases: map<RecordId, RecordId>, removed: set<RecordId>, ring: set<RecordId>)
    requires IsLeastClosed(candidates, aliases, removed)
    requires forall r :: r in ring ==> exists a :: a in ring && a in Predecessors(aliases, r)
    ensures removed !! ring
  {
    assert Closed(candidates, aliases, candidates - ring);
  }

  /** A removed record takes with it every record retired into it, so no survivor loses its alias row. */
  lemma SurvivorsKeepTheirAlias(
    candidates: set<RecordId>, aliases: map<RecordId, RecordId>, removed: set<RecordId>, record: RecordId)
    requires IsLeastClosed(candidates, aliases, removed) && record in aliases && record !in removed
    ensures aliases[record] !in removed
  {
    var smaller := removed - {aliases[record]};
    if aliases[record] in removed {
      forall r | r in candidates && Predecessors(aliases, r) <= smaller ensures r in smaller {
        assert Predecessors(aliases, r) <= removed;
        assert record in Predecessors(aliases, aliases[record]);
      }
      assert Closed(candidates, aliases, smaller);
    }
  }

  // ---------------------------------------------------------------- the cleanup step

  function Rowless(db: Db): set<SourceId> {
    set id | id in db.sources && forall l :: l in db.locations ==> db.locations[l].source != id
  }

  /** Records with no remaining source and no current publication. */
  function Candidates(db: Db): set<RecordId> {
    set r | r in db.records
            && (forall id :: id in db.sources && id !in Rowless(db) ==> db.sources[id].record != Some(r))
            && (forall p :: p in db.publications && db.publications[p].current ==> db.publications[p].record != r)
  }

  function WithoutRecords(jobs: seq<Job>, ids: set<RecordId>): seq<Job> {
    if jobs == [] then []
    else
      var job := jobs[|jobs| - 1];
      WithoutRecords(jobs[..|jobs| - 1], ids) + if job.record.Some? && job.record.value in ids then [] else [job]
  }

  function DeleteRecords(db: Db, ids: set<RecordId>): Db {
    db.(
      jobs := WithoutRecords(db.jobs, ids),
      activeRefresh := db.activeRefresh - ids,
      publications := map p | p in db.publications && db.publications[p].record !in ids :: db.publications[p],
      aliases := map a | a in db.aliases && a !in ids && db.aliases[a] !in ids :: db.aliases[a],
      records := db.records - ids)
  }

  /** Only records with no source that has a row, and no current publication, can be removed. */
  ghost predicate IsUnused(db: Db, record: RecordId) {
    && record in db.records
    && (forall id, l :: id in db.sources && l in db.locations && db.locations[l].source == id ==>
          db.sources[id].record != Some(record))
    && (forall p :: p in db.publications && db.publications[p].current ==> db.publications[p].record != record)
  }

  lemma CandidatesAreUnused(db: Db, record: RecordId)
    ensures record in Candidates(db) <==> IsUnused(db, record)
  {
  }

  lemma {:induction false} JobsWithoutRecords(jobs: seq<Job>, ids: set<RecordId>, j: Job)
    ensures j in WithoutRecords(jobs, ids) <==> j in jobs && (j.record.Some? ==> j.record.value !in ids)
    decreases |jobs|
  {
    if jobs != [] {
      var before, last := jobs[..|jobs| - 1], jobs[|jobs| - 1];
      JobsWithoutRecords(before, ids, j);
      assert jobs == before + [last];
      assert j in jobs <==> j in before || j == last;
    }
  }

  /** A record is removed exactly when it is unused and every record retired into it is removed; a ring stays. */
  lemma RemovedRecordsAre(db: Db, removed: set<RecordId>, record: RecordId)
    requires IsLeastClosed(Candidates(db), db.aliases, removed)
    ensures record in removed <==>
            IsUnused(db, record) && forall a :: a in db.aliases && db.aliases[a] == record ==> a in removed
  {
    CandidatesAreUnused(db, record);
    forall a | a in db.aliases && a !in removed ensures db.aliases[a] !in removed {
      SurvivorsKeepTheirAlias(Candidates(db), db.aliases, removed, a);
    }
    assert Predecessors(db.aliases, record) <= removed <==>
           forall a :: a in db.aliases && db.aliases[a] == record ==> a in removed;
  }

  /** The tables after a cleanup that removes `records`, the least closed set of its candidates. */
  function CleanedUp(db: Db, records: set<RecordId>): Db {
    DeleteRecords(DeleteSources(db, Rowless(db)), records)
  }

  ghost predicate IsRowless(db: Db, id: SourceId) {
    id in db.sources && forall l :: l in db.locations ==> db.locations[l].source != id
  }

  /** What a cleanup leaves: everything that refers neither to a rowless source nor to a removed record. */
  lemma CleanupIs(db: Db, removed: set<RecordId>)
    ensures var after := CleanedUp(db, removed);
            && (forall id :: id in after.sources <==> id in db.sources && !IsRowless(db, id))
            && (forall id :: id in after.sources ==>
                  after.sources[id] == db.sources[id].(replacedBy :=
                    if db.sources[id].replacedBy.Some? && IsRowless(db, db.sources[id].replacedBy.value) then None
                    else db.sources[id].replacedBy))
            && after.locations
               == (map l | l in db.locations && db.locations[l].source !in Rowless(db) :: db.locations[l])
            && after.records == db.records - removed && after.activeRefresh == db.activeRefresh - removed
            && (forall a :: a in after.aliases <==>
                  a in db.aliases && a !in removed && db.aliases[a] !in removed)
            && (forall a :: a in after.aliases ==> after.aliases[a] == db.aliases[a])
            && after.roots == db.roots && after.nextLocation == db.nextLocation
  {
  }

  lemma CleanupPublications(db: Db, removed: set<RecordId>, p: string)
    ensures var after, rows := CleanedUp(db, removed).publications, db.publications;
            && (p in after <==>
                && p in rows && rows[p].record !in removed
                && (rows[p].current || rows[p].source.None? || !IsRowless(db, rows[p].source.value)))
            && (p in after ==>
                  after[p] == if rows[p].source.Some? && IsRowless(db, rows[p].source.value)
                              then rows[p].(source := None) else rows[p])
  {
  }

  lemma CleanupJobs(db: Db, removed: set<RecordId>, j: Job)
    ensures j in CleanedUp(db, removed).jobs <==>
              && j in db.jobs && (j.source.Some? ==> !IsRowless(db, j.source.value))
              && (j.record.Some? ==> j.record.value !in removed)
  {
    JobsWithoutRecords(WithoutSources(db.jobs, Rowless(db)), removed, j);
    JobsWithoutSources(db.jobs, Rowless(db), j);
  }

  lemma {:induction false} JobsWithoutSources(jobs: seq<Job>, ids: set<SourceId>, j: Job)
    ensures j in WithoutSources(jobs, ids) <==> j in jobs && (j.source.Some? ==> j.source.value !in ids)
    decreases |jobs|
  {
    if jobs != [] {
      var before, last := jobs[..|jobs| - 1], jobs[|jobs| - 1];
      JobsWithoutSources(before, ids, j);
      assert jobs == before + [last];
      assert j in jobs <==> j in before || j == last;
    }
  }
}
