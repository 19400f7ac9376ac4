/** The tables as one mutable store: applying a plan batch by batch, and removing a root. */
module ReconciliationDatabase {
  import opened Wrappers
  import opened Reconciliation
  import opened ReconciliationStore
  import opened ReconciliationPlanner
  import opened ReconciliationProperties
  import opened ReconciliationIndex
  import opened ReconciliationIntegrity
  import opened RecordCleanup

  predicate KeyedById(sources: map<SourceId, Source>) {
    forall id :: id in sources ==> sources[id].id == id
  }

  function WithSuccessor(replacements: seq<Replacement>, id: SourceId, row: Source): Source {
    var successor := SuccessorOf(replacements, id);
    if successor.Some? then row.(replacedBy := successor) else row
  }

  lemma {:induction false} SuccessorFacts(replacements: seq<Replacement>, id: SourceId)
    ensures SuccessorOf(replacements, id).Some? <==> IsReplaced(replacements, id)
    decreases |replacements|
  {
    if replacements != [] {
      SuccessorFacts(replacements[..|replacements| - 1], id);
      assert replacements == replacements[..|replacements| - 1] + [replacements[|replacements| - 1]];
    }
  }

  class Database {
    var roots: map<RootId, bool>
    var sources: map<SourceId, Source>
    var locations: map<nat, Location>
    var nextLocation: nat
    var jobs: seq<Job>
    var activeRefresh: set<RecordId>
    var records: set<RecordId>
    var publications: map<string, Publication>
    var aliases: map<RecordId, RecordId>

    constructor (db: Db)
      ensures State() == db
    {
      roots, sources, locations, nextLocation := db.roots, db.sources, db.locations, db.nextLocation;
      jobs, activeRefresh, records := db.jobs, db.activeRefresh, db.records;
      publications, aliases := db.publications, db.aliases;
    }

    function State(): Db
      reads this
    {
      Db(roots, sources, locations, nextLocation, jobs, activeRefresh, records, publications, aliases)
    }

    method InsertSources(added: seq<Source>)
      modifies this`sources
      ensures sources == AddSources(old(sources), added)
    {
      for i := 0 to |added|
        invariant sources == AddSources(old(sources), added[..i])
      {
        assert added[..i + 1][..i] == added[..i];
        sources := sources[added[i].id := added[i]];
      }
      assert added[..|added|] == added;
    }

    /** The batch of path updates; a source inserted by the same plan is not touched. */
    method UpdateSources(plan: Plan)
      requires KeyedById(sources)
      modifies this`sources
      ensures sources == map id | id in old(sources) :: Relocated(plan, old(sources)[id])
    {
      for i := 0 to |plan.updates|
        invariant sources.Keys == old(sources).Keys
        invariant forall id :: id in sources ==>
                    sources[id] == Relocated(plan.(updates := plan.updates[..i]), old(sources)[id])
      {
        var u := plan.updates[i];
        assert plan.updates[..i + 1][..i] == plan.updates[..i];
        if !IsNew(plan.newSources, u.source) && u.source in sources {
          sources := sources[u.source := sources[u.source].(key := u.key, device := u.device)];
        }
      }
      assert plan.updates[..|plan.updates|] == plan.updates;
    }

    method InsertRows(inserted: seq<NewLocation>)
      modifies this`locations, this`nextLocation
      ensures locations == InsertLocations(old(locations), old(nextLocation), inserted)
      ensures nextLocation == old(nextLocation) + |inserted|
    {
      for i := 0 to |inserted|
        invariant locations == InsertLocations(old(locations), old(nextLocation), inserted[..i])
        invariant nextLocation == old(nextLocation) + i
      {
        assert inserted[..i + 1][..i] == inserted[..i];
        locations := locations[nextLocation := Location(inserted[i].source, inserted[i].key)];
        nextLocation := nextLocation + 1;
      }
      assert inserted[..|inserted|] == inserted;
    }

    method MarkReturned(plan: Plan)
      modifies this`sources
      ensures sources == map id | id in old(sources) :: Returned(plan, old(sources)[id])
    {
      sources := map id | id in sources ::
        if IsReappeared(plan.reappeared, sources[id].id) then sources[id].(intake := NeedsReview) else sources[id];
    }

    method MarkRetired(replacements: seq<Replacement>)
      modifies this`sources
      ensures sources == map id | id in old(sources) ::
                if IsReplaced(replacements, id) then old(sources)[id].(intake := Replaced) else old(sources)[id]
    {
      sources := map id | id in sources ::
        if IsReplaced(replacements, id) then sources[id].(intake := Replaced) else sources[id];
    }

    method PointSuccessors(replacements: seq<Replacement>)
      modifies this`sources
      ensures sources == map id | id in old(sources) :: WithSuccessor(replacements, id, old(sources)[id])
    {
      for i := 0 to |replacements|
        invariant sources.Keys == old(sources).Keys
        invariant forall id :: id in sources ==> sources[id] == WithSuccessor(replacements[..i], id, old(sources)[id])
      {
        var r := replacements[i];
        assert replacements[..i + 1][..i] == replacements[..i];
        if r.retired in sources {
          sources := sources[r.retired := sources[r.retired].(replacedBy := Some(r.successor))];
        }
      }
      assert replacements[..|replacements|] == replacements;
    }

    /** Mark the retired sources, then point each at its successor. */
    method MarkReplaced(plan: Plan)
      requires KeyedById(sources)
      modifies this`sources
      ensures sources == map id | id in old(sources) :: Retired(plan, old(sources)[id])
    {
      MarkRetired(plan.replacements);
      PointSuccessors(plan.replacements);
      forall id | id in sources ensures sources[id] == Retired(plan, old(sources)[id]) {
        SuccessorFacts(plan.replacements, id);
      }
    }

    method SupersedeReplaced(replacements: seq<Replacement>)
      modifies this`jobs
      ensures jobs == SupersedeJobs(old(jobs), replacements)
    {
      var rewritten: seq<Job> := [];
      for i := 0 to |jobs|
        invariant rewritten == SupersedeJobs(jobs[..i], replacements)
      {
        var job := jobs[i];
        assert jobs[..i + 1][..i] == jobs[..i];
        var hit := job.source.Some? && IsReplaced(replacements, job.source.value)
          && (job.state.Queued? || job.state.Running?);
        rewritten := rewritten + [if hit then job.(state := Superseded) else job];
      }
      assert jobs[..|jobs|] == jobs;
      jobs := rewritten;
    }

    method DeleteSourceRecords(ids: set<SourceId>)
      modifies this
      ensures State() == DeleteSources(old(State()), ids)
    {
      publications := DetachPublications(publications, ids);
      var kept: seq<Job> := [];
      for i := 0 to |jobs|
        invariant kept == WithoutSources(jobs[..i], ids) && State() == old(State()).(publications := publications)
      {
        assert jobs[..i + 1][..i] == jobs[..i];
        if jobs[i].source.None? || jobs[i].source.value !in ids {
          kept := kept + [jobs[i]];
        }
      }
      assert jobs[..|jobs|] == jobs;
      jobs := kept;
      locations := map l | l in locations && locations[l].source !in ids :: locations[l];
      sources := ForgetSuccessors(sources, ids);
    }

    method RestartAndInsertJobs(plan: Plan)
      modifies this`jobs
      ensures jobs == ReactivateJobs(old(jobs), plan.jobReactivations) + ScanJobs(plan.jobInserts)
    {
      var rewritten: seq<Job> := [];
      for i := 0 to |jobs|
        invariant rewritten == ReactivateJobs(jobs[..i], plan.jobReactivations)
      {
        var job := jobs[i];
        assert jobs[..i + 1][..i] == jobs[..i];
        var hit := job.source.Some? && job.source.value in plan.jobReactivations && Stopped(job.state);
        rewritten := rewritten + [if hit then job.(state := Queued) else job];
      }
      assert jobs[..|jobs|] == jobs;
      var inserted: seq<Job> := [];
      for i := 0 to |plan.jobInserts|
        invariant inserted == ScanJobs(plan.jobInserts[..i])
      {
        var id := plan.jobInserts[i];
        assert plan.jobInserts[..i + 1][..i] == plan.jobInserts[..i];
        inserted := inserted + [Job("filesystem-" + id, Some(id), None, FILESYSTEM_SCAN, Queued)];
      }
      assert plan.jobInserts[..|plan.jobInserts|] == plan.jobInserts;
      jobs := rewritten + inserted;
    }

    method TouchSources(plan: Plan)
      requires KeyedById(AddSources(sources, plan.newSources))
      modifies this`sources
      ensures sources == TouchedSources(plan, old(sources))
    {
      InsertSources(plan.newSources);
      UpdateSources(plan);
      MarkReturned(plan);
      MarkReplaced(plan);
    }

    /** Every batch of a plan, in order; location rows are deleted before new ones are inserted. */
    method ApplyPlan(plan: Plan) returns (result: ScanResult)
      requires KeyedById(AddSources(sources, plan.newSources))
      modifies this
      ensures State() == Apply(old(State()), plan) && result == plan.result
    {
      records := records + NewRecords(plan.newSources);
      locations := locations - plan.deletedLocations;
      TouchSources(plan);
      InsertRows(plan.newLocations);
      SupersedeReplaced(plan.replacements);
      assert State() == BeforeDeletion(old(State()), plan);
      DeleteSourceRecords(set id | id in plan.deletedSources);
      RestartAndInsertJobs(plan);
      activeRefresh := activeRefresh + plan.refresh;
      result := plan.result;
    }

    /** One scan, from observation to applied plan. */
    method Reconcile(names: Naming, order: seq<SourceId>, scans: seq<RootScan>) returns (result: ScanResult)
      requires Ready(names, State(), order, scans) && ValidSnapshot(SnapshotOf(State(), order))
      modifies this
      ensures State() == Apply(old(State()), PlanOf(names, old(State()), order, scans))
      ensures result == PlanOf(names, old(State()), order, scans).result
      ensures ValidDb(State()) && HashedIds(names, State())
    {
      ScanKeepsDb(names, State(), order, scans);
      var plan := PlanReconciliation(names, SnapshotOf(State(), order), scans);
      AddSourcesFacts(sources, plan.newSources);
      result := ApplyPlan(plan);
    }

    /** The first row a source keeps, in row order. */
    method Surviving(source: SourceId) returns (survivor: Option<Location>)
      ensures survivor == FirstRow(locations, source, nextLocation)
    {
      survivor := None;
      for l := 0 to nextLocation
        invariant survivor == FirstRow(locations, source, l)
      {
        if survivor.None? && l in locations && locations[l].source == source {
          survivor := Some(locations[l]);
        }
      }
    }

    method RepointSources(touched: set<SourceId>, root: RootId)
      requires touched <= sources.Keys
      modifies this`sources
      ensures sources == map id | id in old(sources) ::
                if id in touched then Repointed(old(sources)[id], root, FirstRow(locations, id, nextLocation))
                else old(sources)[id]
    {
      var pending := touched;
      while pending != {}
        invariant pending <= touched && sources.Keys == old(sources).Keys
        invariant forall id :: id in sources ==>
                    sources[id] == if id in touched && id !in pending
                                   then Repointed(old(sources)[id], root, FirstRow(locations, id, nextLocation))
                                   else old(sources)[id]
        decreases |pending|
      {
        var id :| id in pending;
        var survivor := Surviving(id);
        if survivor.Some? {
          sources := sources[id := sources[id].(key := survivor.value.key)];
        } else if sources[id].key.root == root {
          sources := sources[id := sources[id].(key := Key(HISTORICAL, sources[id].key.path))];
        }
        pending := pending - {id};
      }
    }

    method Remove(root: RootId) returns (removed: bool)
      modifies this
      ensures State() == RemoveRoot(old(State()), root)
      ensures removed <==> root in old(roots) && root != HISTORICAL
    {
      if root !in roots || root == HISTORICAL {
        return false;
      }
      if HISTORICAL !in roots {
        roots := roots[HISTORICAL := false];
      }
      var touched := TouchedBy(sources, locations, root);
      locations := RowsOutside(locations, root);
      RepointSources(touched, root);
      roots := roots - {root};
      return true;
    }

    method DeleteLibraryRecords(ids: set<RecordId>)
      modifies this
      ensures State() == DeleteRecords(old(State()), ids)
    {
      var kept: seq<Job> := [];
      for i := 0 to |jobs|
        invariant kept == WithoutRecords(jobs[..i], ids)
      {
        assert jobs[..i + 1][..i] == jobs[..i];
        if jobs[i].record.None? || jobs[i].record.value !in ids {
          kept := kept + [jobs[i]];
        }
      }
      assert jobs[..|jobs|] == jobs;
      jobs := kept;
      activeRefresh := activeRefresh - ids;
      publications := map p | p in publications && publications[p].record !in ids :: publications[p];
      aliases := map a | a in aliases && a !in ids && aliases[a] !in ids :: aliases[a];
      records := records - ids;
    }

    /** One cleanup: rowless sources go first, then the records nothing retains. */
    method CleanUp() returns (removedSources: set<SourceId>, removedRecords: set<RecordId>)
      modifies this
      ensures removedSources == Rowless(old(State()))
      ensures IsLeastClosed(Candidates(old(State())), old(aliases), removedRecords)
      ensures State() == CleanedUp(old(State()), removedRecords)
    {
      removedSources := Rowless(State());
      removedRecords := RemovableRecords(Candidates(State()), aliases);
      DeleteSourceRecords(removedSources);
      DeleteLibraryRecords(removedRecords);
    }
  }
}
