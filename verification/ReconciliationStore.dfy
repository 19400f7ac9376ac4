/** The tables a scan changes, and what applying a plan, or removing a root, does to them. */
module ReconciliationStore {
  import opened Wrappers
  import opened Reconciliation

  datatype Publication = Publication(record: RecordId, source: Option<SourceId>, current: bool)

  /** `roots` maps a root to whether it is enabled; `aliases` maps a retired record to its canonical one. */
  datatype Db = Db(
    roots: map<RootId, bool>, sources: map<SourceId, Source>, locations: map<nat, Location>, nextLocation: nat,
    jobs: seq<Job>, activeRefresh: set<RecordId>, records: set<RecordId>, publications: map<string, Publication>,
    aliases: map<RecordId, RecordId>)

  const HISTORICAL: RootId := "historical-unmanaged"

  function SnapshotOf(db: Db, order: seq<SourceId>): Snapshot {
    Snapshot(db.sources, order, db.locations, db.jobs, db.activeRefresh)
  }

  // ---------------------------------------------------------------- applying a plan

  function AddSources(sources: map<SourceId, Source>, added: seq<Source>): map<SourceId, Source> {
    if added == [] then sources
    else
      var last := added[|added| - 1];
      AddSources(sources, added[..|added| - 1])[last.id := last]
  }

  /** The update a batch leaves in force for one source: the last that names it. */
  function UpdateOf(updates: seq<Update>, id: SourceId): Option<Update> {
    if updates == [] then None
    else if updates[|updates| - 1].source == id then Some(updates[|updates| - 1])
    else UpdateOf(updates[..|updates| - 1], id)
  }

  function SuccessorOf(replacements: seq<Replacement>, id: SourceId): Option<SourceId> {
    if replacements == [] then None
    else if replacements[|replacements| - 1].retired == id then Some(replacements[|replacements| - 1].successor)
    else SuccessorOf(replacements[..|replacements| - 1], id)
  }

  predicate IsReappeared(reappeared: seq<Reappearance>, id: SourceId) {
    exists r :: r in reappeared && r.source == id
  }

  predicate IsNew(added: seq<Source>, id: SourceId) {
    exists s :: s in added && s.id == id
  }

  function Relocated(plan: Plan, row: Source): Source {
    var update := UpdateOf(plan.updates, row.id);
    if IsNew(plan.newSources, row.id) || update.None? then row
    else row.(key := update.value.key, device := update.value.device)
  }

  function Returned(plan: Plan, row: Source): Source {
    if IsReappeared(plan.reappeared, row.id) then row.(intake := NeedsReview) else row
  }

  function Retired(plan: Plan, row: Source): Source {
    if IsReplaced(plan.replacements, row.id)
    then row.(intake := Replaced, replacedBy := SuccessorOf(plan.replacements, row.id)) else row
  }

  /** The sources just before the deletions of a plan. */
  function TouchedSources(plan: Plan, sources: map<SourceId, Source>): map<SourceId, Source> {
    var all := AddSources(sources, plan.newSources);
    map id | id in all :: Retired(plan, Returned(plan, Relocated(plan, all[id])))
  }

  function InsertLocations(locations: map<nat, Location>, next: nat, inserted: seq<NewLocation>): map<nat, Location> {
    if inserted == [] then locations
    else
      var last := inserted[|inserted| - 1];
      var before := InsertLocations(locations, next, inserted[..|inserted| - 1]);
      before[next + |inserted| - 1 := Location(last.source, last.key)]
  }

  function SupersedeJobs(jobs: seq<Job>, replacements: seq<Replacement>): seq<Job> {
    if jobs == [] then []
    else
      var job := jobs[|jobs| - 1];
      SupersedeJobs(jobs[..|jobs| - 1], replacements)
      + [if job.source.Some? && IsReplaced(replacements, job.source.value) && (job.state.Queued? || job.state.Running?)
         then job.(state := Superseded) else job]
  }

  function ReactivateJobs(jobs: seq<Job>, sources: seq<SourceId>): seq<Job> {
    if jobs == [] then []
    else
      var job := jobs[|jobs| - 1];
      ReactivateJobs(jobs[..|jobs| - 1], sources)
      + [if job.source.Some? && job.source.value in sources && Stopped(job.state) then job.(state := Queued) else job]
  }

  function WithoutSources(jobs: seq<Job>, ids: set<SourceId>): seq<Job> {
    if jobs == [] then []
    else
      var job := jobs[|jobs| - 1];
      WithoutSources(jobs[..|jobs| - 1], ids) + if job.source.Some? && job.source.value in ids then [] else [job]
  }

  function ScanJobs(sources: seq<SourceId>): seq<Job> {
    if sources == [] then []
    else
      var id := sources[|sources| - 1];
      ScanJobs(sources[..|sources| - 1]) + [Job("filesystem-" + id, Some(id), None, FILESYSTEM_SCAN, Queued)]
  }

  /** Publications keep their row when they are current; what remains forgets the source. */
  function DetachPublications(rows: map<string, Publication>, ids: set<SourceId>): map<string, Publication> {
    map p | p in rows && (rows[p].current || rows[p].source.None? || rows[p].source.value !in ids) ::
      if rows[p].source.Some? && rows[p].source.value in ids then rows[p].(source := None) else rows[p]
  }

  function ForgetSuccessors(sources: map<SourceId, Source>, ids: set<SourceId>): map<SourceId, Source> {
    map id | id in sources && id !in ids ::
      if sources[id].replacedBy.Some? && sources[id].replacedBy.value in ids
      then sources[id].(replacedBy := None) else sources[id]
  }

  function DeleteSources(db: Db, ids: set<SourceId>): Db {
    db.(
      publications := DetachPublications(db.publications, ids),
      jobs := WithoutSources(db.jobs, ids),
      locations := map l | l in db.locations && db.locations[l].source !in ids :: db.locations[l],
      sources := ForgetSuccessors(db.sources, ids))
  }

  function NewRecords(added: seq<Source>): set<RecordId> {
    set s | s in added && s.record.Some? :: s.record.value
  }

  /** The state in which a plan's sources are deleted: everything but deletions, reactivations and new jobs is done. */
  function BeforeDeletion(db: Db, plan: Plan): Db {
    db.(
      records := db.records + NewRecords(plan.newSources),
      sources := TouchedSources(plan, db.sources),
      locations := InsertLocations(db.locations - plan.deletedLocations, db.nextLocation, plan.newLocations),
      nextLocation := db.nextLocation + |plan.newLocations|,
      jobs := SupersedeJobs(db.jobs, plan.replacements))
  }

  function Apply(db: Db, plan: Plan): Db {
    var rest := DeleteSources(BeforeDeletion(db, plan), set id | id in plan.deletedSources);
    rest.(
      jobs := ReactivateJobs(rest.jobs, plan.jobReactivations) + ScanJobs(plan.jobInserts),
      activeRefresh := rest.activeRefresh + plan.refresh)
  }

  // ---------------------------------------------------------------- removing a root

  /** The row of a source with the least number, among those a removal leaves. */
  function FirstRow(locations: map<nat, Location>, source: SourceId, limit: nat): Option<Location> {
    if limit == 0 then None
    else
      var before := FirstRow(locations, source, limit - 1);
      if before.Some? then before
      else if limit - 1 in locations && locations[limit - 1].source == source then Some(locations[limit - 1])
      else None
  }

  function Repointed(row: Source, root: RootId, survivor: Option<Location>): Source {
    if survivor.Some? then row.(key := survivor.value.key)
    else if row.key.root == root then row.(key := Key(HISTORICAL, row.key.path))
    else row
  }

  function RowsOutside(locations: map<nat, Location>, root: RootId): map<nat, Location> {
    map l | l in locations && locations[l].key.root != root :: locations[l]
  }

  /** The sources that lose a row with the root, or are recorded under it. */
  function TouchedBy(sources: map<SourceId, Source>, locations: map<nat, Location>, root: RootId): set<SourceId> {
    var affected := set l | l in locations && locations[l].key.root == root :: locations[l].source;
    set id | id in sources && (sources[id].key.root == root || id in affected)
  }

  function RemoveRoot(db: Db, root: RootId): Db {
    if root !in db.roots || root == HISTORICAL then db
    else
      var kept, touched := RowsOutside(db.locations, root), TouchedBy(db.sources, db.locations, root);
      db.(
        roots := (if HISTORICAL in db.roots then db.roots else db.roots[HISTORICAL := false]) - {root},
        locations := kept,
        sources := map id | id in db.sources ::
          if id in touched then Repointed(db.sources[id], root, FirstRow(kept, id, db.nextLocation))
          else db.sources[id])
  }
}
