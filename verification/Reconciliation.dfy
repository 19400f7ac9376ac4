/**
 Reconciliation: comparing the database with the scanned files and planning the changes.

 `PlanSpec` specifies the plan as a function of the snapshot and the scan; the planner method fills its indexes
 and lists in loops and is proved to return that plan.
 */
module Reconciliation {
  import opened Wrappers
  import opened Ordering

  type SourceId = string
  type RootId = string
  type RecordId = string
  type Path = string

  datatype Identity = Identity(inode: nat, sizeBytes: nat, mtimeNs: int)

  datatype Key = Key(root: RootId, path: Path)

  datatype File = File(key: Key, device: nat, identity: Identity)

  datatype Intake = NeedsReview | Replaced | Disappeared | OtherIntake(name: string)

  datatype Source = Source(
    id: SourceId, key: Key, device: nat, identity: Identity, intake: Intake,
    record: Option<RecordId>, replacedBy: Option<SourceId>)

  datatype Location = Location(source: SourceId, key: Key)

  datatype JobState = Queued | Running | Completed | Quarantined | Blocked | Superseded

  datatype Job = Job(id: string, source: Option<SourceId>, record: Option<RecordId>, kind: string, state: JobState)

  /** One configured root and what a walk of it saw; `None` when the root is unavailable. */
  datatype RootScan = RootScan(root: RootId, files: Option<seq<File>>)

  /** `order` is the row order of the sources; locations and jobs carry their own order. */
  datatype Snapshot = Snapshot(
    sources: map<SourceId, Source>, order: seq<SourceId>, locations: map<nat, Location>, jobs: seq<Job>,
    activeRefresh: set<RecordId>)

  /** Digests of identities and the fresh record name drawn for each new identity. */
  datatype Naming = Naming(idOf: Identity -> SourceId, recordOf: Identity -> RecordId)

  datatype ScanResult = ScanResult(added: int, changed: int, removed: int, moved: int, unchangedFiles: int,
    queuedJobs: int)

  datatype NewLocation = NewLocation(source: SourceId, key: Key)

  datatype Replacement = Replacement(retired: SourceId, successor: SourceId, record: RecordId)

  datatype Update = Update(source: SourceId, key: Key, device: nat)

  datatype Reappearance = Reappearance(source: SourceId, record: RecordId)

  datatype Plan = Plan(
    result: ScanResult, scanned: seq<RootId>, unavailable: seq<RootId>,
    newSources: seq<Source>, updates: seq<Update>, newLocations: seq<NewLocation>, deletedLocations: set<nat>,
    reappeared: seq<Reappearance>, replacements: seq<Replacement>, deletedSources: seq<SourceId>,
    jobInserts: seq<SourceId>, jobReactivations: seq<SourceId>, refresh: set<RecordId>)

  const FILESYSTEM_SCAN := "filesystem_scan"

  // ---------------------------------------------------------------- what the database declares

  ghost predicate Enumerates(order: seq<SourceId>, ids: set<SourceId>) {
    && (forall id :: id in order <==> id in ids)
    && (forall i, k :: 0 <= i < k < |order| ==> order[i] != order[k])
  }

  ghost predicate UniqueKeys(locations: map<nat, Location>) {
    forall a, b :: a in locations && b in locations && locations[a].key == locations[b].key ==> a == b
  }

  ghost predicate ValidSnapshot(snap: Snapshot) {
    && Enumerates(snap.order, snap.sources.Keys)
    && (forall id :: id in snap.sources ==> snap.sources[id].id == id)
    && UniqueKeys(snap.locations)
    && (forall l :: l in snap.locations ==> l > 0 && snap.locations[l].source in snap.sources)
  }

  // ---------------------------------------------------------------- indexes

  /** Sources in the planner's order: active ones first, then by id. */
  function SourceKey(source: Source): seq<int> {
    [if source.intake.Replaced? || source.intake.Disappeared? then 1 else 0] + Codes(source.id)
  }

  /** The pair (root, path); the terminator 0 sorts below every shifted character of the root. */
  function FileKey(file: File): seq<int> {
    Shifted(file.key.root) + [0] + Shifted(file.key.path)
  }

  function Shifted(text: string): seq<int> {
    seq(|text|, i requires 0 <= i < |text| => text[i] as int + 1)
  }

  function Rows(sources: map<SourceId, Source>, order: seq<SourceId>): seq<Source>
    requires forall id :: id in order ==> id in sources
  {
    seq(|order|, i requires 0 <= i < |order| => sources[order[i]])
  }

  function FirstWith(rows: seq<Source>, identity: Identity): (r: Option<SourceId>)
    ensures r.Some? ==> exists row :: row in rows && row.id == r.value
  {
    if rows == [] then None
    else if rows[0].identity == identity then Some(rows[0].id)
    else FirstWith(rows[1..], identity)
  }

  /** The source an identity belongs to: the first one with it in the planner's order. */
  function Existing(snap: Snapshot, identity: Identity): (r: Option<SourceId>)
    requires ValidSnapshot(snap)
    ensures r.Some? ==> r.value in snap.sources
  {
    RowsAreSources(snap);
    FirstWith(Sort(SourceKey, Rows(snap.sources, snap.order)), identity)
  }

  predicate HasRow(snap: Snapshot, source: SourceId) {
    exists l :: l in snap.locations && snap.locations[l].source == source
  }

  /** Where the planner believes a path is recorded: a row, or a stand-in numbered 0. */
  datatype Entry = Entry(id: nat, source: SourceId)

  function RowEntries(locations: map<nat, Location>): map<Key, Entry>
    requires UniqueKeys(locations)
  {
    map l | l in locations :: locations[l].key := Entry(l, locations[l].source)
  }

  /** The first source, in row order, that has no location row and is recorded at this key. */
  function StandIn(snap: Snapshot, order: seq<SourceId>, key: Key): (r: Option<SourceId>)
    requires forall id :: id in order ==> id in snap.sources
    ensures r.Some? ==> r.value in order && !HasRow(snap, r.value) && snap.sources[r.value].key == key
    ensures r.None? ==> forall id :: id in order && !HasRow(snap, id) ==> snap.sources[id].key != key
  {
    if order == [] then None
    else
      var last := order[|order| - 1];
      var before := StandIn(snap, order[..|order| - 1], key);
      if before.Some? then before
      else if !HasRow(snap, last) && snap.sources[last].key == key then Some(last)
      else None
  }

  function Lookup(snap: Snapshot, key: Key): (r: Option<Entry>)
    requires ValidSnapshot(snap)
    ensures r.Some? ==> r.value.source in snap.sources
    ensures r.Some? && r.value.id != 0 ==>
            r.value.id in snap.locations
            && snap.locations[r.value.id] == Location(r.value.source, key)
    ensures r.Some? && r.value.id == 0 ==> !HasRow(snap, r.value.source) && snap.sources[r.value.source].key == key
    ensures (exists l :: l in snap.locations && snap.locations[l].key == key) <==> r.Some? && r.value.id != 0
  {
    if key in RowEntries(snap.locations) then Some(RowEntries(snap.locations)[key])
    else
      match StandIn(snap, snap.order, key)
      case None => None
      case Some(id) => Some(Entry(0, id))
  }

  /** Locations of one source as the planner sees them: its rows, or its stand-in. */
  predicate RecordedAt(snap: Snapshot, source: SourceId, key: Key)
    requires source in snap.sources
  {
    if HasRow(snap, source) then exists l :: l in snap.locations && snap.locations[l] == Location(source, key)
    else snap.sources[source].key == key
  }

  /** The state of a source's scan job; the last row wins. */
  function ScanJobStates(jobs: seq<Job>): map<SourceId, JobState> {
    if jobs == [] then map[]
    else
      var last := jobs[|jobs| - 1];
      var before := ScanJobStates(jobs[..|jobs| - 1]);
      if last.source.Some? && last.kind == FILESYSTEM_SCAN then before[last.source.value := last.state] else before
  }

  // ---------------------------------------------------------------- files

  function ScannedFiles(scans: seq<RootScan>): seq<File> {
    if scans == [] then []
    else
      var last := scans[|scans| - 1];
      ScannedFiles(scans[..|scans| - 1]) + if last.files.Some? then last.files.value else []
  }

  function ScannedRoots(scans: seq<RootScan>): seq<RootId> {
    if scans == [] then []
    else
      var last := scans[|scans| - 1];
      ScannedRoots(scans[..|scans| - 1]) + if last.files.Some? then [last.root] else []
  }

  function UnavailableRoots(scans: seq<RootScan>): seq<RootId> {
    if scans == [] then []
    else
      var last := scans[|scans| - 1];
      UnavailableRoots(scans[..|scans| - 1]) + if last.files.Some? then [] else [last.root]
  }

  function WithIdentity(files: seq<File>, identity: Identity): seq<File> {
    if files == [] then []
    else
      var last := files[|files| - 1];
      WithIdentity(files[..|files| - 1], identity) + if last.identity == identity then [last] else []
  }

  /** Identities in the order in which the scan first met them. */
  function Identities(files: seq<File>): seq<Identity> {
    if files == [] then []
    else
      var before := Identities(files[..|files| - 1]);
      var identity := files[|files| - 1].identity;
      if identity in before then before else before + [identity]
  }

  function Group(files: seq<File>, identity: Identity): seq<File> {
    Sort(FileKey, WithIdentity(files, identity))
  }

  predicate NonEmptyGroups(files: seq<File>, gs: seq<Identity>) {
    forall g :: g in gs ==> Group(files, g) != []
  }

  // ---------------------------------------------------------------- one identity group

  function FirstRecorded(snap: Snapshot, group: seq<File>): (r: Option<SourceId>)
    requires ValidSnapshot(snap)
    ensures r.Some? ==> r.value in snap.sources
  {
    if group == [] then None
    else if Lookup(snap, group[0].key).Some? then Some(Lookup(snap, group[0].key).value.source)
    else FirstRecorded(snap, group[1..])
  }

  predicate NeedsRow(snap: Snapshot, key: Key, owner: SourceId)
    requires ValidSnapshot(snap)
  {
    var entry := Lookup(snap, key);
    entry.None? || entry.value.source != owner
  }

  function MissingRows(snap: Snapshot, group: seq<File>, owner: SourceId): seq<NewLocation>
    requires ValidSnapshot(snap)
  {
    if group == [] then []
    else
      var last := group[|group| - 1];
      MissingRows(snap, group[..|group| - 1], owner)
      + if NeedsRow(snap, last.key, owner) then [NewLocation(owner, last.key)] else []
  }

  function StaleRows(snap: Snapshot, group: seq<File>, owner: SourceId): set<nat>
    requires ValidSnapshot(snap)
  {
    if group == [] then {}
    else
      var last := group[|group| - 1];
      StaleRows(snap, group[..|group| - 1], owner)
      + if NeedsRow(snap, last.key, owner) && Lookup(snap, last.key).Some?
        then {Lookup(snap, last.key).value.id} else {}
  }

  function Owner(names: Naming, snap: Snapshot, identity: Identity): SourceId
    requires ValidSnapshot(snap)
  {
    match Existing(snap, identity)
    case Some(id) => id
    case None => names.idOf(identity)
  }

  /** The record a path already belongs to, which a changed file at that path keeps. */
  function KeptRecord(snap: Snapshot, group: seq<File>): Option<RecordId>
    requires ValidSnapshot(snap)
  {
    match FirstRecorded(snap, group)
    case Some(id) => snap.sources[id].record
    case None => None
  }

  function NewSource(names: Naming, snap: Snapshot, group: seq<File>, identity: Identity): Source
    requires ValidSnapshot(snap) && group != []
  {
    var record := match KeptRecord(snap, group) case Some(r) => r case None => names.recordOf(identity);
    Source(names.idOf(identity), group[0].key, group[0].device, identity, NeedsReview, Some(record), None)
  }

  predicate IsMove(snap: Snapshot, source: SourceId, group: seq<File>)
    requires source in snap.sources
  {
    forall i :: 0 <= i < |group| ==> !RecordedAt(snap, source, group[i].key)
  }

  predicate IsReturn(snap: Snapshot, source: SourceId)
    requires source in snap.sources
  {
    snap.sources[source].intake.Disappeared? && snap.sources[source].record.Some?
  }

  /** A new identity at a path whose source has a record retires that source. */
  predicate IsChange(snap: Snapshot, group: seq<File>)
    requires ValidSnapshot(snap)
  {
    FirstRecorded(snap, group).Some? && KeptRecord(snap, group).Some?
  }

  function Created(names: Naming, snap: Snapshot, files: seq<File>, g: Identity): seq<Source>
    requires ValidSnapshot(snap) && Group(files, g) != []
  {
    if Existing(snap, g).None? then [NewSource(names, snap, Group(files, g), g)] else []
  }

  function Retirement(names: Naming, snap: Snapshot, files: seq<File>, g: Identity): seq<Replacement>
    requires ValidSnapshot(snap)
  {
    var group := Group(files, g);
    if Existing(snap, g).None? && IsChange(snap, group) then
      [Replacement(FirstRecorded(snap, group).value, names.idOf(g), KeptRecord(snap, group).value)]
    else []
  }

  function Return(snap: Snapshot, g: Identity): seq<Reappearance>
    requires ValidSnapshot(snap)
  {
    var found := Existing(snap, g);
    if found.Some? && IsReturn(snap, found.value)
    then [Reappearance(found.value, snap.sources[found.value].record.value)] else []
  }

  function IfAdded(snap: Snapshot, files: seq<File>, g: Identity): nat
    requires ValidSnapshot(snap)
  {
    if Existing(snap, g).None? && FirstRecorded(snap, Group(files, g)).None? then 1 else 0
  }

  function IfChanged(snap: Snapshot, files: seq<File>, g: Identity): nat
    requires ValidSnapshot(snap)
  {
    if Existing(snap, g).None? && FirstRecorded(snap, Group(files, g)).Some? then 1 else 0
  }

  function IfMoved(snap: Snapshot, files: seq<File>, g: Identity): nat
    requires ValidSnapshot(snap)
  {
    var found := Existing(snap, g);
    if found.Some? && IsMove(snap, found.value, Group(files, g)) then 1 else 0
  }

  // ---------------------------------------------------------------- all identity groups

  function Owners(names: Naming, snap: Snapshot, gs: seq<Identity>): seq<SourceId>
    requires ValidSnapshot(snap)
  {
    seq(|gs|, i requires 0 <= i < |gs| => Owner(names, snap, gs[i]))
  }

  function InsertedRows(names: Naming, snap: Snapshot, files: seq<File>, gs: seq<Identity>): seq<NewLocation>
    requires ValidSnapshot(snap)
  {
    if gs == [] then []
    else
      var g := gs[|gs| - 1];
      InsertedRows(names, snap, files, gs[..|gs| - 1])
      + MissingRows(snap, Group(files, g), Owner(names, snap, g))
  }

  function EvictedRows(names: Naming, snap: Snapshot, files: seq<File>, gs: seq<Identity>): set<nat>
    requires ValidSnapshot(snap)
  {
    if gs == [] then {}
    else
      var g := gs[|gs| - 1];
      EvictedRows(names, snap, files, gs[..|gs| - 1])
      + StaleRows(snap, Group(files, g), Owner(names, snap, g))
  }

  function CreatedSources(names: Naming, snap: Snapshot, files: seq<File>, gs: seq<Identity>): seq<Source>
    requires ValidSnapshot(snap) && NonEmptyGroups(files, gs)
  {
    if gs == [] then []
    else CreatedSources(names, snap, files, gs[..|gs| - 1]) + Created(names, snap, files, gs[|gs| - 1])
  }

  function UpdatedSources(names: Naming, snap: Snapshot, files: seq<File>, gs: seq<Identity>): seq<Update>
    requires ValidSnapshot(snap) && NonEmptyGroups(files, gs)
  {
    if gs == [] then []
    else
      var g := gs[|gs| - 1];
      var first := Group(files, g)[0];
      UpdatedSources(names, snap, files, gs[..|gs| - 1]) + [Update(Owner(names, snap, g), first.key, first.device)]
  }

  function Replacements(names: Naming, snap: Snapshot, files: seq<File>, gs: seq<Identity>): seq<Replacement>
    requires ValidSnapshot(snap)
  {
    if gs == [] then []
    else Replacements(names, snap, files, gs[..|gs| - 1]) + Retirement(names, snap, files, gs[|gs| - 1])
  }

  function Reappeared(snap: Snapshot, gs: seq<Identity>): seq<Reappearance>
    requires ValidSnapshot(snap)
  {
    if gs == [] then [] else Reappeared(snap, gs[..|gs| - 1]) + Return(snap, gs[|gs| - 1])
  }

  function AddedCount(snap: Snapshot, files: seq<File>, gs: seq<Identity>): nat
    requires ValidSnapshot(snap)
  {
    if gs == [] then 0 else AddedCount(snap, files, gs[..|gs| - 1]) + IfAdded(snap, files, gs[|gs| - 1])
  }

  function ChangedCount(snap: Snapshot, files: seq<File>, gs: seq<Identity>): nat
    requires ValidSnapshot(snap)
  {
    if gs == [] then 0 else ChangedCount(snap, files, gs[..|gs| - 1]) + IfChanged(snap, files, gs[|gs| - 1])
  }

  function MovedCount(snap: Snapshot, files: seq<File>, gs: seq<Identity>): nat
    requires ValidSnapshot(snap)
  {
    if gs == [] then 0 else MovedCount(snap, files, gs[..|gs| - 1]) + IfMoved(snap, files, gs[|gs| - 1])
  }

  // ---------------------------------------------------------------- scan jobs

  predicate Stopped(state: JobState) {
    state.Quarantined? || state.Blocked?
  }

  function StatesAfter(states: map<SourceId, JobState>, owners: seq<SourceId>): map<SourceId, JobState> {
    if owners == [] then states
    else
      var before, owner := StatesAfter(states, owners[..|owners| - 1]), owners[|owners| - 1];
      if owner !in before || Stopped(before[owner]) then before[owner := Queued] else before
  }

  function JobInserts(states: map<SourceId, JobState>, owners: seq<SourceId>): seq<SourceId> {
    if owners == [] then []
    else
      var before, owner := owners[..|owners| - 1], owners[|owners| - 1];
      JobInserts(states, before) + if owner !in StatesAfter(states, before) then [owner] else []
  }

  function JobReactivations(states: map<SourceId, JobState>, owners: seq<SourceId>): seq<SourceId> {
    if owners == [] then []
    else
      var before, owner := owners[..|owners| - 1], owners[|owners| - 1];
      var now := StatesAfter(states, before);
      JobReactivations(states, before) + if owner in now && Stopped(now[owner]) then [owner] else []
  }

  // ---------------------------------------------------------------- the whole plan

  predicate VanishedRow(snap: Snapshot, files: seq<File>, scanned: seq<RootId>, l: nat)
    requires l in snap.locations
  {
    && snap.locations[l].key.root in scanned
    && forall i :: 0 <= i < |files| ==> files[i].key != snap.locations[l].key
  }

  function Vanished(snap: Snapshot, files: seq<File>, scanned: seq<RootId>): set<nat> {
    set l | l in snap.locations && VanishedRow(snap, files, scanned, l)
  }

  function LiveSources(snap: Snapshot, deleted: set<nat>, inserted: seq<NewLocation>): set<SourceId> {
    (set l | l in snap.locations && l !in deleted :: snap.locations[l].source)
    + set n | n in inserted :: n.source
  }

  function Lost(order: seq<SourceId>, kept: set<SourceId>): seq<SourceId> {
    if order == [] then []
    else
      var last := order[|order| - 1];
      Lost(order[..|order| - 1], kept) + if last in kept then [] else [last]
  }

  function Pairs(replacements: seq<Replacement>, live: set<SourceId>): seq<Replacement> {
    if replacements == [] then []
    else
      var last := replacements[|replacements| - 1];
      Pairs(replacements[..|replacements| - 1], live) + if last.retired in live then [] else [last]
  }

  predicate IsReplaced(replacements: seq<Replacement>, source: SourceId) {
    exists r :: r in replacements && r.retired == source
  }

  function RemovedCount(deleted: seq<SourceId>, replacements: seq<Replacement>): nat {
    if deleted == [] then 0
    else
      RemovedCount(deleted[..|deleted| - 1], replacements)
      + if IsReplaced(replacements, deleted[|deleted| - 1]) then 0 else 1
  }

  function RecordsOf(snap: Snapshot, deleted: seq<SourceId>): set<RecordId> {
    set id | id in deleted && id in snap.sources && snap.sources[id].record.Some? :: snap.sources[id].record.value
  }

  /** Rows a plan deletes, before those of deleted sources. */
  function DeletedRows(names: Naming, snap: Snapshot, scans: seq<RootScan>): set<nat>
    requires ValidSnapshot(snap)
  {
    var files := ScannedFiles(scans);
    EvictedRows(names, snap, files, Identities(files)) + Vanished(snap, files, ScannedRoots(scans))
  }

  function Live(names: Naming, snap: Snapshot, scans: seq<RootScan>): set<SourceId>
    requires ValidSnapshot(snap)
  {
    var files := ScannedFiles(scans);
    LiveSources(snap, DeletedRows(names, snap, scans), InsertedRows(names, snap, files, Identities(files)))
  }

  function Seen(names: Naming, snap: Snapshot, scans: seq<RootScan>): set<SourceId>
    requires ValidSnapshot(snap)
  {
    set id | id in Owners(names, snap, Identities(ScannedFiles(scans)))
  }

  function PlanSpec(names: Naming, snap: Snapshot, scans: seq<RootScan>): Plan
    requires ValidSnapshot(snap)
  {
    var files := ScannedFiles(scans);
    var gs := Identities(files);
    GroupsAreNonEmpty(files);
    var live := Live(names, snap, scans);
    var lost := Lost(snap.order, live + Seen(names, snap, scans));
    var candidates := Replacements(names, snap, files, gs);
    var replacements := Pairs(candidates, live);
    var states, owners := ScanJobStates(snap.jobs), Owners(names, snap, gs);
    var inserts, reactivations := JobInserts(states, owners), JobReactivations(states, owners);
    var added, changed, moved := AddedCount(snap, files, gs), ChangedCount(snap, files, gs),
      MovedCount(snap, files, gs);
    Plan(
      ScanResult(
        added, changed, RemovedCount(lost, replacements), moved,
        |files| - (added + changed + moved), |inserts| + |reactivations|),
      ScannedRoots(scans), UnavailableRoots(scans),
      CreatedSources(names, snap, files, gs), UpdatedSources(names, snap, files, gs),
      InsertedRows(names, snap, files, gs), DeletedRows(names, snap, scans),
      Reappeared(snap, gs), replacements, lost, inserts, reactivations,
      (set r | r in candidates :: r.record) + RecordsOf(snap, lost) - snap.activeRefresh)
  }

  // ---------------------------------------------------------------- facts the definitions need

  lemma RowsAreSources(snap: Snapshot)
    requires ValidSnapshot(snap)
    ensures forall row :: row in Sort(SourceKey, Rows(snap.sources, snap.order)) <==>
              row.id in snap.sources && snap.sources[row.id] == row
  {
    var rows := Rows(snap.sources, snap.order);
    SortMembers(SourceKey, rows);
    forall row ensures row in rows <==> row.id in snap.sources && snap.sources[row.id] == row {
      if row in rows {
        var i :| 0 <= i < |rows| && rows[i] == row;
        assert snap.order[i] in snap.order;
      }
      if row.id in snap.sources && snap.sources[row.id] == row {
        var i :| 0 <= i < |snap.order| && snap.order[i] == row.id;
        assert rows[i] == row;
      }
    }
  }

  lemma {:induction false} FirstWithFacts(rows: seq<Source>, identity: Identity)
    ensures FirstWith(rows, identity).None? ==> forall r :: r in rows ==> r.identity != identity
    ensures FirstWith(rows, identity).Some? ==>
              exists i :: 0 <= i < |rows| && rows[i].identity == identity
                          && rows[i].id == FirstWith(rows, identity).value
                          && forall k :: 0 <= k < i ==> rows[k].identity != identity
  {
    if rows != [] && rows[0].identity != identity {
      FirstWithFacts(rows[1..], identity);
      if FirstWith(rows[1..], identity).Some? {
        var i :| 0 <= i < |rows[1..]| && rows[1..][i].identity == identity
                 && rows[1..][i].id == FirstWith(rows[1..], identity).value
                 && forall k :: 0 <= k < i ==> rows[1..][k].identity != identity;
        assert rows[i + 1] == rows[1..][i];
        forall k | 0 <= k < i + 1 ensures rows[k].identity != identity {
          assert k > 0 ==> rows[k] == rows[1..][k - 1];
        }
      }
    }
  }

  lemma FirstWithIsLeast(sorted: seq<Source>, identity: Identity, row: Source) returns (first: Source)
    requires SortedBy(SourceKey, sorted) && row in sorted && row.identity == identity
    ensures FirstWith(sorted, identity) == Some(first.id) && first in sorted
    ensures LexLeq(SourceKey(first), SourceKey(row))
  {
    FirstWithFacts(sorted, identity);
    var k :| 0 <= k < |sorted| && sorted[k] == row;
    var i :| 0 <= i < |sorted| && sorted[i].identity == identity && sorted[i].id == FirstWith(sorted, identity).value
             && forall k :: 0 <= k < i ==> sorted[k].identity != identity;
    first := sorted[i];
  }

  lemma ExistingIsFirst(snap: Snapshot, identity: Identity, id: SourceId)
    requires ValidSnapshot(snap) && id in snap.sources && snap.sources[id].identity == identity
    ensures Existing(snap, identity).Some?
    ensures LexLeq(SourceKey(snap.sources[Existing(snap, identity).value]), SourceKey(snap.sources[id]))
  {
    var rows := Rows(snap.sources, snap.order);
    SortSorted(SourceKey, rows);
    RowsAreSources(snap);
    assert snap.sources[id] in Sort(SourceKey, rows);
    var first := FirstWithIsLeast(Sort(SourceKey, rows), identity, snap.sources[id]);
  }

  lemma ExistingHasIdentity(snap: Snapshot, identity: Identity)
    requires ValidSnapshot(snap) && Existing(snap, identity).Some?
    ensures snap.sources[Existing(snap, identity).value].identity == identity
  {
    var sorted := Sort(SourceKey, Rows(snap.sources, snap.order));
    RowsAreSources(snap);
    FirstWithFacts(sorted, identity);
    var i :| 0 <= i < |sorted| && sorted[i].identity == identity && sorted[i].id == Existing(snap, identity).value;
    assert sorted[i] in sorted;
  }

  /** `Existing` is the source with that identity that comes first: active before inactive, then by id. */
  lemma ExistingFacts(snap: Snapshot, identity: Identity)
    requires ValidSnapshot(snap)
    ensures Existing(snap, identity).None?
            <==> forall id :: id in snap.sources ==> snap.sources[id].identity != identity
    ensures Existing(snap, identity).Some? ==>
              var found := Existing(snap, identity).value;
              && snap.sources[found].identity == identity
              && forall id :: id in snap.sources && snap.sources[id].identity == identity ==>
                   LexLeq(SourceKey(snap.sources[found]), SourceKey(snap.sources[id]))
  {
    if Existing(snap, identity).Some? {
      ExistingHasIdentity(snap, identity);
    }
    forall id | id in snap.sources && snap.sources[id].identity == identity
      ensures Existing(snap, identity).Some?
      ensures LexLeq(SourceKey(snap.sources[Existing(snap, identity).value]), SourceKey(snap.sources[id]))
    {
      ExistingIsFirst(snap, identity, id);
    }
  }

  lemma {:induction false} WithIdentityMembers(files: seq<File>, identity: Identity)
    ensures forall f :: f in WithIdentity(files, identity) <==> f in files && f.identity == identity
    decreases |files|
  {
    if files != [] {
      WithIdentityMembers(files[..|files| - 1], identity);
      assert files == files[..|files| - 1] + [files[|files| - 1]];
    }
  }

  lemma GroupMembers(files: seq<File>, identity: Identity)
    ensures forall f :: f in Group(files, identity) <==> f in files && f.identity == identity
    ensures Group(files, identity) != [] <==> exists f :: f in files && f.identity == identity
  {
    WithIdentityMembers(files, identity);
    SortMembers(FileKey, WithIdentity(files, identity));
    if Group(files, identity) != [] {
      assert Group(files, identity)[0] in Group(files, identity);
    }
  }

  lemma {:induction false} IdentitiesMembers(files: seq<File>)
    ensures forall g :: g in Identities(files) <==> exists f :: f in files && f.identity == g
    ensures forall i, k :: 0 <= i < k < |Identities(files)| ==> Identities(files)[i] != Identities(files)[k]
    decreases |files|
  {
    if files != [] {
      var before, last := files[..|files| - 1], files[|files| - 1];
      IdentitiesMembers(before);
      assert files == before + [last];
      forall g ensures g in Identities(files) <==> exists f :: f in files && f.identity == g {
        if g in Identities(files) {
          if g == last.identity {
            assert last in files;
          } else {
            var f :| f in before && f.identity == g;
            assert f in files;
          }
        }
      }
    }
  }

  lemma GroupsAreNonEmpty(files: seq<File>)
    ensures NonEmptyGroups(files, Identities(files))
  {
    IdentitiesMembers(files);
    forall g | g in Identities(files) ensures Group(files, g) != [] {
      GroupMembers(files, g);
    }
  }
}
