/** The planner: loops over the snapshot and the scan that build the plan the specification names. */
module ReconciliationPlanner {
  import opened Wrappers
  import opened Ordering
  import opened Reconciliation

  lemma {:induction false} FirstWithOneMore(rows: seq<Source>, row: Source, identity: Identity)
    ensures FirstWith(rows + [row], identity) ==
            if FirstWith(rows, identity).Some? then FirstWith(rows, identity)
            else if row.identity == identity then Some(row.id) else None
  {
    if rows == [] {
      assert FirstWith([row][1..], identity) == None;
      assert rows + [row] == [row];
    } else {
      assert (rows + [row])[1..] == rows[1..] + [row];
      FirstWithOneMore(rows[1..], row, identity);
    }
  }

  function Get<K, V>(m: map<K, V>, k: K): Option<V> {
    if k in m then Some(m[k]) else None
  }

  method IndexSources(snap: Snapshot) returns (byIdentity: map<Identity, SourceId>)
    requires ValidSnapshot(snap)
    ensures forall g :: Get(byIdentity, g) == Existing(snap, g)
  {
    var active := Sort(SourceKey, Rows(snap.sources, snap.order));
    byIdentity := map[];
    for i := 0 to |active|
      invariant forall g :: Get(byIdentity, g) == FirstWith(active[..i], g)
    {
      assert active[..i + 1] == active[..i] + [active[i]];
      forall g { FirstWithOneMore(active[..i], active[i], g); }
      if active[i].identity !in byIdentity {
        byIdentity := byIdentity[active[i].identity := active[i].id];
      }
    }
    assert active[..|active|] == active;
  }

  /** What is found at a key once the first n sources without a row are taken in. */
  function EntryUpTo(snap: Snapshot, n: nat, key: Key): Option<Entry>
    requires ValidSnapshot(snap) && n <= |snap.order|
  {
    if key in RowEntries(snap.locations) then Some(RowEntries(snap.locations)[key])
    else
      match StandIn(snap, snap.order[..n], key)
      case None => None
      case Some(id) => Some(Entry(0, id))
  }

  lemma OneMoreEntry(snap: Snapshot, i: nat, key: Key)
    requires ValidSnapshot(snap) && i < |snap.order|
    ensures var id, before := snap.order[i], EntryUpTo(snap, i, key);
            EntryUpTo(snap, i + 1, key)
            == if before.Some? then before
               else if !HasRow(snap, id) && snap.sources[id].key == key then Some(Entry(0, id)) else None
  {
    assert snap.order[..i + 1][..i] == snap.order[..i];
  }

  lemma NextEntry(snap: Snapshot, i: nat, key: Key, before: map<Key, Entry>, after: map<Key, Entry>)
    requires ValidSnapshot(snap) && i < |snap.order| && Get(before, key) == EntryUpTo(snap, i, key)
    requires var id := snap.order[i];
             after == if !HasRow(snap, id) && snap.sources[id].key !in before
                      then before[snap.sources[id].key := Entry(0, id)] else before
    ensures Get(after, key) == EntryUpTo(snap, i + 1, key)
  {
    OneMoreEntry(snap, i, key);
  }

  lemma NextEntries(snap: Snapshot, i: nat, before: map<Key, Entry>, after: map<Key, Entry>)
    requires ValidSnapshot(snap) && i < |snap.order| && forall key :: Get(before, key) == EntryUpTo(snap, i, key)
    requires var id := snap.order[i];
             after == if !HasRow(snap, id) && snap.sources[id].key !in before
                      then before[snap.sources[id].key := Entry(0, id)] else before
    ensures forall key :: Get(after, key) == EntryUpTo(snap, i + 1, key)
  {
    forall key ensures Get(after, key) == EntryUpTo(snap, i + 1, key) {
      assert Get(before, key) == EntryUpTo(snap, i, key);
      NextEntry(snap, i, key, before, after);
    }
  }

  lemma AllEntries(snap: Snapshot)
    requires ValidSnapshot(snap)
    ensures forall key :: EntryUpTo(snap, |snap.order|, key) == Lookup(snap, key)
    ensures forall key :: EntryUpTo(snap, 0, key) == Get(RowEntries(snap.locations), key)
  {
    assert snap.order[..|snap.order|] == snap.order;
  }

  method IndexPaths(snap: Snapshot) returns (byPath: map<Key, Entry>)
    requires ValidSnapshot(snap)
    ensures forall key :: Get(byPath, key) == Lookup(snap, key)
  {
    byPath := RowEntries(snap.locations);
    AllEntries(snap);
    for i := 0 to |snap.order|
      invariant forall key :: Get(byPath, key) == EntryUpTo(snap, i, key)
    {
      var id := snap.order[i];
      ghost var before := byPath;
      if !HasRow(snap, id) && snap.sources[id].key !in byPath {
        byPath := byPath[snap.sources[id].key := Entry(0, id)];
      }
      NextEntries(snap, i, before, byPath);
    }
  }

  method IndexScanJobs(jobs: seq<Job>) returns (states: map<SourceId, JobState>)
    ensures states == ScanJobStates(jobs)
  {
    states := map[];
    for i := 0 to |jobs|
      invariant states == ScanJobStates(jobs[..i])
    {
      assert jobs[..i + 1][..i] == jobs[..i];
      if jobs[i].source.Some? && jobs[i].kind == FILESYSTEM_SCAN {
        states := states[jobs[i].source.value := jobs[i].state];
      }
    }
    assert jobs[..|jobs|] == jobs;
  }

  method CollectFiles(scans: seq<RootScan>) returns (files: seq<File>, scanned: seq<RootId>, unavailable: seq<RootId>)
    ensures files == ScannedFiles(scans) && scanned == ScannedRoots(scans) && unavailable == UnavailableRoots(scans)
  {
    files, scanned, unavailable := [], [], [];
    for i := 0 to |scans|
      invariant files == ScannedFiles(scans[..i])
      invariant scanned == ScannedRoots(scans[..i]) && unavailable == UnavailableRoots(scans[..i])
    {
      assert scans[..i + 1][..i] == scans[..i];
      match scans[i].files {
        case None => unavailable := unavailable + [scans[i].root];
        case Some(seen) =>
          scanned := scanned + [scans[i].root];
          files := files + seen;
      }
    }
    assert scans[..|scans|] == scans;
  }

  method GroupByIdentity(files: seq<File>) returns (groups: map<Identity, seq<File>>, identities: seq<Identity>)
    ensures identities == Identities(files)
    ensures forall g :: g in groups <==> g in identities
    ensures forall g :: g in groups ==> groups[g] == WithIdentity(files, g)
  {
    groups, identities := map[], [];
    for i := 0 to |files|
      invariant identities == Identities(files[..i])
      invariant forall g :: g in groups <==> g in identities
      invariant forall g :: WithIdentity(files[..i], g) == if g in groups then groups[g] else []
    {
      var g := files[i].identity;
      assert files[..i + 1][..i] == files[..i];
      if g !in groups {
        groups, identities := groups[g := []], identities + [g];
      }
      groups := groups[g := groups[g] + [files[i]]];
    }
    assert files[..|files|] == files;
  }

  /** The first source recorded at one of these paths. */
  method FindRecorded(snap: Snapshot, byPath: map<Key, Entry>, group: seq<File>) returns (found: Option<SourceId>)
    requires ValidSnapshot(snap) && forall key :: Get(byPath, key) == Lookup(snap, key)
    ensures found == FirstRecorded(snap, group)
  {
    var i := 0;
    while i < |group|
      invariant i <= |group| && FirstRecorded(snap, group) == FirstRecorded(snap, group[i..])
    {
      assert Get(byPath, group[i].key) == Lookup(snap, group[i].key);
      if group[i].key in byPath {
        return Some(byPath[group[i].key].source);
      }
      assert group[i..][1..] == group[i + 1..];
      i := i + 1;
    }
    return None;
  }

  /** The row one more file asks for, and the row it evicts. */
  lemma OneMoreMissing(snap: Snapshot, group: seq<File>, owner: SourceId, i: nat)
    requires ValidSnapshot(snap) && i < |group|
    ensures MissingRows(snap, group[..i + 1], owner)
            == MissingRows(snap, group[..i], owner)
               + if NeedsRow(snap, group[i].key, owner) then [NewLocation(owner, group[i].key)] else []
  {
    assert group[..i + 1][..i] == group[..i];
  }

  lemma OneMoreStale(snap: Snapshot, group: seq<File>, owner: SourceId, i: nat)
    requires ValidSnapshot(snap) && i < |group|
    ensures var entry := Lookup(snap, group[i].key);
            StaleRows(snap, group[..i + 1], owner)
            == StaleRows(snap, group[..i], owner)
               + if NeedsRow(snap, group[i].key, owner) && entry.Some? then {entry.value.id} else {}
  {
    assert group[..i + 1][..i] == group[..i];
  }

  method PlaceGroup(snap: Snapshot, byPath: map<Key, Entry>, group: seq<File>, owner: SourceId)
    returns (missing: seq<NewLocation>, stale: set<nat>)
    requires ValidSnapshot(snap) && forall key :: Get(byPath, key) == Lookup(snap, key)
    ensures missing == MissingRows(snap, group, owner) && stale == StaleRows(snap, group, owner)
  {
    missing, stale := [], {};
    for i := 0 to |group|
      invariant missing == MissingRows(snap, group[..i], owner) && stale == StaleRows(snap, group[..i], owner)
    {
      var key := group[i].key;
      assert Get(byPath, key) == Lookup(snap, key);
      OneMoreMissing(snap, group, owner, i);
      OneMoreStale(snap, group, owner, i);
      if key !in byPath || byPath[key].source != owner {
        if key in byPath {
          stale := stale + {byPath[key].id};
        }
        missing := missing + [NewLocation(owner, key)];
      }
    }
    assert group[..|group|] == group;
  }

  method FindVanished(snap: Snapshot, files: seq<File>, scanned: seq<RootId>) returns (gone: set<nat>)
    ensures gone == Vanished(snap, files, scanned)
  {
    var current := set f | f in files :: f.key;
    var pending := snap.locations.Keys;
    gone := {};
    while pending != {}
      invariant pending <= snap.locations.Keys
      invariant gone == set l | l in snap.locations && l !in pending && VanishedRow(snap, files, scanned, l)
      decreases |pending|
    {
      var l :| l in pending;
      var key := snap.locations[l].key;
      assert key !in current <==> forall i :: 0 <= i < |files| ==> files[i].key != key by {
        if key in current {
          var f :| f in files && f.key == key;
        }
        forall i | 0 <= i < |files| ensures files[i].key in current { }
      }
      if key.root in scanned && key !in current {
        gone := gone + {l};
      }
      pending := pending - {l};
    }
  }

  method FindLost(snap: Snapshot, kept: set<SourceId>, replacements: seq<Replacement>)
    returns (lost: seq<SourceId>, removed: nat, records: set<RecordId>)
    requires ValidSnapshot(snap)
    ensures lost == Lost(snap.order, kept)
    ensures removed == RemovedCount(lost, replacements) && records == RecordsOf(snap, lost)
  {
    lost, removed, records := [], 0, {};
    for i := 0 to |snap.order|
      invariant lost == Lost(snap.order[..i], kept)
      invariant removed == RemovedCount(lost, replacements) && records == RecordsOf(snap, lost)
    {
      var id := snap.order[i];
      OneMoreLost(snap.order, i, kept);
      if id !in kept {
        RemovedCountOfOneMore(lost, id, replacements);
        RecordsOfOneMore(snap, lost, id);
        if !IsReplaced(replacements, id) {
          removed := removed + 1;
        }
        if snap.sources[id].record.Some? {
          records := records + {snap.sources[id].record.value};
        }
        lost := lost + [id];
      }
    }
    assert snap.order[..|snap.order|] == snap.order;
  }

  lemma OneMoreLost(order: seq<SourceId>, i: nat, kept: set<SourceId>)
    requires i < |order|
    ensures Lost(order[..i + 1], kept)
            == if order[i] in kept then Lost(order[..i], kept) else Lost(order[..i], kept) + [order[i]]
  {
    assert order[..i + 1][..i] == order[..i];
  }

  lemma RemovedCountOfOneMore(lost: seq<SourceId>, id: SourceId, replacements: seq<Replacement>)
    ensures RemovedCount(lost + [id], replacements)
            == RemovedCount(lost, replacements) + if IsReplaced(replacements, id) then 0 else 1
  {
    assert (lost + [id])[..|lost|] == lost;
  }

  lemma RecordsOfOneMore(snap: Snapshot, lost: seq<SourceId>, id: SourceId)
    requires id in snap.sources
    ensures RecordsOf(snap, lost + [id]) ==
            RecordsOf(snap, lost) + if snap.sources[id].record.Some? then {snap.sources[id].record.value} else {}
  {
    assert forall x :: x in lost + [id] <==> x in lost || x == id;
  }

  method FilterPairs(candidates: seq<Replacement>, live: set<SourceId>) returns (pairs: seq<Replacement>)
    ensures pairs == Pairs(candidates, live)
  {
    pairs := [];
    for i := 0 to |candidates|
      invariant pairs == Pairs(candidates[..i], live)
    {
      assert candidates[..i + 1][..i] == candidates[..i];
      if candidates[i].retired !in live {
        pairs := pairs + [candidates[i]];
      }
    }
    assert candidates[..|candidates|] == candidates;
  }

  /** The source of an unknown identity, and the one whose file it replaces. */
  method DecideNew(
    names: Naming, snap: Snapshot, byPath: map<Key, Entry>, files: seq<File>, g: Identity, group: seq<File>)
    returns (created: Source, retired: seq<Replacement>, known: bool)
    requires ValidSnapshot(snap) && group == Group(files, g) && group != [] && Existing(snap, g).None?
    requires forall key :: Get(byPath, key) == Lookup(snap, key)
    ensures created == NewSource(names, snap, group, g) && retired == Retirement(names, snap, files, g)
    ensures known <==> FirstRecorded(snap, group).Some?
  {
    created := NewSource(names, snap, group, g);
    var previous := FindRecorded(snap, byPath, group);
    known, retired := previous.Some?, [];
    if previous.Some? && snap.sources[previous.value].record.Some? {
      retired := [Replacement(previous.value, names.idOf(g), snap.sources[previous.value].record.value)];
    }
  }

  /** Which source a group belongs to, and what that adds to the lists and counters. */
  method DecideSource(
    names: Naming, snap: Snapshot, byIdentity: map<Identity, SourceId>, byPath: map<Key, Entry>, files: seq<File>,
    g: Identity, group: seq<File>)
    returns (owner: SourceId, created: seq<Source>, retired: seq<Replacement>, back: seq<Reappearance>,
             added: nat, changed: nat, moved: nat)
    requires ValidSnapshot(snap) && group == Group(files, g) && group != []
    requires forall h :: Get(byIdentity, h) == Existing(snap, h)
    requires forall key :: Get(byPath, key) == Lookup(snap, key)
    ensures owner == Owner(names, snap, g)
    ensures created == Created(names, snap, files, g) && retired == Retirement(names, snap, files, g)
    ensures back == Return(snap, g)
    ensures added == IfAdded(snap, files, g) && changed == IfChanged(snap, files, g) && moved == IfMoved(snap, files, g)
  {
    created, retired, back, added, changed, moved := [], [], [], 0, 0, 0;
    assert Get(byIdentity, g) == Existing(snap, g);
    if g !in byIdentity {
      owner := names.idOf(g);
      var source, replaced, known := DecideNew(names, snap, byPath, files, g, group);
      created, retired := [source], replaced;
      if known {
        changed := 1;
      } else {
        added := 1;
      }
    } else {
      owner := byIdentity[g];
      if IsMove(snap, owner, group) {
        moved := 1;
      }
      if snap.sources[owner].intake.Disappeared? && snap.sources[owner].record.Some? {
        back := [Reappearance(owner, snap.sources[owner].record.value)];
      }
    }
  }

  method EnqueueAll(
    jobs: seq<Job>, owners: seq<SourceId>) returns (inserts: seq<SourceId>, reactivations: seq<SourceId>)
    ensures inserts == JobInserts(ScanJobStates(jobs), owners)
    ensures reactivations == JobReactivations(ScanJobStates(jobs), owners)
  {
    var states := IndexScanJobs(jobs);
    inserts, reactivations := [], [];
    for i := 0 to |owners|
      invariant inserts == JobInserts(ScanJobStates(jobs), owners[..i])
      invariant reactivations == JobReactivations(ScanJobStates(jobs), owners[..i])
      invariant states == StatesAfter(ScanJobStates(jobs), owners[..i])
    {
      assert owners[..i + 1][..i] == owners[..i];
      if owners[i] !in states {
        inserts, states := inserts + [owners[i]], states[owners[i] := Queued];
      } else if Stopped(states[owners[i]]) {
        reactivations, states := reactivations + [owners[i]], states[owners[i] := Queued];
      }
    }
    assert owners[..|owners|] == owners;
  }

  /** The lists one pass over the identity groups fills. */
  datatype Decisions = Decisions(
    newSources: seq<Source>, updates: seq<Update>, newLocations: seq<NewLocation>, stale: set<nat>,
    reappeared: seq<Reappearance>, candidates: seq<Replacement>, owners: seq<SourceId>,
    added: nat, changed: nat, moved: nat)

  function DecisionsSpec(names: Naming, snap: Snapshot, files: seq<File>, gs: seq<Identity>): Decisions
    requires ValidSnapshot(snap) && NonEmptyGroups(files, gs)
  {
    Decisions(
      CreatedSources(names, snap, files, gs), UpdatedSources(names, snap, files, gs),
      InsertedRows(names, snap, files, gs), EvictedRows(names, snap, files, gs), Reappeared(snap, gs),
      Replacements(names, snap, files, gs), Owners(names, snap, gs),
      AddedCount(snap, files, gs), ChangedCount(snap, files, gs), MovedCount(snap, files, gs))
  }

  function Joined(d: Decisions, e: Decisions): Decisions {
    Decisions(
      d.newSources + e.newSources, d.updates + e.updates, d.newLocations + e.newLocations, d.stale + e.stale,
      d.reappeared + e.reappeared, d.candidates + e.candidates, d.owners + e.owners,
      d.added + e.added, d.changed + e.changed, d.moved + e.moved)
  }

  /** What one identity group adds to the lists. */
  function GroupPart(names: Naming, snap: Snapshot, files: seq<File>, g: Identity): Decisions
    requires ValidSnapshot(snap) && Group(files, g) != []
  {
    var group, owner := Group(files, g), Owner(names, snap, g);
    Decisions(
      Created(names, snap, files, g), [Update(owner, group[0].key, group[0].device)],
      MissingRows(snap, group, owner), StaleRows(snap, group, owner), Return(snap, g),
      Retirement(names, snap, files, g), [owner],
      IfAdded(snap, files, g), IfChanged(snap, files, g), IfMoved(snap, files, g))
  }

  /** The lists after one more identity group. */
  function WithGroup(names: Naming, snap: Snapshot, files: seq<File>, d: Decisions, g: Identity): Decisions
    requires ValidSnapshot(snap) && Group(files, g) != []
  {
    Joined(d, GroupPart(names, snap, files, g))
  }

  lemma CountsOfOneMore(snap: Snapshot, files: seq<File>, gs: seq<Identity>)
    requires ValidSnapshot(snap) && gs != []
    ensures var before, g := gs[..|gs| - 1], gs[|gs| - 1];
            && AddedCount(snap, files, gs) == AddedCount(snap, files, before) + IfAdded(snap, files, g)
            && ChangedCount(snap, files, gs) == ChangedCount(snap, files, before) + IfChanged(snap, files, g)
            && MovedCount(snap, files, gs) == MovedCount(snap, files, before) + IfMoved(snap, files, g)
            && Reappeared(snap, gs) == Reappeared(snap, before) + Return(snap, g)
  {
  }

  lemma RowsOfOneMore(names: Naming, snap: Snapshot, files: seq<File>, gs: seq<Identity>)
    requires ValidSnapshot(snap) && gs != []
    ensures var before, g := gs[..|gs| - 1], gs[|gs| - 1];
            var group, owner := Group(files, g), Owner(names, snap, g);
            && InsertedRows(names, snap, files, gs)
               == InsertedRows(names, snap, files, before) + MissingRows(snap, group, owner)
            && EvictedRows(names, snap, files, gs)
               == EvictedRows(names, snap, files, before) + StaleRows(snap, group, owner)
            && Replacements(names, snap, files, gs)
               == Replacements(names, snap, files, before) + Retirement(names, snap, files, g)
  {
  }

  lemma SourcesOfOneMore(names: Naming, snap: Snapshot, files: seq<File>, gs: seq<Identity>)
    requires ValidSnapshot(snap) && gs != [] && NonEmptyGroups(files, gs) && NonEmptyGroups(files, gs[..|gs| - 1])
    requires Group(files, gs[|gs| - 1]) != []
    ensures var before, g := gs[..|gs| - 1], gs[|gs| - 1];
            var group, owner := Group(files, g), Owner(names, snap, g);
            && CreatedSources(names, snap, files, gs)
               == CreatedSources(names, snap, files, before) + Created(names, snap, files, g)
            && UpdatedSources(names, snap, files, gs)
               == UpdatedSources(names, snap, files, before) + [Update(owner, group[0].key, group[0].device)]
  {
  }

  lemma OwnersOfOneMore(names: Naming, snap: Snapshot, gs: seq<Identity>)
    requires ValidSnapshot(snap) && gs != []
    ensures Owners(names, snap, gs) == Owners(names, snap, gs[..|gs| - 1]) + [Owner(names, snap, gs[|gs| - 1])]
  {
  }

  lemma DecisionsOfOneMore(names: Naming, snap: Snapshot, files: seq<File>, gs: seq<Identity>)
    requires ValidSnapshot(snap) && gs != [] && NonEmptyGroups(files, gs) && NonEmptyGroups(files, gs[..|gs| - 1])
    requires Group(files, gs[|gs| - 1]) != []
    ensures DecisionsSpec(names, snap, files, gs)
            == WithGroup(names, snap, files, DecisionsSpec(names, snap, files, gs[..|gs| - 1]), gs[|gs| - 1])
  {
    CountsOfOneMore(snap, files, gs);
    RowsOfOneMore(names, snap, files, gs);
    SourcesOfOneMore(names, snap, files, gs);
    OwnersOfOneMore(names, snap, gs);
  }

  method DecideGroup(
    names: Naming, snap: Snapshot, files: seq<File>, byIdentity: map<Identity, SourceId>, byPath: map<Key, Entry>,
    d: Decisions, g: Identity, group: seq<File>) returns (r: Decisions)
    requires ValidSnapshot(snap) && group == Group(files, g) && group != []
    requires forall h :: Get(byIdentity, h) == Existing(snap, h)
    requires forall key :: Get(byPath, key) == Lookup(snap, key)
    ensures r == WithGroup(names, snap, files, d, g)
  {
    var owner, created, retired, back, added, changed, moved :=
      DecideSource(names, snap, byIdentity, byPath, files, g, group);
    var missing, evicted := PlaceGroup(snap, byPath, group, owner);
    var part := Decisions(
      created, [Update(owner, group[0].key, group[0].device)], missing, evicted, back, retired, [owner], added,
        changed, moved);
    r := Joined(d, part);
  }

  method DecideGroups(
    names: Naming, snap: Snapshot, files: seq<File>, byIdentity: map<Identity, SourceId>, byPath: map<Key, Entry>,
    groups: map<Identity, seq<File>>, identities: seq<Identity>) returns (d: Decisions)
    requires ValidSnapshot(snap) && NonEmptyGroups(files, identities)
    requires forall g :: Get(byIdentity, g) == Existing(snap, g)
    requires forall key :: Get(byPath, key) == Lookup(snap, key)
    requires forall g :: g in identities ==> g in groups && groups[g] == WithIdentity(files, g)
    ensures d == DecisionsSpec(names, snap, files, identities)
  {
    d := Decisions([], [], [], {}, [], [], [], 0, 0, 0);
    for i := 0 to |identities|
      invariant NonEmptyGroups(files, identities[..i]) && d == DecisionsSpec(names, snap, files, identities[..i])
    {
      var g := identities[i];
      assert identities[..i + 1][..i] == identities[..i];
      DecisionsOfOneMore(names, snap, files, identities[..i + 1]);
      d := DecideGroup(names, snap, files, byIdentity, byPath, d, g, Sort(FileKey, groups[g]));
    }
    assert identities[..|identities|] == identities;
  }

  /** The plan that follows from the decisions on all groups. */
  function PlanFrom(
    snap: Snapshot, files: seq<File>, scanned: seq<RootId>, unavailable: seq<RootId>, d: Decisions): Plan {
    var deleted := d.stale + Vanished(snap, files, scanned);
    var live := LiveSources(snap, deleted, d.newLocations);
    var replacements := Pairs(d.candidates, live);
    var lost := Lost(snap.order, live + set id | id in d.owners);
    var states := ScanJobStates(snap.jobs);
    var inserts, reactivations := JobInserts(states, d.owners), JobReactivations(states, d.owners);
    Plan(
      ScanResult(
        d.added, d.changed, RemovedCount(lost, replacements), d.moved, |files| - (d.added + d.changed + d.moved),
        |inserts| + |reactivations|),
      scanned, unavailable, d.newSources, d.updates, d.newLocations, deleted, d.reappeared, replacements, lost,
      inserts, reactivations, (set r | r in d.candidates :: r.record) + RecordsOf(snap, lost) - snap.activeRefresh)
  }

  lemma DecidedSets(names: Naming, snap: Snapshot, scans: seq<RootScan>)
    requires ValidSnapshot(snap) && NonEmptyGroups(ScannedFiles(scans), Identities(ScannedFiles(scans)))
    ensures var files := ScannedFiles(scans);
            var d := DecisionsSpec(names, snap, files, Identities(files));
            && DeletedRows(names, snap, scans) == d.stale + Vanished(snap, files, ScannedRoots(scans))
            && Live(names, snap, scans) == LiveSources(snap, DeletedRows(names, snap, scans), d.newLocations)
            && Seen(names, snap, scans) == set id | id in d.owners
  {
  }

  lemma PlanFromDecisions(names: Naming, snap: Snapshot, scans: seq<RootScan>)
    requires ValidSnapshot(snap) && NonEmptyGroups(ScannedFiles(scans), Identities(ScannedFiles(scans)))
    ensures PlanSpec(names, snap, scans) ==
            PlanFrom(snap, ScannedFiles(scans), ScannedRoots(scans), UnavailableRoots(scans),
                     DecisionsSpec(names, snap, ScannedFiles(scans), Identities(ScannedFiles(scans))))
  {
    DecidedSets(names, snap, scans);
  }

  method AssemblePlan(snap: Snapshot, files: seq<File>, scanned: seq<RootId>, unavailable: seq<RootId>, d: Decisions)
    returns (plan: Plan)
    requires ValidSnapshot(snap)
    ensures plan == PlanFrom(snap, files, scanned, unavailable, d)
  {
    var inserts, reactivations := EnqueueAll(snap.jobs, d.owners);
    var gone := FindVanished(snap, files, scanned);
    var deleted := d.stale + gone;
    var live := LiveSources(snap, deleted, d.newLocations);
    var replacements := FilterPairs(d.candidates, live);
    var lost, removed, orphaned := FindLost(snap, live + (set id | id in d.owners), replacements);
    plan := Plan(
      ScanResult(
        d.added, d.changed, removed, d.moved, |files| - (d.added + d.changed + d.moved),
        |inserts| + |reactivations|),
      scanned, unavailable, d.newSources, d.updates, d.newLocations, deleted, d.reappeared, replacements, lost,
      inserts, reactivations, (set r | r in d.candidates :: r.record) + orphaned - snap.activeRefresh);
  }

  /** The changes one scan of some roots asks for, from the rows as they were read before it. */
  method PlanReconciliation(names: Naming, snap: Snapshot, scans: seq<RootScan>) returns (plan: Plan)
    requires ValidSnapshot(snap)
    ensures plan == PlanSpec(names, snap, scans)
  {
    var byIdentity := IndexSources(snap);
    var byPath := IndexPaths(snap);
    var files, scanned, unavailable := CollectFiles(scans);
    var groups, identities := GroupByIdentity(files);
    GroupsAreNonEmpty(files);
    var d := DecideGroups(names, snap, files, byIdentity, byPath, groups, identities);
    plan := AssemblePlan(snap, files, scanned, unavailable, d);
    PlanFromDecisions(names, snap, scans);
  }
}
