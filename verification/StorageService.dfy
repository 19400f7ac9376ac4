/** The service that accepts a move and the worker step that resumes it, over one mutable store. */
module StorageService {
  import opened Wrappers
  import opened StorageRelocation
  import opened RelocationSafety

  datatype EntryKind = Regular | Directory | SymbolicLink | Other

  datatype Entry = Entry(path: Path, kind: EntryKind)

  datatype MoveResult = Accepted | AlreadyRequested | Rejected(reason: string)

  /** A recursive listing of a directory: each regular file below it once, and nothing else as a file. */
  ghost predicate Lists(listing: seq<Entry>, files: Tree, root: Path) {
    && (forall i :: 0 <= i < |listing| ==> Under(listing[i].path, root))
    && (forall i, k :: 0 <= i < k < |listing| ==> listing[i].path != listing[k].path)
    && (forall i :: 0 <= i < |listing| && listing[i].kind.Regular? ==> listing[i].path in files)
    && (forall p :: p in files && Under(p, root) ==> exists i :: 0 <= i < |listing| && listing[i] == Entry(p, Regular))
  }

  predicate OnlyFilesAndDirectories(listing: seq<Entry>) {
    forall i :: 0 <= i < |listing| ==> listing[i].kind.Regular? || listing[i].kind.Directory?
  }

  ghost predicate Describes(h: Hash, files: Tree, source: Path, entry: Entry, managed: set<Path>, item: Item) {
    && entry.kind.Regular?
    && source + item.relative == entry.path
    && HasHash(h, files, entry.path, item.sha256)
    && (item.managed <==> entry.path in managed && !IsNfo(entry.path))
  }

  /** The items are the regular ones of the first n entries, in order; `origin` says which entry each one came from. */
  ghost predicate Built(
    h: Hash, files: Tree, source: Path, listing: seq<Entry>, n: nat, managed: set<Path>, items: seq<Item>,
    origin: seq<nat>)
    requires n <= |listing|
  {
    && |items| == |origin|
    && (forall i :: 0 <= i < |items| ==>
          origin[i] < n && Describes(h, files, source, listing[origin[i]], managed, items[i]))
    && (forall i, k :: 0 <= i < k < |origin| ==> origin[i] < origin[k])
    && (forall k :: 0 <= k < n && listing[k].kind.Regular? ==> k in origin)
  }

  lemma BuiltWith(
    h: Hash, files: Tree, source: Path, listing: seq<Entry>, n: nat, managed: set<Path>, items: seq<Item>,
    origin: seq<nat>, item: Item)
    requires n < |listing| && Built(h, files, source, listing, n, managed, items, origin)
    requires Describes(h, files, source, listing[n], managed, item)
    ensures Built(h, files, source, listing, n + 1, managed, items + [item], origin + [n])
  {
    var longer := origin + [n];
    forall k | 0 <= k < n + 1 && listing[k].kind.Regular? ensures k in longer {
      if k < n {
        assert k in origin;
      } else {
        assert longer[|origin|] == n;
      }
    }
  }

  lemma BuiltWithout(
    h: Hash, files: Tree, source: Path, listing: seq<Entry>, n: nat, managed: set<Path>, items: seq<Item>,
    origin: seq<nat>)
    requires n < |listing| && Built(h, files, source, listing, n, managed, items, origin)
    requires !listing[n].kind.Regular?
    ensures Built(h, files, source, listing, n + 1, managed, items, origin)
  {
  }

  /** What a failed copy says of the tree it found. */
  predicate CopyFailure(h: Hash, files: Tree, m: Manifest, item: Item, fault: Fault, reason: string) {
    var source, target := m.source + item.relative, m.destination + item.relative;
    if reason == "missing source" then source !in files
    else if reason == "source changed" then source in files && !HasHash(h, files, source, item.sha256)
    else if reason == "destination differs" then target in files && !HasHash(h, files, target, item.sha256)
    else if reason == "copy hash mismatch" then
      target !in files && fault.Corrupt? && h(fault.stored) != item.sha256
    else fault.Raise? && reason == "input/output error"
  }

  /** What a failed removal says of the tree it found. */
  ghost predicate RemovalFailure(h: Hash, files: Tree, m: Manifest, item: Item, fault: Fault, reason: string) {
    var source, target := m.source + item.relative, m.destination + item.relative;
    && item.managed
    && if reason == "relocated output failed verification" then !HasHash(h, files, target, item.sha256)
       else if reason == "old output changed" then
         HasHash(h, files, target, item.sha256) && source in files && !HasHash(h, files, source, item.sha256)
       else fault.Raise? && reason == "input/output error"
  }

  /** The first thing a request to move runs into. */
  ghost predicate IsRefused(
    h: Hash, w: World, destination: Path, browseRoots: seq<Path>, inputRoots: seq<Path>, activeAttempt: bool,
    existing: seq<Entry>, r: MoveResult)
  {
    if forall i :: 0 <= i < |browseRoots| ==> !Under(destination, browseRoots[i]) then
      r == Rejected("path is outside the container storage mounts")
    else if w.config.state == Migrating then
      && w.config.migration.Some?
      && r == if destination == w.config.migration.value.manifest.destination then AlreadyRequested
              else Rejected("another output migration is already active")
    else if exists i :: 0 <= i < |inputRoots| && Overlaps(destination, inputRoots[i]) then
      r == Rejected("output root must not overlap an input root")
    else if destination == w.config.outputRoot then r == AlreadyRequested
    else if Overlaps(w.config.outputRoot, destination) then
      r == Rejected("old and new output roots must not overlap")
    else if |existing| > 0 then r == Rejected("new output root must be empty")
    else if activeAttempt then
      r == Rejected("output root cannot move while publication recovery is active")
    else if !CurrentResolve(h, w) then
      r == Rejected("current publication hash mismatch")
    else r == Rejected("output migration requires regular files")
  }

  /** Every current publication under the configured root has its recorded bytes. */
  ghost predicate CurrentResolve(h: Hash, w: World) {
    forall key :: IsCurrentUnder(w, key) ==> Resolves(h, w, key)
  }

  ghost predicate IsCurrentUnder(w: World, key: string) {
    && key in w.publications && w.publications[key].current
    && Under(w.publications[key].path, w.config.outputRoot)
  }

  class Storage {
    const hash: Hash
    var files: Tree
    var config: Config
    var publications: map<string, Publication>
    var artwork: map<string, Option<Path>>

    constructor (hash: Hash, world: World)
      ensures this.hash == hash && State() == world
    {
      this.hash := hash;
      files, config := world.files, world.config;
      publications, artwork := world.publications, world.artwork;
    }

    function State(): World
      reads this
    {
      World(files, config, publications, artwork)
    }

    method CopyFile(m: Manifest, item: Item, fault: Fault) returns (result: StepResult)
      modifies this`files
      ensures Effect(files, result) == CopyEffect(hash, old(files), m, item, fault)
      ensures files - {m.destination + item.relative, m.Temporary()}
              == old(files) - {m.destination + item.relative, m.Temporary()}
      ensures m.destination + item.relative in old(files) ==> files == old(files)
      ensures result.Done? ==>
                && HasHash(hash, old(files), m.source + item.relative, item.sha256)
                && HasHash(hash, files, m.destination + item.relative, item.sha256)
      ensures result.Failed? ==> CopyFailure(hash, old(files), m, item, fault, result.reason)
    {
      var source, target, temporary := m.source + item.relative, m.destination + item.relative, m.Temporary();
      var interrupted := Interrupted(fault, Reading);
      if interrupted.Some? {
        return interrupted.value;
      }
      if source !in files {
        return Failed("missing source");
      }
      if hash(files[source]) != item.sha256 {
        return Failed("source changed");
      }
      if target in files {
        return if hash(files[target]) == item.sha256 then FinishedResult(fault) else Failed("destination differs");
      }
      match fault {
        case Raise(Writing(partial)) =>
          files := files[temporary := partial];
          return Failed("input/output error");
        case Crash(Writing(partial)) =>
          files := files[temporary := partial];
          return Crashed;
        case _ =>
      }
      files := files[temporary := if fault.Corrupt? then fault.stored else files[source]];
      interrupted := Interrupted(fault, Written);
      if interrupted.Some? {
        return interrupted.value;
      }
      if hash(files[temporary]) != item.sha256 {
        return Failed("copy hash mismatch");
      }
      var stored := files[temporary];
      assert files - {temporary} == old(files) - {temporary};
      files := (files - {temporary})[target := stored];
      result := FinishedResult(fault);
    }

    /** Removes a managed old file only where the new copy stands verified and the old one is what was copied. */
    method RemoveManagedCopy(m: Manifest, item: Item, fault: Fault) returns (result: StepResult)
      modifies this`files
      ensures Effect(files, result) == RemoveEffect(hash, old(files), m, item, fault)
      ensures files != old(files) ==>
                && item.managed && files == old(files) - {m.source + item.relative}
                && HasHash(hash, old(files), m.destination + item.relative, item.sha256)
                && HasHash(hash, old(files), m.source + item.relative, item.sha256)
      ensures result.Failed? ==> RemovalFailure(hash, old(files), m, item, fault, result.reason)
      ensures item.managed && result.Done? ==>
                && m.source + item.relative !in files
                && HasHash(hash, old(files), m.destination + item.relative, item.sha256)
    {
      var commit := if fault == Crash(BeforeCommit) then Crashed else Done;
      if !item.managed {
        return commit;
      }
      var source, target := m.source + item.relative, m.destination + item.relative;
      var interrupted := Interrupted(fault, Reading);
      if interrupted.Some? {
        return interrupted.value;
      }
      if target !in files || hash(files[target]) != item.sha256 {
        return Failed("relocated output failed verification");
      }
      if source !in files {
        return commit;
      }
      if hash(files[source]) != item.sha256 {
        return Failed("old output changed");
      }
      files := files - {source};
      result := FinishedResult(fault);
    }

    method VerifyDestination(m: Manifest) returns (copied: bool)
      ensures copied == AllCopied(hash, files, m)
    {
      for i := 0 to |m.files|
        invariant forall k :: 0 <= k < i ==> HasHash(hash, files, m.DestinationOf(k), m.files[k].sha256)
      {
        if m.DestinationOf(i) !in files || hash(files[m.DestinationOf(i)]) != m.files[i].sha256 {
          return false;
        }
      }
      return true;
    }

    method RebasePublicationRows(m: Manifest)
      modifies this`publications
      ensures publications == RebasedPublications(old(publications), m)
    {
      var pending := publications.Keys;
      while pending != {}
        invariant pending <= publications.Keys == old(publications).Keys
        invariant forall id :: id in publications ==>
                    publications[id] == if id in pending then old(publications)[id]
                                        else RebasedPublications(old(publications), m)[id]
        decreases |pending|
      {
        var id :| id in pending;
        var row := publications[id];
        if Under(row.path, m.source) {
          publications := publications[id := row.(path := m.destination + row.path[|m.source|..])];
        }
        pending := pending - {id};
      }
    }

    method RebaseArtworkRows(m: Manifest)
      modifies this`artwork
      ensures artwork == RebasedArtwork(old(artwork), m)
    {
      var pending := artwork.Keys;
      while pending != {}
        invariant pending <= artwork.Keys == old(artwork).Keys
        invariant forall id :: id in artwork ==>
                    artwork[id] == if id in pending then old(artwork)[id] else RebasedArtwork(old(artwork), m)[id]
        decreases |pending|
      {
        var id :| id in pending;
        var path := artwork[id];
        if path.Some? && Under(path.value, m.source) {
          artwork := artwork[id := Some(m.destination + path.value[|m.source|..])];
        }
        pending := pending - {id};
      }
    }

    /** One bounded, committed step of the relocation. */
    method ResumeMigration(fault: Fault) returns (outcome: Outcome)
      modifies this
      ensures (State(), outcome) == Resume(hash, old(State()), fault)
    {
      if config.state.Ready? {
        return Idle;
      }
      if config.migration.None? {
        return Raised("invalid journal");
      }
      var journal := config.migration.value;
      var pending, result := config, Done;
      if journal.cursor < |journal.manifest.files| {
        var item := journal.manifest.files[journal.cursor];
        if journal.phase.Copying? {
          result := CopyFile(journal.manifest, item, fault);
        } else {
          result := RemoveManagedCopy(journal.manifest, item, fault);
        }
        if result.Done? {
          journal := journal.(cursor := journal.cursor + 1);
        }
      } else if journal.phase.Copying? {
        var copied := VerifyDestination(journal.manifest);
        result :=
          if Interrupted(fault, Reading).Some? then Interrupted(fault, Reading).value
          else if !copied then Failed("output hash mismatch")
          else if fault == Crash(BeforeCommit) then Crashed else Done;
        if result.Done? {
          RebasePublicationRows(journal.manifest);
          RebaseArtworkRows(journal.manifest);
          pending := pending.(outputRoot := journal.manifest.destination, generation := pending.generation + 1);
          journal := journal.(phase := Cleanup, cursor := 0);
        }
      } else {
        result := if fault == Crash(BeforeCommit) then Crashed else Done;
        if result.Done? {
          pending, journal := pending.(state := Ready), journal.(phase := Complete);
        }
      }
      match result {
        case Crashed =>
          outcome := Lost;
        case Failed(reason) =>
          config := config.(migration := Some(journal.(failureReason := Some(reason))));
          outcome := Raised(reason);
        case Done =>
          config := pending.(migration := Some(journal.(failureReason := None)));
          outcome := Committed;
      }
    }

    /** The manifest of the old tree, or nothing when it holds a link or a special file. */
    method BuildMigration(id: string, source: Path, destination: Path, listing: seq<Entry>, managed: set<Path>)
      returns (r: Option<Manifest>)
      requires Lists(listing, files, source) && !Overlaps(source, destination)
      requires forall i :: 0 <= i < |listing| ==> listing[i].path != source + [".music-ingest-move-" + id]
      ensures r.Some? <==> OnlyFilesAndDirectories(listing)
      ensures r.Some? ==> r.value.id == id && r.value.source == source && r.value.destination == destination
      ensures r.Some? ==> WellFormed(r.value)
      ensures r.Some? ==> forall i :: 0 <= i < |r.value.files| ==>
                            HasHash(hash, files, r.value.SourceOf(i), r.value.files[i].sha256)
                            && (r.value.files[i].managed <==>
                                r.value.SourceOf(i) in managed && !IsNfo(r.value.SourceOf(i)))
      ensures r.Some? ==> forall p :: p in files && Under(p, source) ==> IsSource(r.value, p)
    {
      var items, origin := ListFiles(source, listing, managed);
      if items.None? {
        return None;
      }
      var m := Manifest(id, source, destination, items.value);
      ManifestWellFormed(hash, files, m, listing, managed, origin);
      ManifestCovers(hash, files, m, listing, managed, origin);
      return Some(m);
    }

    /**
       One item for each regular file, in listing order; nothing when the listing holds anything but
       files and directories.
     */
    method ListFiles(source: Path, listing: seq<Entry>, managed: set<Path>)
      returns (r: Option<seq<Item>>, ghost origin: seq<nat>)
      requires Lists(listing, files, source)
      ensures r.Some? <==> OnlyFilesAndDirectories(listing)
      ensures r.Some? ==> Built(hash, files, source, listing, |listing|, managed, r.value, origin)
    {
      var items: seq<Item> := [];
      origin := [];
      for n := 0 to |listing|
        invariant forall i :: 0 <= i < n ==> listing[i].kind.Regular? || listing[i].kind.Directory?
        invariant Built(hash, files, source, listing, n, managed, items, origin)
      {
        var path := listing[n].path;
        if listing[n].kind.SymbolicLink? || listing[n].kind.Other? {
          return None, origin;
        }
        if listing[n].kind.Regular? {
          assert source + path[|source|..] == path;
          var item := Item(path[|source|..], hash(files[path]), path in managed && !IsNfo(path));
          BuiltWith(hash, files, source, listing, n, managed, items, origin, item);
          items := items + [item];
          origin := origin + [n];
        } else {
          BuiltWithout(hash, files, source, listing, n, managed, items, origin);
        }
      }
      r := Some(items);
    }

    /** Paths some publication or artwork row names. */
    function ManagedPaths(): set<Path>
      reads this
    {
      (set key | key in publications :: publications[key].path)
      + set key | key in artwork && artwork[key].Some? :: artwork[key].value
    }

    method CurrentPublicationsResolve() returns (all: bool)
      ensures all <==> CurrentResolve(hash, State())
    {
      all := !exists key :: key in publications && publications[key].current
                            && Under(publications[key].path, config.outputRoot) && !Resolves(hash, State(), key);
    }

    /** Persist a relocation request; any rejection leaves everything as it was. */
    method MoveOutput(
      id: string, destination: Path, browseRoots: seq<Path>, inputRoots: seq<Path>, activeAttempt: bool,
      listing: seq<Entry>, existing: seq<Entry>) returns (r: MoveResult)
      requires Lists(listing, files, config.outputRoot) && Lists(existing, files, destination)
      requires forall i :: 0 <= i < |listing| ==> listing[i].path != config.outputRoot + [".music-ingest-move-" + id]
      requires config.state.Migrating? ==> config.migration.Some?
      modifies this`config
      ensures !r.Accepted? ==> State() == old(State())
      ensures !r.Accepted? ==>
                IsRefused(hash, State(), destination, browseRoots, inputRoots, activeAttempt, existing, r)
      ensures r.Accepted? ==> Started(hash, State())
      ensures r.Accepted? ==> config.migration.value.manifest.id == id
      ensures r.Accepted? ==> config.migration.value.manifest.destination == destination
      ensures r.Accepted? ==>
                var m := config.migration.value.manifest;
                forall p :: p in files && Under(p, old(config).outputRoot) ==> IsSource(m, p)
      ensures r.Accepted? ==> MarkedByRows(State())
      ensures r.Accepted? ==> config.generation == old(config).generation && config.outputRoot == old(config).outputRoot
      ensures r.AlreadyRequested? ==>
                destination == if old(config).state.Migrating? then old(config).migration.value.manifest.destination
                               else old(config).outputRoot
      ensures r.Accepted? <==>
              && old(config).state.Ready?
              && (exists i :: 0 <= i < |browseRoots| && Under(destination, browseRoots[i]))
              && (forall i :: 0 <= i < |inputRoots| ==> !Overlaps(destination, inputRoots[i]))
              && !Overlaps(old(config).outputRoot, destination)
              && existing == []
              && !activeAttempt
              && CurrentResolve(hash, old(State()))
              && OnlyFilesAndDirectories(listing)
    {
      var refusal := RefuseMove(destination, browseRoots, inputRoots, activeAttempt, existing);
      if refusal.Some? {
        return refusal.value;
      }
      var started := StartMove(id, destination, listing);
      return if started then Accepted else Rejected("output migration requires regular files");
    }

    /** Journal the manifest of the old root; a root that holds a link or a special file is left alone. */
    method StartMove(id: string, destination: Path, listing: seq<Entry>) returns (started: bool)
      requires Lists(listing, files, config.outputRoot) && !Overlaps(config.outputRoot, destination)
      requires forall i :: 0 <= i < |listing| ==> listing[i].path != config.outputRoot + [".music-ingest-move-" + id]
      requires forall p :: p in files ==> !Under(p, destination)
      requires forall key :: IsCurrentUnder(State(), key) ==> Resolves(hash, State(), key)
      modifies this`config
      ensures started <==> OnlyFilesAndDirectories(listing)
      ensures !started ==> config == old(config)
      ensures started ==> Started(hash, State()) && MarkedByRows(State())
      ensures started ==> config.migration.value.manifest.id == id
      ensures started ==> config.migration.value.manifest.destination == destination
      ensures started ==>
                var m := config.migration.value.manifest;
                forall p :: p in files && Under(p, old(config).outputRoot) ==> IsSource(m, p)
      ensures config.generation == old(config).generation && config.outputRoot == old(config).outputRoot
    {
      var manifest := BuildMigration(id, config.outputRoot, destination, listing, ManagedPaths());
      if manifest.None? {
        return false;
      }
      config := config.(migration := Some(Journal(manifest.value, Copying, 0, None)), state := Migrating);
      RowsMark(State(), ManagedPaths());
      assert forall key :: IsOwnedCurrent(State(), manifest.value, key) ==>
               IsCurrentUnder(old(State()), key) && Resolves(hash, old(State()), key);
      return true;
    }

    /** The checks before a manifest is built, in order; nothing when the move may start. */
    method RefuseMove(
      destination: Path, browseRoots: seq<Path>, inputRoots: seq<Path>, activeAttempt: bool, existing: seq<Entry>)
      returns (r: Option<MoveResult>)
      requires config.state.Migrating? ==> config.migration.Some?
      ensures r.Some? ==> !r.value.Accepted?
      ensures r.Some? ==>
                IsRefused(hash, State(), destination, browseRoots, inputRoots, activeAttempt, existing, r.value)
      ensures r.None? <==>
              && config.state.Ready?
              && (exists i :: 0 <= i < |browseRoots| && Under(destination, browseRoots[i]))
              && (forall i :: 0 <= i < |inputRoots| ==> !Overlaps(destination, inputRoots[i]))
              && !Overlaps(config.outputRoot, destination) && existing == [] && !activeAttempt
              && CurrentResolve(hash, State())
    {
      if forall i :: 0 <= i < |browseRoots| ==> !Under(destination, browseRoots[i]) {
        return Some(Rejected("path is outside the container storage mounts"));
      }
      if config.state.Migrating? {
        return Some(if config.migration.value.manifest.destination == destination then AlreadyRequested
                    else Rejected("another output migration is already active"));
      }
      if exists i :: 0 <= i < |inputRoots| && Overlaps(destination, inputRoots[i]) {
        return Some(Rejected("output root must not overlap an input root"));
      }
      r := RefuseContents(destination, activeAttempt, existing);
    }

    /** The checks against the old root, the new root's contents and the publications. */
    method RefuseContents(destination: Path, activeAttempt: bool, existing: seq<Entry>)
      returns (r: Option<MoveResult>)
      ensures r == if destination == config.outputRoot then Some(AlreadyRequested)
                   else if Overlaps(config.outputRoot, destination) then
                     Some(Rejected("old and new output roots must not overlap"))
                   else if |existing| > 0 then Some(Rejected("new output root must be empty"))
                   else if activeAttempt then
                     Some(Rejected("output root cannot move while publication recovery is active"))
                   else if CurrentResolve(hash, State()) then None
                   else Some(Rejected("current publication hash mismatch"))
    {
      if config.outputRoot == destination {
        return Some(AlreadyRequested);
      }
      if Overlaps(config.outputRoot, destination) {
        return Some(Rejected("old and new output roots must not overlap"));
      }
      if existing != [] {
        return Some(Rejected("new output root must be empty"));
      }
      if activeAttempt {
        return Some(Rejected("output root cannot move while publication recovery is active"));
      }
      var resolve := CurrentPublicationsResolve();
      if !resolve {
        return Some(Rejected("current publication hash mismatch"));
      }
      return None;
    }
  }

  /** Marked by the set of all paths that rows name, a manifest is marked by the rows. */
  lemma RowsMark(w: World, managed: set<Path>)
    requires w.config.migration.Some?
    requires managed == (set key | key in w.publications :: w.publications[key].path)
                        + set key | key in w.artwork && w.artwork[key].Some? :: w.artwork[key].value
    requires var m := w.config.migration.value.manifest;
             forall i :: 0 <= i < |m.files| ==>
               (m.files[i].managed <==> m.SourceOf(i) in managed && !IsNfo(m.SourceOf(i)))
    ensures MarkedByRows(w)
  {
    var m := w.config.migration.value.manifest;
    forall i | 0 <= i < |m.files| {
      NfoNames(m.SourceOf(i));
    }
  }

  lemma ManifestWellFormed(
    h: Hash, files: Tree, m: Manifest, listing: seq<Entry>, managed: set<Path>, origin: seq<nat>)
    requires !Overlaps(m.source, m.destination)
    requires Built(h, files, m.source, listing, |listing|, managed, m.files, origin)
    requires forall i, k :: 0 <= i < k < |listing| ==> listing[i].path != listing[k].path
    requires forall i :: 0 <= i < |listing| ==> listing[i].path != m.source + [".music-ingest-move-" + m.id]
    ensures WellFormed(m)
  {
    forall i | 0 <= i < |m.files| ensures m.DestinationOf(i) != m.Temporary() {
      assert m.SourceOf(i) == listing[origin[i]].path;
      assert m.DestinationOf(i)[|m.destination|..] == m.files[i].relative;
      assert m.Temporary()[|m.destination|..] == [".music-ingest-move-" + m.id];
    }
    forall i, k | 0 <= i < k < |m.files| ensures m.files[i].relative != m.files[k].relative {
      assert m.SourceOf(i) == listing[origin[i]].path && m.SourceOf(k) == listing[origin[k]].path;
    }
  }

  lemma ManifestCovers(h: Hash, files: Tree, m: Manifest, listing: seq<Entry>, managed: set<Path>, origin: seq<nat>)
    requires Built(h, files, m.source, listing, |listing|, managed, m.files, origin) && Lists(listing, files, m.source)
    ensures forall p :: p in files && Under(p, m.source) ==> IsSource(m, p)
  {
    forall p | p in files && Under(p, m.source) ensures IsSource(m, p) {
      var k :| 0 <= k < |listing| && listing[k] == Entry(p, Regular);
      var i :| 0 <= i < |origin| && origin[i] == k;
      assert m.SourceOf(i) == p;
    }
  }
}
