/**
 Relocation of the managed output library between two roots.

 A journal (manifest, phase, cursor) is advanced one committed step at a time.
 A step may raise, or the process may die, between any file effect and the commit.
 Faults are inputs of a step, so a run is a sequence of faults.
 */
module StorageRelocation {
  import opened Wrappers

  type Path = seq<string>
  type Content = seq<bv8>
  type Digest = string
  type Hash = Content -> Digest
  type Tree = map<Path, Content>

  datatype Item = Item(relative: Path, sha256: Digest, managed: bool)

  datatype Phase = Copying | Cleanup | Complete

  /** The part of a journal that no step changes. */
  datatype Manifest = Manifest(id: string, source: Path, destination: Path, files: seq<Item>) {
    function SourceOf(i: nat): Path
      requires i < |files|
    {
      source + files[i].relative
    }

    function DestinationOf(i: nat): Path
      requires i < |files|
    {
      destination + files[i].relative
    }

    function Temporary(): Path {
      destination + [".music-ingest-move-" + id]
    }
  }

  datatype Journal = Journal(manifest: Manifest, phase: Phase, cursor: nat, failureReason: Option<string>)

  datatype StorageState = Ready | Migrating

  datatype Config = Config(outputRoot: Path, state: StorageState, generation: nat, migration: Option<Journal>)

  datatype Publication = Publication(path: Path, contentSha256: Digest, current: bool)

  datatype World = World(
    files: Tree, config: Config, publications: map<string, Publication>, artwork: map<string, Option<Path>>)

  /** Where a step is interrupted. `BeforeCommit` is after every file effect of the step. */
  datatype Point = Reading | Writing(partial: Content) | Written | BeforeCommit

  /** `Corrupt` stands for a copy that reports success and stores other bytes. */
  datatype Fault = NoFault | Corrupt(stored: Content) | Raise(raisedAt: Point) | Crash(crashedAt: Point)

  datatype StepResult = Done | Failed(reason: string) | Crashed

  datatype Effect = Effect(files: Tree, result: StepResult)

  datatype Outcome = Idle | Committed | Raised(reason: string) | Lost

  // ---------------------------------------------------------------- paths

  predicate Under(path: Path, root: Path) {
    root <= path
  }

  predicate Overlaps(left: Path, right: Path) {
    Under(left, right) || Under(right, left)
  }

  function Rebase(path: Path, origin: Path, target: Path): Path {
    if Under(path, origin) then target + path[|origin|..] else path
  }

  /** The suffix of a file name: from its last dot, unless that dot starts or ends the name. */
  function Suffix(name: string): string {
    var dot := LastDot(name);
    if 0 < dot < |name| - 1 then name[dot..] else ""
  }

  function LastDot(name: string): (dot: int)
    ensures -1 <= dot < |name|
    ensures dot >= 0 ==> name[dot] == '.'
    ensures forall k :: dot < k < |name| ==> name[k] != '.'
  {
    if name == "" then -1
    else if name[|name| - 1] == '.' then |name| - 1
    else LastDot(name[..|name| - 1])
  }

  function Lower(c: char): char {
    if 'A' <= c <= 'Z' then (c as int + 32) as char else c
  }

  predicate IsNfo(path: Path) {
    && path != []
    && var suffix := Suffix(path[|path| - 1]);
       |suffix| == 4 && Lower(suffix[1]) == 'n' && Lower(suffix[2]) == 'f' && Lower(suffix[3]) == 'o'
  }

  // ---------------------------------------------------------------- one step

  predicate HasHash(h: Hash, files: Tree, path: Path, digest: Digest) {
    path in files && h(files[path]) == digest
  }

  function Interrupted(fault: Fault, at: Point): Option<StepResult> {
    if fault == Raise(at) then Some(Failed("input/output error"))
    else if fault == Crash(at) then Some(Crashed)
    else None
  }

  function CopyEffect(h: Hash, files: Tree, m: Manifest, item: Item, fault: Fault): Effect {
    var source, target, temporary := m.source + item.relative, m.destination + item.relative, m.Temporary();
    if Interrupted(fault, Reading).Some? then Effect(files, Interrupted(fault, Reading).value)
    else if source !in files then Effect(files, Failed("missing source"))
    else if h(files[source]) != item.sha256 then Effect(files, Failed("source changed"))
    else if target in files then
      if h(files[target]) == item.sha256 then Effect(files, FinishedResult(fault))
      else Effect(files, Failed("destination differs"))
    else if (fault.Raise? && fault.raisedAt.Writing?) then
      Effect(files[temporary := fault.raisedAt.partial], Failed("input/output error"))
    else if (fault.Crash? && fault.crashedAt.Writing?) then
      Effect(files[temporary := fault.crashedAt.partial], Crashed)
    else
      var stored := if fault.Corrupt? then fault.stored else files[source];
      if Interrupted(fault, Written).Some? then
        Effect(files[temporary := stored], Interrupted(fault, Written).value)
      else if h(stored) != item.sha256 then Effect(files[temporary := stored], Failed("copy hash mismatch"))
      else Effect((files - {temporary})[target := stored], FinishedResult(fault))
  }

  function FinishedResult(fault: Fault): StepResult {
    match Interrupted(fault, BeforeCommit)
    case Some(result) => result
    case None => Done
  }

  function RemoveEffect(h: Hash, files: Tree, m: Manifest, item: Item, fault: Fault): Effect {
    var source, target := m.source + item.relative, m.destination + item.relative;
    if !item.managed then Effect(files, if fault == Crash(BeforeCommit) then Crashed else Done)
    else if Interrupted(fault, Reading).Some? then Effect(files, Interrupted(fault, Reading).value)
    else if !HasHash(h, files, target, item.sha256) then Effect(files, Failed("relocated output failed verification"))
    else if source !in files then Effect(files, if fault == Crash(BeforeCommit) then Crashed else Done)
    else if h(files[source]) != item.sha256 then Effect(files, Failed("old output changed"))
    else Effect(files - {source}, FinishedResult(fault))
  }

  predicate AllCopied(h: Hash, files: Tree, m: Manifest) {
    forall i :: 0 <= i < |m.files| ==> HasHash(h, files, m.DestinationOf(i), m.files[i].sha256)
  }

  /** The rows after the switch: every path under the old root moves to the new one. */
  function RebasedPublications(rows: map<string, Publication>, m: Manifest): map<string, Publication> {
    map id | id in rows :: rows[id].(path := Rebase(rows[id].path, m.source, m.destination))
  }

  function RebasedArtwork(rows: map<string, Option<Path>>, m: Manifest): map<string, Option<Path>> {
    map id | id in rows ::
      match rows[id]
      case None => None
      case Some(path) => Some(Rebase(path, m.source, m.destination))
  }

  /** Commit, record a failure, or lose everything but the file effects. */
  function Settle(w: World, files: Tree, result: StepResult, committed: World): (World, Outcome) {
    match result
    case Done => (committed.(files := files), Committed)
    case Crashed => (w.(files := files), Lost)
    case Failed(reason) =>
      var j := if w.config.migration.Some?
        then Some(w.config.migration.value.(failureReason := Some(reason))) else None;
      (w.(files := files, config := w.config.(migration := j)), Raised(reason))
  }

  function WithJournal(w: World, j: Journal): World {
    w.(config := w.config.(migration := Some(j.(failureReason := None))))
  }

  function Resume(h: Hash, w: World, fault: Fault): (World, Outcome) {
    if w.config.state.Ready? then (w, Idle)
    else if w.config.migration.None? then (w, Raised("invalid journal"))
    else
      var j := w.config.migration.value;
      var m := j.manifest;
      if j.cursor < |m.files| then
        var item := m.files[j.cursor];
        var effect :=
          if j.phase.Copying? then CopyEffect(h, w.files, m, item, fault) else RemoveEffect(h, w.files, m, item, fault);
        Settle(w, effect.files, effect.result, WithJournal(w, j.(cursor := j.cursor + 1)))
      else if j.phase.Copying? then
        var result :=
          if Interrupted(fault, Reading).Some? then Interrupted(fault, Reading).value
          else if !AllCopied(h, w.files, m) then Failed("output hash mismatch")
          else if fault == Crash(BeforeCommit) then Crashed
          else Done;
        var switched := World(
          w.files,
          w.config.(outputRoot := m.destination, generation := w.config.generation + 1),
          RebasedPublications(w.publications, m), RebasedArtwork(w.artwork, m));
        Settle(w, w.files, result, WithJournal(switched, j.(phase := Cleanup, cursor := 0)))
      else
        var result := if fault == Crash(BeforeCommit) then Crashed else Done;
        Settle(w, w.files, result, WithJournal(w.(config := w.config.(state := Ready)), j.(phase := Complete)))
  }

  function Run(h: Hash, w: World, faults: seq<Fault>): World {
    if faults == [] then w
    else Resume(h, Run(h, w, faults[..|faults| - 1]), faults[|faults| - 1]).0
  }

  /** Committed successful steps of a run. */
  function CommittedSteps(h: Hash, w: World, faults: seq<Fault>): nat {
    if faults == [] then 0
    else
      var before := faults[..|faults| - 1];
      CommittedSteps(h, w, before)
      + if Resume(h, Run(h, w, before), faults[|faults| - 1]).1.Committed? then 1 else 0
  }
}
