/** Per-field text reinterpretation of a source: what a request previews, what it writes, and who has to redo work. */
module SourceEncoding {
  import opened Wrappers
  import JobQueue

  type Bytes = seq<bv8>

  /** Text codecs: strict conversions that may fail, with no further law assumed. */
  datatype Codecs = Codecs(encode: (string, string) -> Option<Bytes>, decode: (string, Bytes) -> Option<string>)

  datatype Mode =
    Keep | Original | DecodeRaw(decode: string) | Unicode(encode: string, decode: string) | Recover(decode: string)

  datatype Choice = Choice(field: int, mode: Mode)

  datatype Field = Field(
    value: string, original: Option<string>, prepared: Option<Bytes>, declared: Option<string>,
    applied: Option<Choice>, origin: Option<string>)

  datatype PreviewError =
    | UnknownField
    | RawEvidenceUnavailable
    | InverseRoundtripFailed
    | NulNotAllowed
    | StrictConversionFailed

  datatype Preview = Preview(field: int, value: Option<string>, changed: bool, error: Option<PreviewError>)

  type Fields = map<int, Field>

  // ---------------------------------------------------------------- previews

  /** The value a field had before anything was applied to it. */
  function OriginalOf(f: Field): string {
    if f.original.Some? then f.original.value else f.value
  }

  const BYTE_CODECS: set<string> := {"latin-1", "cp1252", "cp1251", "cp866", "koi8-r"}
  const MISTAKEN: seq<string> := ["latin-1", "cp1252"]

  /** Text as if its bytes had been read with the wrong codec. */
  function Reread(cs: Codecs, text: string, written: string, read: string): Option<string> {
    var bytes := cs.encode(written, text);
    if bytes.None? then None else cs.decode(read, bytes.value)
  }

  /** A rereading counts when reading it back the other way gives the text again. */
  function Candidate(cs: Codecs, original: string, mistaken: string, codec: string): Option<string> {
    var value := Reread(cs, original, mistaken, codec);
    if value.None? || Reread(cs, value.value, codec, mistaken) != Some(original) then None else value
  }

  /** The distinct rereadings over the first n codecs the text may have been mistaken for. */
  function CandidateSet(cs: Codecs, original: string, codec: string, n: nat): set<string>
    requires n <= |MISTAKEN|
  {
    if n == 0 then {}
    else CandidateSet(cs, original, codec, n - 1) + Values(Candidate(cs, original, MISTAKEN[n - 1], codec))
  }

  function Values(v: Option<string>): set<string> {
    if v.None? then {} else {v.value}
  }

  function OnlyMember(texts: set<string>): Option<string> {
    if t :| t in texts && texts == {t} then Some(t) else None
  }

  function RecoverCodec(cs: Codecs, f: Field, codec: string): Option<string> {
    if f.prepared.Some? && f.declared.Some? && f.declared.value in BYTE_CODECS then
      var value := cs.decode(codec, f.prepared.value);
      if value.None? || cs.encode(codec, value.value) != f.prepared then None else value
    else OnlyMember(CandidateSet(cs, OriginalOf(f), codec, |MISTAKEN|))
  }

  /** The converted text and a complaint about it; nothing when a strict conversion fails. */
  function Convert(cs: Codecs, f: Field, mode: Mode): Option<(string, Option<PreviewError>)> {
    match mode
    case Keep => Some((f.value, None))
    case Original => Some((OriginalOf(f), None))
    case Recover(codec) =>
      var value := RecoverCodec(cs, f, codec);
      if value.None? then None else Some((value.value, None))
    case DecodeRaw(codec) =>
      if f.prepared.None? then Some((f.value, Some(RawEvidenceUnavailable)))
      else
        var value := cs.decode(codec, f.prepared.value);
        if value.None? then None else Some((value.value, None))
    case Unicode(encode, decode) =>
      var value := Reread(cs, f.value, encode, decode);
      if value.None? then None
      else
        var inverse := Reread(cs, value.value, decode, encode);
        if inverse.None? then None
        else Some((value.value, if inverse.value == f.value then None else Some(InverseRoundtripFailed)))
  }

  function PreviewField(cs: Codecs, f: Field, choice: Choice): Preview {
    var converted := Convert(cs, f, choice.mode);
    if converted.None? then Preview(choice.field, None, false, Some(StrictConversionFailed))
    else if '\0' in converted.value.0 then Preview(choice.field, None, false, Some(NulNotAllowed))
    else if converted.value.1.Some? then Preview(choice.field, None, false, converted.value.1)
    else Preview(choice.field, Some(converted.value.0), converted.value.0 != f.value, None)
  }

  function PreviewChoice(cs: Codecs, fields: Fields, choice: Choice): Preview {
    if choice.field in fields then PreviewField(cs, fields[choice.field], choice)
    else Preview(choice.field, None, false, Some(UnknownField))
  }

  // ---------------------------------------------------------------- requests

  datatype Request = Request(expected: nat, choices: seq<Choice>)

  /** What request validation guarantees: no field is chosen twice. */
  predicate WellFormed(request: Request) {
    forall i, k :: 0 <= i < k < |request.choices| ==> request.choices[i].field != request.choices[k].field
  }

  predicate AllValid(cs: Codecs, fields: Fields, choices: seq<Choice>) {
    forall i :: 0 <= i < |choices| ==> PreviewChoice(cs, fields, choices[i]).error.None?
  }

  predicate TextChanged(cs: Codecs, fields: Fields, choices: seq<Choice>) {
    exists i :: 0 <= i < |choices| && PreviewChoice(cs, fields, choices[i]).changed
  }

  predicate DecisionChanged(fields: Fields, choices: seq<Choice>, origin: string) {
    exists i :: 0 <= i < |choices| && NewDecision(fields, choices[i], origin)
  }

  predicate NewDecision(fields: Fields, choice: Choice, origin: string) {
    && choice.mode != Keep && choice.field in fields
    && (fields[choice.field].applied != Some(choice) || fields[choice.field].origin != Some(origin))
  }

  function WriteField(f: Field, value: Option<string>, choice: Choice, origin: string): Field {
    f.(
      original := Some(OriginalOf(f)), value := if value.Some? then value.value else f.value,
      applied := Some(choice), origin := Some(origin))
  }

  /** The fields after the first n choices; every preview looks at the fields as they were. */
  function Written(cs: Codecs, fields: Fields, choices: seq<Choice>, origin: string, n: nat): Fields
    requires n <= |choices|
    decreases n
  {
    if n == 0 then fields
    else
      var before, choice := Written(cs, fields, choices, origin, n - 1), choices[n - 1];
      if choice.mode == Keep || choice.field !in before then before
      else before[choice.field := WriteField(before[choice.field], PreviewChoice(cs, fields, choice).value, choice,
        origin)]
  }

  // ---------------------------------------------------------------- the source and its work

  datatype CandidateRun = CandidateRun(provider: string, revision: nat)

  datatype Event = Event(origin: string, before: nat, after: nat)

  datatype Source = Source(
    id: string, folder: string, replaced: bool, record: Option<string>, revision: nat, fields: Fields,
    runs: seq<CandidateRun>, events: seq<Event>)

  datatype State = State(source: Source, jobs: JobQueue.Queue)

  /** What the database answers besides: a lock not granted, a publication under way, and the names of new rows. */
  datatype Env = Env(locked: bool, publishing: bool, now: int, newRecord: string, newJob: string)

  datatype Failure = ProcessingBusy | RevisionChanged | InvalidChoices

  datatype Applied = Applied(revision: nat, queued: bool)

  const ANALYSIS := "musicbrainz_analysis"
  const MANUAL := "manual"
  const AUTO := "auto"

  /** The jobs that could be reading this source: its own, its record's and its folder's. */
  predicate Concerns(s: Source, j: JobQueue.Job) {
    || j.target == JobQueue.Source(s.id)
    || (s.record.Some? && j.target == JobQueue.Record(s.record.value))
    || j.target == JobQueue.Folder(s.folder)
  }

  function ActiveJobs(s: State): set<string> {
    set id | id in s.jobs && JobQueue.Active(s.jobs[id]) && Concerns(s.source, s.jobs[id])
  }

  predicate Busy(s: State, env: Env) {
    || env.locked || env.publishing
    || exists id ::
       id in ActiveJobs(s)
       && (s.jobs[id].state == JobQueue.Running || s.jobs[id].kind == "filesystem_scan")
  }

  function SupersedeJobs(q: JobQueue.Queue, active: set<string>): JobQueue.Queue {
    map id | id in q :: if id in active && q[id].kind != JobQueue.FOLDER
      then q[id].(state := JobQueue.Superseded) else q[id]
  }

  function CarryJob(j: JobQueue.Job, source: string, before: nat, after: nat): JobQueue.Job {
    if j.target == JobQueue.Source(source) && j.sourceRevision == Some(before)
      then j.(sourceRevision := Some(after)) else j
  }

  function CarryJobs(q: JobQueue.Queue, active: set<string>, source: string, before: nat, after: nat): JobQueue.Queue {
    map id | id in q :: if id in active then CarryJob(q[id], source, before, after) else q[id]
  }

  function CarryRun(run: CandidateRun, before: nat, after: nat): CandidateRun {
    if run.revision == before then run.(revision := after) else run
  }

  function CarryRuns(runs: seq<CandidateRun>, before: nat, after: nat): seq<CandidateRun> {
    seq(|runs|, i requires 0 <= i < |runs| => CarryRun(runs[i], before, after))
  }

  predicate Quiet(cs: Codecs, s: State, request: Request, origin: string) {
    !TextChanged(cs, s.source.fields, request.choices) && !DecisionChanged(s.source.fields, request.choices, origin)
  }

  function Revised(cs: Codecs, s: Source, request: Request, origin: string, retire: bool, env: Env): Source {
    var after := s.revision + 1;
    s.(
      record := Some(if s.record.Some? then s.record.value else env.newRecord),
      revision := after,
      fields := Written(cs, s.fields, request.choices, origin, |request.choices|),
      runs := if retire then s.runs + [CandidateRun("musicbrainz", after)]
        else CarryRuns(s.runs, request.expected, after),
      events := s.events + [Event(origin, request.expected, after)])
  }

  /** Queued work after the write: retired and replaced when the text changed, carried along when it did not. */
  function Requeued(s: State, expected: nat, active: set<string>, retire: bool, env: Env): JobQueue.Queue {
    var after := s.source.revision + 1;
    if retire then
      JobQueue.EnqueueForSource(
        SupersedeJobs(s.jobs, active), s.source.id, ANALYSIS, env.now, None, Some(after), env.newJob)
    else CarryJobs(s.jobs, active, s.source.id, expected, after)
  }

  function Write(
    cs: Codecs, s: State, request: Request, active: set<string>, origin: string, enqueue: bool, env: Env): State
  {
    if Quiet(cs, s, request, origin) then s
    else
      var retire := TextChanged(cs, s.source.fields, request.choices) && enqueue;
      State(Revised(cs, s.source, request, origin, retire, env), Requeued(s, request.expected, active, retire, env))
  }

  /** Why a request is refused, in the order the checks are made. */
  function Refusal(cs: Codecs, s: State, request: Request, env: Env): Option<Failure> {
    if Busy(s, env) then Some(ProcessingBusy)
    else if s.source.revision != request.expected then Some(RevisionChanged)
    else if !AllValid(cs, s.source.fields, request.choices) then Some(InvalidChoices)
    else None
  }

  function Apply(cs: Codecs, s: State, request: Request, origin: string, env: Env): State {
    if Refusal(cs, s, request, env).Some? then s
    else Write(cs, s, request, ActiveJobs(s), origin, true, env)
  }

  /** The recovery at import: no lock, no jobs to retire, nothing to queue. */
  function RecoverImport(cs: Codecs, s: State, choices: seq<Choice>, env: Env): State {
    if !AllValid(cs, s.source.fields, choices) then s
    else Write(cs, s, Request(s.source.revision, choices), {}, AUTO, false, env)
  }

  // ---------------------------------------------------------------- the worker's fence

  /** A claimed job works only on a source still in use, and only on the revision it was queued for. */
  predicate PassesFence(s: Source, j: JobQueue.Job) {
    j.target == JobQueue.Source(s.id) ==>
      !s.replaced
      && (j.sourceRevision.None? || j.sourceRevision == Some(s.revision))
  }

  /** The worker ends a claim as obsolete only at the fence. */
  predicate EndsAtFence(s: State, op: JobQueue.Op) {
    op.Finish? && op.outcome.Obsolete? ==> op.job in s.jobs && !PassesFence(s.source, s.jobs[op.job])
  }

  // ---------------------------------------------------------------- runs

  datatype Op =
    | ApplyRequest(request: Request, origin: string, env: Env)
    | ImportRecovery(choices: seq<Choice>, env: Env)
    | QueueStep(op: JobQueue.Op)

  /** A source's new job takes the source's current revision, and only folders get folder jobs. */
  predicate ReadsRevision(s: Source, op: JobQueue.Op) {
    match op
    case Enqueue(target, kind, _, _) => kind == JobQueue.FOLDER ==> target.Folder?
    case EnqueueSource(source, kind, _, _, revision, _) =>
      kind != JobQueue.FOLDER && (source == s.id ==> revision == Some(s.revision))
    case EnqueueMusicbrainz(source, _, _, revision, _) => source == s.id ==> revision == Some(s.revision)
    case _ => true
  }

  predicate Allowed(s: State, op: Op) {
    match op
    case ApplyRequest(request, origin, env) =>
      WellFormed(request) && (origin == MANUAL || origin == AUTO) && env.newJob !in s.jobs
    case ImportRecovery(choices, _) => WellFormed(Request(s.source.revision, choices))
    case QueueStep(step) => JobQueue.Allowed(s.jobs, step) && ReadsRevision(s.source, step) && EndsAtFence(s, step)
  }

  function Step(cs: Codecs, s: State, op: Op): State
    requires Allowed(s, op)
  {
    match op
    case ApplyRequest(request, origin, env) => Apply(cs, s, request, origin, env)
    case ImportRecovery(choices, env) => RecoverImport(cs, s, choices, env)
    case QueueStep(step) => s.(jobs := JobQueue.Step(s.jobs, step))
  }

  predicate IsRun(cs: Codecs, s: State, ops: seq<Op>)
    decreases |ops|
  {
    ops == [] || (Allowed(s, ops[0]) && IsRun(cs, Step(cs, s, ops[0]), ops[1..]))
  }

  function Run(cs: Codecs, s: State, ops: seq<Op>): State
    requires IsRun(cs, s, ops)
    decreases |ops|
  {
    if ops == [] then s else Run(cs, Step(cs, s, ops[0]), ops[1..])
  }
}
