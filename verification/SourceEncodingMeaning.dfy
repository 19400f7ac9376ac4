/** What a preview shows and a request writes, in terms of the codecs, the fields and the jobs alone. */
module SourceEncodingMeaning {
  import opened Wrappers
  import opened SourceEncoding
  import opened SourceEncodingRuns
  import JobQueue
  import JobQueueSafety
  import JobMeaning

  // ---------------------------------------------------------------- readings

  /** Bytes one codec writes for a text, as the other codec reads them. */
  ghost predicate Converts(cs: Codecs, text: string, written: string, read: string, v: string) {
    exists bytes :: cs.encode(written, text) == Some(bytes) && cs.decode(read, bytes) == Some(v)
  }

  lemma ConvertsMeans(cs: Codecs, text: string, written: string, read: string, v: string)
    ensures Converts(cs, text, written, read, v) <==> Reread(cs, text, written, read) == Some(v)
  {
  }

  /** The text before any choice was applied. */
  ghost predicate IsOriginal(f: Field, v: string) {
    if f.original == None then v == f.value else f.original == Some(v)
  }

  /** The bytes the tag was read from are known, and were read as a codec of single bytes. */
  ghost predicate HasRawBytes(f: Field) {
    && f.prepared != None && f.declared != None
    && f.declared.value in {"latin-1", "cp1252", "cp1251", "cp866", "koi8-r"}
  }

  /** Read as if the text had been mistaken for the given codec, and read back to it. */
  ghost predicate IsReading(cs: Codecs, text: string, mistaken: string, codec: string, v: string) {
    Converts(cs, text, mistaken, codec, v) && Converts(cs, v, codec, mistaken, text)
  }

  /** The raw bytes say so both ways, or the one reading of the original text that can be undone. */
  ghost predicate IsRecovered(cs: Codecs, f: Field, codec: string, v: string) {
    if HasRawBytes(f) then cs.decode(codec, f.prepared.value) == Some(v) && cs.encode(codec, v) == f.prepared
    else exists text :: IsOriginal(f, text) && IsOnlyReading(cs, text, codec, v)
  }

  ghost predicate IsOnlyReading(cs: Codecs, text: string, codec: string, v: string) {
    && (IsReading(cs, text, "latin-1", codec, v) || IsReading(cs, text, "cp1252", codec, v))
    && forall w :: IsReading(cs, text, "latin-1", codec, w) || IsReading(cs, text, "cp1252", codec, w) ==> w == v
  }

  lemma ReadingMeans(cs: Codecs, text: string, mistaken: string, codec: string, v: string)
    ensures IsReading(cs, text, mistaken, codec, v) <==> Candidate(cs, text, mistaken, codec) == Some(v)
  {
    ConvertsMeans(cs, text, mistaken, codec, v);
    ConvertsMeans(cs, v, codec, mistaken, text);
  }

  lemma OnlyReadingMeans(cs: Codecs, text: string, codec: string, v: string)
    ensures var a, b := Candidate(cs, text, "latin-1", codec), Candidate(cs, text, "cp1252", codec);
            IsOnlyReading(cs, text, codec, v) <==>
            (a == Some(v) && (b.None? || b == a)) || (b == Some(v) && (a.None? || a == b))
  {
    forall w
      ensures IsReading(cs, text, "latin-1", codec, w) <==> Candidate(cs, text, "latin-1", codec) == Some(w)
      ensures IsReading(cs, text, "cp1252", codec, w) <==> Candidate(cs, text, "cp1252", codec) == Some(w)
    {
      ReadingMeans(cs, text, "latin-1", codec, w);
      ReadingMeans(cs, text, "cp1252", codec, w);
    }
    var a, b := Candidate(cs, text, "latin-1", codec), Candidate(cs, text, "cp1252", codec);
    assert a.Some? ==> IsReading(cs, text, "latin-1", codec, a.value);
    assert b.Some? ==> IsReading(cs, text, "cp1252", codec, b.value);
  }

  lemma RecoveredMeans(cs: Codecs, f: Field, codec: string, v: string)
    ensures RecoverCodec(cs, f, codec) == Some(v) <==> IsRecovered(cs, f, codec, v)
  {
    RecoveredCodec(cs, f, codec, v);
    OnlyReadingMeans(cs, OriginalOf(f), codec, v);
    assert IsOriginal(f, OriginalOf(f));
  }

  // ---------------------------------------------------------------- previews

  /** The text a choice comes to, before anything is held against it. */
  ghost predicate Yields(cs: Codecs, f: Field, mode: Mode, v: string) {
    match mode
    case Keep => v == f.value
    case Original => IsOriginal(f, v)
    case DecodeRaw(codec) =>
      if f.prepared == None then v == f.value else cs.decode(codec, f.prepared.value) == Some(v)
    case Unicode(encode, decode) =>
      Converts(cs, f.value, encode, decode, v) && exists back :: Converts(cs, v, decode, encode, back)
    case Recover(codec) => IsRecovered(cs, f, codec, v)
  }

  /** A choice without raw bytes to decode. */
  ghost predicate LacksBytes(f: Field, mode: Mode) {
    mode.DecodeRaw? && f.prepared == None
  }

  /** A converted text that does not read back to the one it came from. */
  ghost predicate LosesText(cs: Codecs, f: Field, mode: Mode, v: string) {
    mode.Unicode? && !Converts(cs, v, mode.decode, mode.encode, f.value)
  }

  /** What is shown: the first thing held against the choice, or the text and whether it is another one. */
  ghost predicate IsPreview(cs: Codecs, f: Field, choice: Choice, p: Preview) {
    && p.field == choice.field
    && (p.error == Some(StrictConversionFailed) <==> forall v :: !Yields(cs, f, choice.mode, v))
    && (p.error == Some(NulNotAllowed) <==> exists v :: Yields(cs, f, choice.mode, v) && '\0' in v)
    && (p.error == Some(RawEvidenceUnavailable) <==> LacksBytes(f, choice.mode) && '\0' !in f.value)
    && (p.error == Some(InverseRoundtripFailed) <==>
        exists v :: Yields(cs, f, choice.mode, v) && '\0' !in v && LosesText(cs, f, choice.mode, v))
    && (forall v :: p.value == Some(v) <==> Shows(cs, f, choice.mode, v))
    && (p.error == None <==> p.value != None)
    && (p.changed <==> p.value != None && p.value != Some(f.value))
  }

  /** The choice is good for this text. */
  ghost predicate Shows(cs: Codecs, f: Field, mode: Mode, v: string) {
    Yields(cs, f, mode, v) && '\0' !in v && !LacksBytes(f, mode) && !LosesText(cs, f, mode, v)
  }

  lemma YieldMeans(cs: Codecs, f: Field, mode: Mode, v: string)
    ensures Yields(cs, f, mode, v) <==> Convert(cs, f, mode).Some? && Convert(cs, f, mode).value.0 == v
  {
    match mode
    case Keep =>
    case Original =>
    case DecodeRaw(codec) =>
    case Recover(codec) => RecoveredMeans(cs, f, codec, v);
    case Unicode(encode, decode) => UnicodeMeans(cs, f, encode, decode, v);
  }

  lemma UnicodeMeans(cs: Codecs, f: Field, encode: string, decode: string, v: string)
    ensures Yields(cs, f, Unicode(encode, decode), v) <==>
            Reread(cs, f.value, encode, decode) == Some(v) && Reread(cs, v, decode, encode).Some?
  {
    ConvertsMeans(cs, f.value, encode, decode, v);
    forall back ensures Converts(cs, v, decode, encode, back) <==> Reread(cs, v, decode, encode) == Some(back) {
      ConvertsMeans(cs, v, decode, encode, back);
    }
  }

  lemma ComplaintMeans(cs: Codecs, f: Field, mode: Mode)
    requires Convert(cs, f, mode).Some?
    ensures var v, complaint := Convert(cs, f, mode).value.0, Convert(cs, f, mode).value.1;
            && (complaint == Some(RawEvidenceUnavailable) <==> LacksBytes(f, mode))
            && (complaint == Some(InverseRoundtripFailed) <==> LosesText(cs, f, mode, v))
            && (complaint.Some? ==> complaint.value.RawEvidenceUnavailable? || complaint.value.InverseRoundtripFailed?)
  {
    var v := Convert(cs, f, mode).value.0;
    if mode.Unicode? {
      ConvertsMeans(cs, v, mode.decode, mode.encode, f.value);
    }
  }

  /** A preview shows a text, or what is held against the choice, exactly as the mode, the bytes and the codecs say. */
  lemma PreviewMeans(cs: Codecs, f: Field, choice: Choice)
    ensures IsPreview(cs, f, choice, PreviewField(cs, f, choice))
  {
    forall v ensures Yields(cs, f, choice.mode, v) <==>
                     Convert(cs, f, choice.mode).Some? && Convert(cs, f, choice.mode).value.0 == v {
      YieldMeans(cs, f, choice.mode, v);
    }
    if Convert(cs, f, choice.mode).Some? {
      ComplaintMeans(cs, f, choice.mode);
      assert Yields(cs, f, choice.mode, Convert(cs, f, choice.mode).value.0);
      assert LacksBytes(f, choice.mode) ==> Convert(cs, f, choice.mode).value.0 == f.value;
    }
  }

  // ---------------------------------------------------------------- refusals

  ghost predicate Touches(s: Source, j: JobQueue.Job) {
    || j.target == JobQueue.Source(s.id) || j.target == JobQueue.Folder(s.folder)
    || (s.record != None && j.target == JobQueue.Record(s.record.value))
  }

  /** Queued or running work that could be reading the source. */
  ghost predicate IsLive(s: State, id: string) {
    id in s.jobs && JobMeaning.IsWaiting(s.jobs[id]) && Touches(s.source, s.jobs[id])
  }

  ghost predicate IsBusy(s: State, env: Env) {
    || env.locked || env.publishing
    || exists id :: IsLive(s, id) && (s.jobs[id].state == JobQueue.Running || s.jobs[id].kind == "filesystem_scan")
  }

  ghost predicate IsGood(cs: Codecs, fields: Fields, choice: Choice) {
    choice.field in fields && exists v :: Shows(cs, fields[choice.field], choice.mode, v)
  }

  lemma LiveMeans(s: State, id: string)
    ensures id in ActiveJobs(s) <==> IsLive(s, id)
  {
  }

  lemma GoodMeans(cs: Codecs, fields: Fields, choice: Choice)
    ensures PreviewChoice(cs, fields, choice).error == None <==> IsGood(cs, fields, choice)
  {
    if choice.field in fields {
      PreviewMeans(cs, fields[choice.field], choice);
      var p := PreviewField(cs, fields[choice.field], choice);
      if p.value.Some? {
        assert Shows(cs, fields[choice.field], choice.mode, p.value.value);
      }
    }
  }

  /** A request is refused while other work could read the source, at another revision, or with a bad choice. */
  lemma RefusalMeans(cs: Codecs, s: State, request: Request, env: Env)
    ensures var refusal := Refusal(cs, s, request, env);
            && (refusal == Some(ProcessingBusy) <==> IsBusy(s, env))
            && (refusal == Some(RevisionChanged) <==> !IsBusy(s, env) && s.source.revision != request.expected)
            && (refusal == Some(InvalidChoices) <==>
                && !IsBusy(s, env) && s.source.revision == request.expected
                && exists i :: 0 <= i < |request.choices| && !IsGood(cs, s.source.fields, request.choices[i]))
  {
    forall id ensures id in ActiveJobs(s) <==> IsLive(s, id) {
      LiveMeans(s, id);
    }
    forall i | 0 <= i < |request.choices|
      ensures PreviewChoice(cs, s.source.fields, request.choices[i]).error == None <==>
              IsGood(cs, s.source.fields, request.choices[i])
    {
      GoodMeans(cs, s.source.fields, request.choices[i]);
    }
  }

  // ---------------------------------------------------------------- what a request writes

  /** The choice comes to another text than the field's. */
  ghost predicate Changes(cs: Codecs, fields: Fields, choice: Choice) {
    && choice.field in fields
    && exists v :: v != fields[choice.field].value && Shows(cs, fields[choice.field], choice.mode, v)
  }

  /** The choice has not been applied to its field, or was by someone else. */
  ghost predicate IsNews(fields: Fields, choice: Choice, origin: string) {
    && choice.mode != Keep && choice.field in fields
    && !(fields[choice.field].applied == Some(choice) && fields[choice.field].origin == Some(origin))
  }

  ghost predicate ChangesText(cs: Codecs, fields: Fields, choices: seq<Choice>) {
    exists i :: 0 <= i < |choices| && Changes(cs, fields, choices[i])
  }

  ghost predicate HasEffect(cs: Codecs, fields: Fields, choices: seq<Choice>, origin: string) {
    ChangesText(cs, fields, choices) || exists i :: 0 <= i < |choices| && IsNews(fields, choices[i], origin)
  }

  lemma ChangesMeans(cs: Codecs, fields: Fields, choice: Choice)
    ensures PreviewChoice(cs, fields, choice).changed <==> Changes(cs, fields, choice)
  {
    if choice.field in fields {
      PreviewMeans(cs, fields[choice.field], choice);
      var p := PreviewField(cs, fields[choice.field], choice);
      if p.value.Some? {
        assert Shows(cs, fields[choice.field], choice.mode, p.value.value);
      }
    }
  }

  lemma EffectMeans(cs: Codecs, fields: Fields, choices: seq<Choice>, origin: string)
    ensures TextChanged(cs, fields, choices) <==> ChangesText(cs, fields, choices)
    ensures HasEffect(cs, fields, choices, origin) <==>
            TextChanged(cs, fields, choices) || DecisionChanged(fields, choices, origin)
  {
    forall i | 0 <= i < |choices|
      ensures PreviewChoice(cs, fields, choices[i]).changed <==> Changes(cs, fields, choices[i])
      ensures NewDecision(fields, choices[i], origin) <==> IsNews(fields, choices[i], origin)
    {
      ChangesMeans(cs, fields, choices[i]);
    }
  }

  /** The field after a choice: the text shown, the original kept, and who chose what. */
  ghost predicate IsWritten(cs: Codecs, f: Field, g: Field, choice: Choice, origin: string) {
    exists v, first :: Shows(cs, f, choice.mode, v) && IsOriginal(f, first)
                       && g == Field(v, Some(first), f.prepared, f.declared, Some(choice), Some(origin))
  }

  ghost predicate IsChosen(choices: seq<Choice>, id: int, i: int) {
    0 <= i < |choices| && choices[i].field == id && choices[i].mode != Keep
  }

  lemma FieldWritten(cs: Codecs, fields: Fields, request: Request, origin: string, id: int)
    requires WellFormed(request) && AllValid(cs, fields, request.choices) && id in fields
    ensures var after := Written(cs, fields, request.choices, origin, |request.choices|);
            && id in after
            && (forall i :: IsChosen(request.choices, id, i) ==>
                  IsWritten(cs, fields[id], after[id], request.choices[i], origin))
            && ((forall i :: !IsChosen(request.choices, id, i)) ==> after[id] == fields[id])
  {
    var after := Written(cs, fields, request.choices, origin, |request.choices|);
    if i :| IsChosen(request.choices, id, i) {
      ChosenFieldWritten(cs, fields, request, origin, i);
      forall k | IsChosen(request.choices, id, k) ensures k == i {
      }
    } else {
      assert Untouched(request.choices, |request.choices|, id) by {
        forall i | 0 <= i < |request.choices| && request.choices[i].field == id
          ensures request.choices[i].mode == Keep
        {
          assert !IsChosen(request.choices, id, i);
        }
      }
      WrittenElsewhere(cs, fields, request.choices, origin, |request.choices|, id);
    }
  }

  lemma ChosenFieldWritten(cs: Codecs, fields: Fields, request: Request, origin: string, i: nat)
    requires WellFormed(request) && AllValid(cs, fields, request.choices)
    requires i < |request.choices| && request.choices[i].field in fields && request.choices[i].mode != Keep
    ensures var id, after := request.choices[i].field, Written(cs, fields, request.choices, origin, |request.choices|);
            id in after && IsWritten(cs, fields[id], after[id], request.choices[i], origin)
  {
    var choice := request.choices[i];
    var f := fields[choice.field];
    WrittenAt(cs, fields, request, origin, |request.choices|, i);
    PreviewMeans(cs, f, choice);
    assert PreviewChoice(cs, fields, choice).error.None?;
    assert Shows(cs, f, choice.mode, PreviewField(cs, f, choice).value.value) && IsOriginal(f, OriginalOf(f));
  }

  /** The fields after an accepted request. */
  lemma FieldAfter(cs: Codecs, s: State, request: Request, origin: string, env: Env, id: int)
    requires WellFormed(request) && Refusal(cs, s, request, env).None? && id in s.source.fields
    ensures var fields, after := s.source.fields, Apply(cs, s, request, origin, env).source.fields;
            && after.Keys == fields.Keys
            && (HasEffect(cs, fields, request.choices, origin) ==>
                  && (forall i :: IsChosen(request.choices, id, i) ==>
                        IsWritten(cs, fields[id], after[id], request.choices[i], origin))
                  && ((forall i :: !IsChosen(request.choices, id, i)) ==> after[id] == fields[id]))
            && (!HasEffect(cs, fields, request.choices, origin) ==> after == fields)
  {
    EffectMeans(cs, s.source.fields, request.choices, origin);
    FieldWritten(cs, s.source.fields, request, origin, id);
    WrittenKeepsOriginals(cs, s.source.fields, request.choices, origin, |request.choices|);
  }

  /** The source after an accepted request that has an effect. */
  lemma SourceAfter(cs: Codecs, s: State, request: Request, origin: string, env: Env)
    requires Refusal(cs, s, request, env).None? && HasEffect(cs, s.source.fields, request.choices, origin)
    ensures var was, next := s.source, Apply(cs, s, request, origin, env).source;
            && next.id == was.id && next.folder == was.folder && next.replaced == was.replaced
            && next.record == (if was.record == None then Some(env.newRecord) else was.record)
            && next.revision == request.expected + 1
            && next.events == was.events + [Event(origin, request.expected, request.expected + 1)]
            && (ChangesText(cs, was.fields, request.choices) ==>
                  next.runs == was.runs + [CandidateRun("musicbrainz", request.expected + 1)])
            && (!ChangesText(cs, was.fields, request.choices) ==>
                  && |next.runs| == |was.runs|
                  && forall i :: 0 <= i < |was.runs| ==>
                       next.runs[i] == CandidateRun(was.runs[i].provider,
                                                  if was.runs[i].revision == request.expected
                                                  then request.expected + 1 else was.runs[i].revision))
  {
    EffectMeans(cs, s.source.fields, request.choices, origin);
  }

  /** The jobs after an accepted request that changes a text: live work is retired for one new analysis. */
  lemma JobsAfterText(cs: Codecs, s: State, request: Request, origin: string, env: Env)
    requires StateOk(s) && env.newJob !in s.jobs && Refusal(cs, s, request, env).None?
    requires ChangesText(cs, s.source.fields, request.choices)
    ensures var was, next := s.jobs, Apply(cs, s, request, origin, env).jobs;
            && next.Keys == was.Keys + {env.newJob}
            && next[env.newJob] == JobQueue.Job(
                 JobQueue.Source(s.source.id), "musicbrainz_analysis", JobQueue.Queued, env.now, None, None, None,
                 Some(request.expected + 1), None, [])
            && forall id :: id in was ==>
                 next[id] == if IsLive(s, id) && was[id].kind != "folder_release_selection"
                           then was[id].(state := JobQueue.Superseded) else was[id]
  {
    EffectMeans(cs, s.source.fields, request.choices, origin);
    var next, job := JobsRetired(cs, s, request, origin, env);
    RetiredJobs(s, next, env.newJob, job);
  }

  lemma JobsRetired(cs: Codecs, s: State, request: Request, origin: string, env: Env)
    returns (next: JobQueue.Queue, job: JobQueue.Job)
    requires StateOk(s) && env.newJob !in s.jobs && Refusal(cs, s, request, env).None?
    requires TextChanged(cs, s.source.fields, request.choices)
    ensures next == Apply(cs, s, request, origin, env).jobs
    ensures next == SupersedeJobs(s.jobs, ActiveJobs(s))[env.newJob := job]
    ensures job == JobQueue.Job(
              JobQueue.Source(s.source.id), "musicbrainz_analysis", JobQueue.Queued, env.now, None, None, None,
              Some(request.expected + 1), None, [])
  {
    TextChangeRequeues(cs, s, request, origin, env);
    SupersededIsIdle(s, env);
    next := Apply(cs, s, request, origin, env).jobs;
    job := AnalysisRow(SupersedeJobs(s.jobs, ActiveJobs(s)), s.source.id, env.now, s.source.revision + 1, env.newJob);
  }

  lemma AnalysisRow(q: JobQueue.Queue, source: string, now: int, revision: nat, id: string)
    returns (job: JobQueue.Job)
    requires JobQueueSafety.Inv(q) && id !in q
    requires forall other :: other in q && q[other].target == JobQueue.Source(source) ==> !JobQueue.Active(q[other])
    ensures JobQueue.EnqueueForSource(q, source, ANALYSIS, now, None, Some(revision), id) == q[id := job]
    ensures job == JobQueue.Job(
              JobQueue.Source(source), "musicbrainz_analysis", JobQueue.Queued, now, None, None, None,
              Some(revision), None, [])
  {
    AnalysisQueued(q, source, now, revision, id);
    job := JobQueue.NewJob(JobQueue.Source(source), ANALYSIS, now).(sourceRevision := Some(revision));
  }

  lemma RetiredJobs(s: State, next: JobQueue.Queue, newJob: string, job: JobQueue.Job)
    requires next == SupersedeJobs(s.jobs, ActiveJobs(s))[newJob := job] && newJob !in s.jobs
    ensures next.Keys == s.jobs.Keys + {newJob} && next[newJob] == job
    ensures forall id :: id in s.jobs ==>
              next[id] == if IsLive(s, id) && s.jobs[id].kind != "folder_release_selection"
                          then s.jobs[id].(state := JobQueue.Superseded) else s.jobs[id]
  {
    forall id ensures id in ActiveJobs(s) <==> IsLive(s, id) {
      LiveMeans(s, id);
    }
  }

  /** The jobs after one that changes decisions alone: live work of the revision before goes on at the one after. */
  lemma JobsAfterDecision(cs: Codecs, s: State, request: Request, origin: string, env: Env)
    requires Refusal(cs, s, request, env).None? && HasEffect(cs, s.source.fields, request.choices, origin)
    requires !ChangesText(cs, s.source.fields, request.choices)
    ensures var was, next := s.jobs, Apply(cs, s, request, origin, env).jobs;
            && next.Keys == was.Keys
            && forall id :: id in was ==>
                 next[id] == if JobMeaning.IsWaiting(was[id]) && was[id].target == JobQueue.Source(s.source.id)
                              && was[id].sourceRevision == Some(request.expected)
                           then was[id].(sourceRevision := Some(request.expected + 1)) else was[id]
  {
    EffectMeans(cs, s.source.fields, request.choices, origin);
    forall id ensures id in ActiveJobs(s) <==> IsLive(s, id) {
      LiveMeans(s, id);
    }
  }

  /** The recovery at import writes fields like any request, and leaves every job alone. */
  lemma ImportAfter(cs: Codecs, s: State, choices: seq<Choice>, env: Env, id: int)
    requires WellFormed(Request(s.source.revision, choices)) && id in s.source.fields
    ensures var fields, after := s.source.fields, RecoverImport(cs, s, choices, env);
            && after.jobs == s.jobs && after.source.fields.Keys == fields.Keys
            && (if (forall i :: 0 <= i < |choices| ==> IsGood(cs, fields, choices[i]))
                   && HasEffect(cs, fields, choices, "auto")
                then && after.source.revision == s.source.revision + 1
                     && (forall i :: IsChosen(choices, id, i) ==>
                           IsWritten(cs, fields[id], after.source.fields[id], choices[i], "auto"))
                     && ((forall i :: !IsChosen(choices, id, i)) ==> after.source.fields[id] == fields[id])
                else after == s)
  {
    var request := Request(s.source.revision, choices);
    EffectMeans(cs, s.source.fields, choices, "auto");
    forall i | 0 <= i < |choices|
      ensures PreviewChoice(cs, s.source.fields, choices[i]).error == None <==> IsGood(cs, s.source.fields, choices[i])
    {
      GoodMeans(cs, s.source.fields, choices[i]);
    }
    if AllValid(cs, s.source.fields, choices) {
      FieldWritten(cs, s.source.fields, request, "auto", id);
      WrittenKeepsOriginals(cs, s.source.fields, choices, "auto", |choices|);
    }
  }

  /** The rest of the source after the recovery at import: its runs go on at the new revision, whatever changed. */
  lemma ImportedSource(cs: Codecs, s: State, choices: seq<Choice>, env: Env)
    requires forall i :: 0 <= i < |choices| ==> IsGood(cs, s.source.fields, choices[i])
    requires HasEffect(cs, s.source.fields, choices, "auto")
    ensures RecoverImport(cs, s, choices, env).source.fields.Keys == s.source.fields.Keys
    ensures IsImported(s.source, RecoverImport(cs, s, choices, env).source, env)
  {
    EffectMeans(cs, s.source.fields, choices, "auto");
    forall i | 0 <= i < |choices|
      ensures PreviewChoice(cs, s.source.fields, choices[i]).error == None <==> IsGood(cs, s.source.fields, choices[i])
    {
      GoodMeans(cs, s.source.fields, choices[i]);
    }
    ImportedPart(cs, s, choices, env);
  }

  ghost predicate IsImported(was: Source, next: Source, env: Env) {
    && next.id == was.id && next.folder == was.folder && next.replaced == was.replaced
    && next.record == (if was.record == None then Some(env.newRecord) else was.record)
    && next.events == was.events + [Event("auto", was.revision, was.revision + 1)]
    && |next.runs| == |was.runs|
    && forall i :: 0 <= i < |was.runs| ==>
         && next.runs[i].provider == was.runs[i].provider
         && next.runs[i].revision
            == if was.runs[i].revision == was.revision then was.revision + 1 else was.runs[i].revision
  }

  lemma ImportedPart(cs: Codecs, s: State, choices: seq<Choice>, env: Env)
    requires AllValid(cs, s.source.fields, choices)
    requires !Quiet(cs, s, Request(s.source.revision, choices), "auto")
    ensures RecoverImport(cs, s, choices, env).source.fields.Keys == s.source.fields.Keys
    ensures IsImported(s.source, RecoverImport(cs, s, choices, env).source, env)
  {
    WrittenKeepsOriginals(cs, s.source.fields, choices, "auto", |choices|);
  }
}
