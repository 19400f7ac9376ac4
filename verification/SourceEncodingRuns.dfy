/** What every run of encoding requests keeps: originals, revisions, provenance, and work that fits the revision. */
module SourceEncodingRuns {
  import opened Wrappers
  import opened SourceEncoding
  import JobQueue
  import JobQueueSafety
  import JobQueueRuns

  // ---------------------------------------------------------------- codecs

  lemma CandidatesFound(cs: Codecs, original: string, codec: string)
    ensures CandidateSet(cs, original, codec, |MISTAKEN|)
            == Values(Candidate(cs, original, "latin-1", codec)) + Values(Candidate(cs, original, "cp1252", codec))
  {
    assert CandidateSet(cs, original, codec, 1) == {} + Values(Candidate(cs, original, MISTAKEN[0], codec));
  }

  /**
   A codec recovers a text when the raw bytes say so both ways, or when the readings that can be
   undone agree on one text.
   */
  lemma RecoveredCodec(cs: Codecs, f: Field, codec: string, v: string)
    ensures RecoverCodec(cs, f, codec) == Some(v) <==>
            if f.prepared.Some? && f.declared.Some? && f.declared.value in BYTE_CODECS
            then cs.decode(codec, f.prepared.value) == Some(v) && cs.encode(codec, v) == f.prepared
            else
              var a := Candidate(cs, OriginalOf(f), "latin-1", codec);
              var b := Candidate(cs, OriginalOf(f), "cp1252", codec);
              (a == Some(v) && (b.None? || b == a)) || (b == Some(v) && (a.None? || a == b))
  {
    CandidatesFound(cs, OriginalOf(f), codec);
    var a := Candidate(cs, OriginalOf(f), "latin-1", codec);
    var b := Candidate(cs, OriginalOf(f), "cp1252", codec);
    var found := CandidateSet(cs, OriginalOf(f), codec, |MISTAKEN|);
    assert a.Some? ==> a.value in found;
    assert b.Some? ==> b.value in found;
    assert forall t :: t in found ==> Some(t) == a || Some(t) == b;
  }

  // ---------------------------------------------------------------- fields

  predicate Untouched(choices: seq<Choice>, n: nat, id: int)
    requires n <= |choices|
  {
    forall i :: 0 <= i < n && choices[i].field == id ==> choices[i].mode == Keep
  }

  lemma {:induction false} WrittenElsewhere(
    cs: Codecs, fields: Fields, choices: seq<Choice>, origin: string, n: nat, id: int)
    requires n <= |choices| && id in fields && Untouched(choices, n, id)
    ensures id in Written(cs, fields, choices, origin, n) && Written(cs, fields, choices, origin, n)[id] == fields[id]
    decreases n
  {
    if n > 0 {
      WrittenElsewhere(cs, fields, choices, origin, n - 1, id);
    }
  }

  /** Each chosen field gets what its own preview showed, whatever the other choices wrote before it. */
  lemma {:induction false} WrittenAt(
    cs: Codecs, fields: Fields, request: Request, origin: string, n: nat, i: nat)
    requires WellFormed(request) && i < n <= |request.choices|
    requires request.choices[i].field in fields && request.choices[i].mode != Keep
    ensures var choice := request.choices[i];
            var after := Written(cs, fields, request.choices, origin, n);
            choice.field in after
            && after[choice.field] == WriteField(fields[choice.field],
               PreviewField(cs, fields[choice.field], choice).value, choice, origin)
    decreases n
  {
    if i == n - 1 {
      WrittenElsewhere(cs, fields, request.choices, origin, n - 1, request.choices[i].field);
    } else {
      WrittenAt(cs, fields, request, origin, n - 1, i);
      assert request.choices[i].field != request.choices[n - 1].field;
    }
  }

  /** The field's original text, recorded or still current, and the evidence it was read from. */
  ghost predicate SameOrigin(f: Field, g: Field) {
    && OriginalOf(g) == OriginalOf(f) && (f.original.Some? ==> g.original == f.original)
    && g.prepared == f.prepared && g.declared == f.declared
  }

  ghost predicate OriginalsStand(fields: Fields, after: Fields) {
    after.Keys == fields.Keys && forall id :: id in fields ==> SameOrigin(fields[id], after[id])
  }

  lemma {:induction false} WrittenKeepsOriginals(
    cs: Codecs, fields: Fields, choices: seq<Choice>, origin: string, n: nat)
    requires n <= |choices|
    ensures OriginalsStand(fields, Written(cs, fields, choices, origin, n))
    decreases n
  {
    if n > 0 {
      WrittenKeepsOriginals(cs, fields, choices, origin, n - 1);
    }
  }

  lemma StepKeepsOriginals(cs: Codecs, s: State, op: Op)
    requires Allowed(s, op)
    ensures OriginalsStand(s.source.fields, Step(cs, s, op).source.fields)
    ensures Step(cs, s, op).source.id == s.source.id
  {
    match op
    case ApplyRequest(request, origin, env) =>
      WrittenKeepsOriginals(cs, s.source.fields, request.choices, origin, |request.choices|);
    case ImportRecovery(choices, env) =>
      WrittenKeepsOriginals(cs, s.source.fields, choices, AUTO, |choices|);
    case QueueStep(step) =>
  }

  /** In every run the original text of a field stays what it was, and once recorded it is never rewritten. */
  lemma {:induction false} RunKeepsOriginals(cs: Codecs, s: State, ops: seq<Op>)
    requires IsRun(cs, s, ops)
    ensures OriginalsStand(s.source.fields, Run(cs, s, ops).source.fields)
    decreases |ops|
  {
    if ops != [] {
      StepKeepsOriginals(cs, s, ops[0]);
      RunKeepsOriginals(cs, Step(cs, s, ops[0]), ops[1..]);
    }
  }

  /** What an accepted request leaves in a chosen field: its preview. */
  lemma AppliedValue(cs: Codecs, s: State, request: Request, origin: string, env: Env, i: nat)
    requires WellFormed(request) && Refusal(cs, s, request, env).None? && i < |request.choices|
    ensures var choice := request.choices[i];
            && choice.field in s.source.fields && choice.field in Apply(cs, s, request, origin, env).source.fields
            && PreviewField(cs, s.source.fields[choice.field], choice).value
               == Some(Apply(cs, s, request, origin, env).source.fields[choice.field].value)
  {
    var choice, fields := request.choices[i], s.source.fields;
    assert PreviewChoice(cs, fields, choice).error.None?;
    if !Quiet(cs, s, request, origin) {
      if choice.mode == Keep {
        assert Untouched(request.choices, |request.choices|, choice.field);
        WrittenElsewhere(cs, fields, request.choices, origin, |request.choices|, choice.field);
      } else {
        WrittenAt(cs, fields, request, origin, |request.choices|, i);
      }
    } else {
      assert !PreviewChoice(cs, fields, choice).changed;
    }
  }

  /** After any run, choosing 'original' is valid exactly when the first text has no NUL, and then brings it back. */
  lemma OriginalComesBack(cs: Codecs, first: State, ops: seq<Op>, request: Request, origin: string, env: Env, i: nat)
    requires IsRun(cs, first, ops) && WellFormed(request) && i < |request.choices|
    requires request.choices[i].mode == Original && request.choices[i].field in first.source.fields
    ensures var s, id := Run(cs, first, ops), request.choices[i].field;
            && (PreviewChoice(cs, s.source.fields, request.choices[i]).error.None?
               <==> '\0' !in OriginalOf(first.source.fields[id]))
            && (Refusal(cs, s, request, env).None? ==>
                  && id in Apply(cs, s, request, origin, env).source.fields
                  && Apply(cs, s, request, origin, env).source.fields[id].value == OriginalOf(first.source.fields[id]))
  {
    RunKeepsOriginals(cs, first, ops);
    var s := Run(cs, first, ops);
    if Refusal(cs, s, request, env).None? {
      AppliedValue(cs, s, request, origin, env, i);
    }
  }

  // ---------------------------------------------------------------- revisions and repeats

  /** A request moves the revision by one or leaves everything alone; it leaves it exactly when refused or quiet. */
  lemma ApplyMovesOneRevision(cs: Codecs, s: State, request: Request, origin: string, env: Env)
    ensures var after := Apply(cs, s, request, origin, env);
            if Refusal(cs, s, request, env).Some? || Quiet(cs, s, request, origin) then after == s
            else
              && after.source.revision == s.source.revision + 1
              && after.source.events == s.source.events + [Event(origin, s.source.revision, s.source.revision + 1)]
  {
  }

  /** The events of a run number its revisions one after the other. */
  ghost predicate EventsNumber(s: Source, after: Source) {
    && |s.events| <= |after.events| && after.events[..|s.events|] == s.events
    && after.revision == s.revision + (|after.events| - |s.events|)
    && forall k :: |s.events| <= k < |after.events| ==>
         after.events[k].after == after.events[k].before + 1 == s.revision + (k - |s.events|) + 1
  }

  lemma StepNumbersEvents(cs: Codecs, s: State, op: Op)
    requires Allowed(s, op)
    ensures EventsNumber(s.source, Step(cs, s, op).source)
  {
  }

  lemma {:induction false} RunNumbersEvents(cs: Codecs, s: State, ops: seq<Op>)
    requires IsRun(cs, s, ops)
    ensures EventsNumber(s.source, Run(cs, s, ops).source)
    decreases |ops|
  {
    if ops != [] {
      var next, last := Step(cs, s, ops[0]).source, Run(cs, s, ops).source;
      StepNumbersEvents(cs, s, ops[0]);
      RunNumbersEvents(cs, Step(cs, s, ops[0]), ops[1..]);
      assert last.events[..|s.source.events|] == last.events[..|next.events|][..|s.source.events|];
      forall k | |s.source.events| <= k < |next.events| ensures last.events[k] == next.events[k] {
        assert last.events[..|next.events|][k] == next.events[k];
      }
    }
  }

  predicate ConvertsAgain(cs: Codecs, fields: Fields, choice: Choice) {
    && choice.mode.Unicode? && choice.field in fields
    && Reread(cs, fields[choice.field].value, choice.mode.encode, choice.mode.decode)
       != Some(fields[choice.field].value)
  }

  lemma RepeatedField(cs: Codecs, s: State, request: Request, origin: string, env: Env, i: nat)
    requires WellFormed(request) && Refusal(cs, s, request, env).None? && i < |request.choices|
    ensures var fields, choice := Apply(cs, s, request, origin, env).source.fields, request.choices[i];
            && !NewDecision(fields, choice, origin)
            && (PreviewChoice(cs, fields, choice).changed ==> ConvertsAgain(cs, fields, choice))
            && (PreviewChoice(cs, fields, choice).error.None? && ConvertsAgain(cs, fields, choice)
                ==> PreviewChoice(cs, fields, choice).changed)
  {
    var choice, before := request.choices[i], s.source.fields;
    AppliedValue(cs, s, request, origin, env, i);
    assert PreviewChoice(cs, before, choice).error.None?;
    if Quiet(cs, s, request, origin) {
      assert !PreviewChoice(cs, before, choice).changed && !NewDecision(before, choice, origin);
    } else if choice.mode != Keep {
      WrittenAt(cs, before, request, origin, |request.choices|, i);
    }
  }

  /**
   Repeating an accepted request at the new revision changes something exactly when it is accepted
   again and one of its 'unicode' choices converts the converted text once more.
   */
  lemma RepeatChangesOnlyUnicode(cs: Codecs, s: State, request: Request, origin: string, env: Env, again: Env)
    requires WellFormed(request) && Refusal(cs, s, request, env).None?
    ensures var after := Apply(cs, s, request, origin, env);
            var repeat := Request(after.source.revision, request.choices);
            Apply(cs, after, repeat, origin, again) != after <==>
            && Refusal(cs, after, repeat, again).None?
            && exists i :: 0 <= i < |request.choices| && ConvertsAgain(cs, after.source.fields, request.choices[i])
  {
    var after := Apply(cs, s, request, origin, env);
    var repeat := Request(after.source.revision, request.choices);
    ApplyMovesOneRevision(cs, after, repeat, origin, again);
    forall i | 0 <= i < |request.choices|
      ensures !NewDecision(after.source.fields, request.choices[i], origin)
      ensures PreviewChoice(cs, after.source.fields, request.choices[i]).changed
              ==> ConvertsAgain(cs, after.source.fields, request.choices[i])
      ensures (PreviewChoice(cs, after.source.fields, request.choices[i]).error.None?
               && ConvertsAgain(cs, after.source.fields, request.choices[i]))
              ==> PreviewChoice(cs, after.source.fields, request.choices[i]).changed
    {
      RepeatedField(cs, s, request, origin, env, i);
    }
  }

  /** One reading takes a text to another one and can be undone. */
  ghost predicate Layered(cs: Codecs, choice: Choice, text: string, below: string) {
    && choice.mode.Unicode? && text != below && '\0' !in below
    && Reread(cs, text, choice.mode.encode, choice.mode.decode) == Some(below)
    && Reread(cs, below, choice.mode.decode, choice.mode.encode) == Some(text)
  }

  lemma LayerIsPeeled(cs: Codecs, f: Field, choice: Choice, below: string)
    requires Layered(cs, choice, f.value, below)
    ensures PreviewField(cs, f, choice) == Preview(choice.field, Some(below), true, None)
  {
  }

  lemma LayerRequest(cs: Codecs, s: State, choice: Choice, below: string, env: Env)
    requires choice.field in s.source.fields && Layered(cs, choice, s.source.fields[choice.field].value, below)
    requires !Busy(s, env)
    ensures var request := Request(s.source.revision, [choice]);
            && WellFormed(request) && Refusal(cs, s, request, env).None?
            && TextChanged(cs, s.source.fields, request.choices)
  {
    LayerIsPeeled(cs, s.source.fields[choice.field], choice, below);
    assert PreviewChoice(cs, s.source.fields, [choice][0]).changed;
  }

  lemma LayerGone(cs: Codecs, s: State, choice: Choice, below: string, env: Env)
    requires choice.field in s.source.fields && Layered(cs, choice, s.source.fields[choice.field].value, below)
    requires !Busy(s, env)
    ensures var request := Request(s.source.revision, [choice]);
            var after := Apply(cs, s, request, MANUAL, env);
            && choice.field in after.source.fields && after.source.fields[choice.field].value == below
            && after.source.revision == s.source.revision + 1
  {
    var request := Request(s.source.revision, [choice]);
    LayerRequest(cs, s, choice, below, env);
    LayerIsPeeled(cs, s.source.fields[choice.field], choice, below);
    AppliedValue(cs, s, request, MANUAL, env, 0);
    ApplyMovesOneRevision(cs, s, request, MANUAL, env);
  }

  /** Until other work starts, the request that peeled one layer of a text peels the next one. */
  lemma LayersArePeeledOneByOne(
    cs: Codecs, s: State, choice: Choice, below: string, bottom: string, env: Env, again: Env)
    requires choice.field in s.source.fields && Layered(cs, choice, s.source.fields[choice.field].value, below)
    requires Layered(cs, choice, below, bottom) && !Busy(s, env)
    requires !Busy(Apply(cs, s, Request(s.source.revision, [choice]), MANUAL, env), again)
    ensures var after := Apply(cs, s, Request(s.source.revision, [choice]), MANUAL, env);
            var repeated := Apply(cs, after, Request(after.source.revision, [choice]), MANUAL, again);
            && choice.field in after.source.fields && after.source.fields[choice.field].value == below
            && choice.field in repeated.source.fields && repeated.source.fields[choice.field].value == bottom
            && repeated != after
  {
    LayerGone(cs, s, choice, below, env);
    LayerGone(cs, Apply(cs, s, Request(s.source.revision, [choice]), MANUAL, env), choice, bottom, again);
  }

  /** Two codecs that differ by one byte: what "latin-1" reads as n characters "utf-8" reads as one less. */
  function ToyBytes(codec: string, text: string): Option<Bytes> {
    Some(seq(|text| + (if codec == "utf-8" then 1 else 0), i => 0))
  }

  function ToyText(codec: string, bytes: Bytes): Option<string> {
    if codec != "utf-8" then Some(seq(|bytes|, i => 'x'))
    else if bytes == [] then None
    else Some(seq(|bytes| - 1, i => 'x'))
  }

  lemma ToyReads(text: string, below: string)
    requires |text| == |below| + 1
    requires (forall i :: 0 <= i < |text| ==> text[i] == 'x') && forall i :: 0 <= i < |below| ==> below[i] == 'x'
    ensures ToyText("utf-8", ToyBytes("latin-1", text).value) == Some(below)
    ensures ToyText("latin-1", ToyBytes("utf-8", below).value) == Some(text)
  {
    assert ToyText("utf-8", ToyBytes("latin-1", text).value).value == below;
    assert ToyText("latin-1", ToyBytes("utf-8", below).value).value == text;
  }

  lemma ToyCodecs() returns (cs: Codecs, choice: Choice)
    ensures choice.field == 1 && Layered(cs, choice, "xx", "x") && Layered(cs, choice, "x", "")
  {
    cs, choice := Codecs(ToyBytes, ToyText), Choice(1, Unicode("latin-1", "utf-8"));
    ToyReads("xx", "x");
    ToyReads("x", "");
  }

  /** A source without work whose one field holds a text. */
  function Idle(text: string): State {
    State(Source("s", "f", false, None, 0, map[1 := Field(text, None, None, None, None, None)], [], []), map[])
  }

  lemma OnlyAnalysisLeft(cs: Codecs, s: State, request: Request, env: Env, again: Env)
    requires s.jobs == map[] && s.source.runs == [] && !again.locked && !again.publishing
    requires Refusal(cs, s, request, env).None? && TextChanged(cs, s.source.fields, request.choices)
    ensures !Busy(Apply(cs, s, request, MANUAL, env), again)
  {
    TextChangeRetiresWork(cs, s, request, MANUAL, env);
  }

  /** An accepted request, repeated at the revision it led to, that is accepted again and changes the text again. */
  lemma UnicodeCanRepeat(env: Env, again: Env) returns (cs: Codecs, choice: Choice)
    requires !env.locked && !env.publishing && !again.locked && !again.publishing
    ensures var s, request := Idle("xx"), Request(0, [choice]);
            var after := Apply(cs, s, request, MANUAL, env);
            var repeat := Request(after.source.revision, [choice]);
            && WellFormed(request) && Refusal(cs, s, request, env).None?
            && Refusal(cs, after, repeat, again).None? && Apply(cs, after, repeat, MANUAL, again) != after
  {
    cs, choice := ToyCodecs();
    var s := Idle("xx");
    LayerRequest(cs, s, choice, "x", env);
    OnlyAnalysisLeft(cs, s, Request(0, [choice]), env, again);
    LayersArePeeledOneByOne(cs, s, choice, "x", "", env, again);
    LayerGone(cs, s, choice, "x", env);
    LayerRequest(cs, Apply(cs, s, Request(0, [choice]), MANUAL, env), choice, "", again);
  }

  // ---------------------------------------------------------------- queued work

  /** Jobs and runs name revisions the source has had, and folder jobs belong to folders. */
  ghost predicate StateOk(s: State) {
    && JobQueueSafety.Inv(s.jobs)
    && (forall id :: id in s.jobs ==> JobFits(s.source, s.jobs[id]))
    && forall i :: 0 <= i < |s.source.runs| ==> s.source.runs[i].revision <= s.source.revision
  }

  ghost predicate JobFits(s: Source, j: JobQueue.Job) {
    && (j.kind == JobQueue.FOLDER ==> j.target.Folder?)
    && (j.target == JobQueue.Source(s.id) && j.sourceRevision.Some? ==> j.sourceRevision.value <= s.revision)
  }

  lemma SupersedeKeepsInv(q: JobQueue.Queue, active: set<string>)
    requires JobQueueSafety.Inv(q) && forall id :: id in active && id in q ==> q[id].state == JobQueue.Queued
    ensures JobQueueSafety.Inv(SupersedeJobs(q, active))
  {
    var after := SupersedeJobs(q, active);
    forall a, b | a in after && b in after && JobQueue.Active(after[a]) && JobQueue.Active(after[b])
                  && JobQueueSafety.KeyOf(after[a]) == JobQueueSafety.KeyOf(after[b])
      ensures a == b
    {
      assert after[a] == q[a] && after[b] == q[b];
    }
  }

  lemma CarryKeepsInv(q: JobQueue.Queue, active: set<string>, source: string, before: nat, after: nat)
    requires JobQueueSafety.Inv(q)
    ensures JobQueueSafety.Inv(CarryJobs(q, active, source, before, after))
  {
    var r := CarryJobs(q, active, source, before, after);
    forall a, b | a in r && b in r && JobQueue.Active(r[a]) && JobQueue.Active(r[b])
                  && JobQueueSafety.KeyOf(r[a]) == JobQueueSafety.KeyOf(r[b])
      ensures a == b
    {
      assert JobQueueSafety.KeyOf(q[a]) == JobQueueSafety.KeyOf(q[b]);
    }
  }

  lemma SupersededIsIdle(s: State, env: Env)
    requires StateOk(s) && !Busy(s, env)
    ensures var q := SupersedeJobs(s.jobs, ActiveJobs(s));
            && JobQueueSafety.Inv(q)
            && forall id :: id in q && q[id].target == JobQueue.Source(s.source.id) ==> !JobQueue.Active(q[id])
  {
    var q := SupersedeJobs(s.jobs, ActiveJobs(s));
    SupersedeKeepsInv(s.jobs, ActiveJobs(s));
    forall id | id in q && q[id].target == JobQueue.Source(s.source.id) ensures !JobQueue.Active(q[id]) {
      assert JobFits(s.source, s.jobs[id]);
      assert JobQueue.Active(s.jobs[id]) ==> id in ActiveJobs(s);
    }
  }

  lemma AnalysisQueued(q: JobQueue.Queue, source: string, now: int, revision: nat, id: string)
    requires JobQueueSafety.Inv(q) && id !in q
    requires forall other :: other in q && q[other].target == JobQueue.Source(source) ==> !JobQueue.Active(q[other])
    ensures var after := JobQueue.EnqueueForSource(q, source, ANALYSIS, now, None, Some(revision), id);
            && JobQueueSafety.Inv(after)
            && after
               == q[id := JobQueue.NewJob(JobQueue.Source(source), ANALYSIS, now).(sourceRevision := Some(revision))]
            && forall other ::
                 (other in after && after[other].target == JobQueue.Source(source) && JobQueue.Active(after[other]))
                 <==> other == id
  {
    assert JobQueue.ActiveFor(q, JobQueue.Source(source), ANALYSIS) == {};
    JobQueueSafety.EnqueueForSourceKeepsInv(q, source, ANALYSIS, now, None, Some(revision), id);
  }

  lemma TextChangeRequeues(cs: Codecs, s: State, request: Request, origin: string, env: Env)
    requires Refusal(cs, s, request, env).None? && TextChanged(cs, s.source.fields, request.choices)
    ensures var after := Apply(cs, s, request, origin, env);
            && after.source.revision == s.source.revision + 1
            && after.jobs == JobQueue.EnqueueForSource(
                 SupersedeJobs(s.jobs, ActiveJobs(s)), s.source.id, ANALYSIS, env.now, None,
                   Some(s.source.revision + 1), env.newJob)
  {
  }

  /** A change of text leaves the source one active job: the analysis of the new revision. */
  lemma TextChangeRetiresWork(cs: Codecs, s: State, request: Request, origin: string, env: Env)
    requires StateOk(s) && env.newJob !in s.jobs
    requires Refusal(cs, s, request, env).None? && TextChanged(cs, s.source.fields, request.choices)
    ensures var after := Apply(cs, s, request, origin, env);
            && JobQueueSafety.Inv(after.jobs)
            && after.jobs == SupersedeJobs(s.jobs, ActiveJobs(s))[
                 env.newJob := JobQueue.NewJob(JobQueue.Source(s.source.id), ANALYSIS, env.now).(
                   sourceRevision := Some(after.source.revision))]
            && forall id ::
                 (id in after.jobs && after.jobs[id].target == JobQueue.Source(s.source.id)
                  && JobQueue.Active(after.jobs[id]))
                 <==> id == env.newJob
  {
    TextChangeRequeues(cs, s, request, origin, env);
    SupersededIsIdle(s, env);
    AnalysisQueued(SupersedeJobs(s.jobs, ActiveJobs(s)), s.source.id, env.now, s.source.revision + 1, env.newJob);
  }

  lemma DecisionChangeShape(cs: Codecs, s: State, request: Request, origin: string, env: Env)
    requires Refusal(cs, s, request, env).None?
    requires !TextChanged(cs, s.source.fields, request.choices)
    requires DecisionChanged(s.source.fields, request.choices, origin)
    ensures var after := Apply(cs, s, request, origin, env);
            && after.source.id == s.source.id && after.source.replaced == s.source.replaced
            && after.source.revision == s.source.revision + 1
            && after.jobs == CarryJobs(
                 s.jobs, ActiveJobs(s), s.source.id, s.source.revision, s.source.revision + 1)
  {
  }

  /** What carrying does to the jobs that fit a source: each passes the fence after exactly when it did before. */
  lemma CarriedJobs(s: Source, after: Source, q: JobQueue.Queue, active: set<string>, id: string)
    requires after.id == s.id && after.replaced == s.replaced && after.revision == s.revision + 1
    requires id in active && id in q && JobFits(s, q[id])
    ensures var carried := CarryJobs(q, active, s.id, s.revision, after.revision);
            && carried[id] == q[id].(sourceRevision := carried[id].sourceRevision)
            && (PassesFence(after, carried[id]) <==> PassesFence(s, q[id]))
  {
  }

  /** A change of decision only carries every job of the source that would still have run, and no other. */
  lemma DecisionChangeCarriesWork(cs: Codecs, s: State, request: Request, origin: string, env: Env)
    requires StateOk(s) && Refusal(cs, s, request, env).None?
    requires !TextChanged(cs, s.source.fields, request.choices)
    requires DecisionChanged(s.source.fields, request.choices, origin)
    ensures var after := Apply(cs, s, request, origin, env);
            && JobQueueSafety.Inv(after.jobs) && after.jobs.Keys == s.jobs.Keys
            && (forall id :: id in s.jobs && id !in ActiveJobs(s) ==> after.jobs[id] == s.jobs[id])
            && (forall id :: id in ActiveJobs(s) ==>
                  && after.jobs[id] == s.jobs[id].(sourceRevision := after.jobs[id].sourceRevision)
                  && (PassesFence(after.source, after.jobs[id]) <==> PassesFence(s.source, s.jobs[id])))
  {
    DecisionChangeShape(cs, s, request, origin, env);
    CarryKeepsInv(s.jobs, ActiveJobs(s), s.source.id, s.source.revision, s.source.revision + 1);
    var after := Apply(cs, s, request, origin, env);
    forall id | id in ActiveJobs(s)
      ensures after.jobs[id] == s.jobs[id].(sourceRevision := after.jobs[id].sourceRevision)
      ensures PassesFence(after.source, after.jobs[id]) <==> PassesFence(s.source, s.jobs[id])
    {
      CarriedJobs(s.source, after.source, s.jobs, ActiveJobs(s), id);
    }
  }

  /**
     Candidate runs: a change of text leaves only the new one current, a change of decision keeps the
     current ones current.
   */
  lemma CurrentRuns(cs: Codecs, s: State, request: Request, origin: string, env: Env)
    requires StateOk(s) && Refusal(cs, s, request, env).None? && !Quiet(cs, s, request, origin)
    ensures var runs, after := s.source.runs, Apply(cs, s, request, origin, env).source;
            if TextChanged(cs, s.source.fields, request.choices) then
              && |after.runs| == |runs| + 1 && after.runs[..|runs|] == runs
              && forall i :: 0 <= i < |after.runs| ==> (after.runs[i].revision == after.revision <==> i == |runs|)
            else
              && |after.runs| == |runs|
              && forall i :: 0 <= i < |runs| ==>
                   && after.runs[i].provider == runs[i].provider
                   && (after.runs[i].revision == after.revision <==> runs[i].revision == s.source.revision)
  {
  }

  // ---------------------------------------------------------------- every step keeps it

  /** Rows inserted by the enqueues name their target, kind and, for a source, the revision they were given. */
  ghost predicate RowOf(op: JobQueue.Op, j: JobQueue.Job) {
    match op
    case EnqueueSource(source, kind, _, _, revision, _) =>
      j.target == JobQueue.Source(source) && j.kind == kind && j.sourceRevision == revision
    case EnqueueMusicbrainz(source, _, _, revision, _) =>
      j.target == JobQueue.Source(source) && j.kind == JobQueue.REFRESH && j.sourceRevision == revision
    case Enqueue(target, kind, now, _) => j == JobQueue.NewJob(target, kind, now)
    case _ => j.sourceRevision.None? && j.kind != JobQueue.FOLDER
  }

  lemma ClaimAddsNoRow(q: JobQueue.Queue, op: JobQueue.Op)
    requires op.Claim? || op.Finish?
    requires JobQueue.Allowed(q, op)
    ensures JobQueue.Step(q, op).Keys == q.Keys
  {
    if op.Claim? {
      JobQueueRuns.ClaimIsOldest(q, op.now, op.leaseAge, op.filter, op.locked);
    }
  }

  lemma EnqueueRows(q: JobQueue.Queue, op: JobQueue.Op, id: string)
    requires op.Enqueue? || op.EnqueueSource? || op.EnqueueMusicbrainz?
    requires JobQueue.Allowed(q, op) && id in JobQueue.Step(q, op) && id !in q
    ensures RowOf(op, JobQueue.Step(q, op)[id])
  {
  }

  lemma BatchRows(q: JobQueue.Queue, op: JobQueue.Op, id: string)
    requires op.EnqueueSelections? || op.Recover?
    requires JobQueueSafety.Inv(q) && JobQueue.Allowed(q, op) && id in JobQueue.Step(q, op) && id !in q
    ensures RowOf(op, JobQueue.Step(q, op)[id])
  {
    if op.EnqueueSelections? {
      NewSelections(q, JobQueue.SortedRecords(op.times), op.times, op.ids, |op.times|, id);
    } else {
      var blocked := JobQueue.JobsOf(q, JobQueue.Blocked(q, op.limit));
      JobQueueRuns.RecoveryQueuesEachRecordOnce(q, blocked, op.now, op.ids, |op.ids|);
    }
  }

  lemma NewRows(q: JobQueue.Queue, op: JobQueue.Op, id: string)
    requires JobQueueSafety.Inv(q) && JobQueue.Allowed(q, op) && id in JobQueue.Step(q, op) && id !in q
    ensures RowOf(op, JobQueue.Step(q, op)[id])
  {
    if op.Claim? || op.Finish? {
      ClaimAddsNoRow(q, op);
    } else if op.EnqueueSelections? || op.Recover? {
      BatchRows(q, op, id);
    } else {
      EnqueueRows(q, op, id);
    }
  }

  lemma {:induction false} NewSelections(
    q: JobQueue.Queue, records: seq<string>, times: map<string, int>, ids: seq<string>, n: nat, id: string)
    requires n <= |records| == |ids| && (forall r :: r in records ==> r in times)
    requires id in JobQueue.RefreshEach(q, records, times, ids, n) && id !in q
    ensures var j := JobQueue.RefreshEach(q, records, times, ids, n)[id];
            j.sourceRevision.None? && j.kind == JobQueue.SELECTION
    decreases n
  {
    if n > 0 && id in JobQueue.RefreshEach(q, records, times, ids, n - 1) {
      NewSelections(q, records, times, ids, n - 1, id);
    }
  }

  lemma QueueStepKeepsOk(s: State, step: JobQueue.Op)
    requires StateOk(s) && JobQueue.Allowed(s.jobs, step) && ReadsRevision(s.source, step)
    ensures StateOk(s.(jobs := JobQueue.Step(s.jobs, step)))
  {
    var after := JobQueue.Step(s.jobs, step);
    JobQueueSafety.StepKeepsInv(s.jobs, step);
    JobQueueRuns.StepExtends(s.jobs, step);
    forall id | id in after ensures JobFits(s.source, after[id]) {
      if id in s.jobs {
        assert JobFits(s.source, s.jobs[id]) && JobQueueRuns.Extends(s.jobs[id], after[id]);
      } else {
        NewRows(s.jobs, step, id);
      }
    }
  }

  lemma ApplyKeepsFits(cs: Codecs, s: State, request: Request, origin: string, env: Env, id: string)
    requires StateOk(s) && env.newJob !in s.jobs && Refusal(cs, s, request, env).None?
    requires id in Apply(cs, s, request, origin, env).jobs
    ensures JobFits(Apply(cs, s, request, origin, env).source, Apply(cs, s, request, origin, env).jobs[id])
  {
    assert id in s.jobs ==> JobFits(s.source, s.jobs[id]);
    if TextChanged(cs, s.source.fields, request.choices) {
      TextChangeRetiresWork(cs, s, request, origin, env);
    }
  }

  lemma ApplyKeepsQueue(cs: Codecs, s: State, request: Request, origin: string, env: Env)
    requires StateOk(s) && env.newJob !in s.jobs && Refusal(cs, s, request, env).None? && !Quiet(cs, s, request, origin)
    ensures JobQueueSafety.Inv(Apply(cs, s, request, origin, env).jobs)
  {
    if TextChanged(cs, s.source.fields, request.choices) {
      TextChangeRetiresWork(cs, s, request, origin, env);
    } else {
      DecisionChangeCarriesWork(cs, s, request, origin, env);
    }
  }

  lemma ApplyKeepsOk(cs: Codecs, s: State, request: Request, origin: string, env: Env)
    requires StateOk(s) && env.newJob !in s.jobs
    ensures StateOk(Apply(cs, s, request, origin, env))
  {
    if Refusal(cs, s, request, env).None? && !Quiet(cs, s, request, origin) {
      CurrentRuns(cs, s, request, origin, env);
      ApplyKeepsQueue(cs, s, request, origin, env);
      var after := Apply(cs, s, request, origin, env);
      forall id | id in after.jobs ensures JobFits(after.source, after.jobs[id]) {
        ApplyKeepsFits(cs, s, request, origin, env, id);
      }
    }
  }

  lemma ImportKeepsOk(cs: Codecs, s: State, choices: seq<Choice>, env: Env)
    requires StateOk(s)
    ensures StateOk(RecoverImport(cs, s, choices, env))
  {
    var after := RecoverImport(cs, s, choices, env);
    if after != s {
      assert after.jobs == CarryJobs(s.jobs, {}, s.source.id, s.source.revision, s.source.revision + 1);
      assert after.jobs == s.jobs;
      forall id | id in s.jobs ensures JobFits(after.source, s.jobs[id]) {
        assert JobFits(s.source, s.jobs[id]);
      }
    }
  }

  lemma StepKeepsOk(cs: Codecs, s: State, op: Op)
    requires StateOk(s) && Allowed(s, op)
    ensures StateOk(Step(cs, s, op))
  {
    match op
    case ApplyRequest(request, origin, env) => ApplyKeepsOk(cs, s, request, origin, env);
    case ImportRecovery(choices, env) => ImportKeepsOk(cs, s, choices, env);
    case QueueStep(step) => QueueStepKeepsOk(s, step);
  }

  /** So the statements about queued work above hold of every request of every run. */
  lemma {:induction false} RunKeepsOk(cs: Codecs, s: State, ops: seq<Op>)
    requires StateOk(s) && IsRun(cs, s, ops)
    ensures StateOk(Run(cs, s, ops))
    decreases |ops|
  {
    if ops != [] {
      StepKeepsOk(cs, s, ops[0]);
      RunKeepsOk(cs, Step(cs, s, ops[0]), ops[1..]);
    }
  }
}
