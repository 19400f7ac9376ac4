/** The service that previews and applies encoding requests to one source and its queued work. */
module EncodingService {
  import opened Wrappers
  import opened SourceEncoding
  import opened SourceEncodingMeaning
  import JobQueue
  import JobMeaning

  /** The recovery loop collects the distinct readings that can be undone. */
  method CodecValue(cs: Codecs, f: Field, codec: string) returns (r: Option<string>)
    ensures r == RecoverCodec(cs, f, codec)
    ensures forall v :: r == Some(v) <==> IsRecovered(cs, f, codec, v)
  {
    forall v ensures RecoverCodec(cs, f, codec) == Some(v) <==> IsRecovered(cs, f, codec, v) {
      RecoveredMeans(cs, f, codec, v);
    }
    var original := OriginalOf(f);
    if f.prepared.Some? && f.declared.Some? && f.declared.value in BYTE_CODECS {
      var value := cs.decode(codec, f.prepared.value);
      if value.None? || cs.encode(codec, value.value) != f.prepared {
        return None;
      }
      return value;
    }
    var candidates: set<string> := {};
    for i := 0 to |MISTAKEN|
      invariant candidates == CandidateSet(cs, original, codec, i)
    {
      var bytes := cs.encode(MISTAKEN[i], original);
      if bytes.Some? {
        var value := cs.decode(codec, bytes.value);
        if value.Some? && Reread(cs, value.value, codec, MISTAKEN[i]) == Some(original) {
          candidates := candidates + {value.value};
        }
      }
    }
    r := OnlyMember(candidates);
  }

  datatype EncodingPreview = EncodingPreview(fields: seq<Preview>, valid: bool)

  /** The preview of each choice, all against the fields as they are; refused at another revision. */
  method PreviewEncoding(cs: Codecs, s: Source, request: Request) returns (r: Result<EncodingPreview, Failure>)
    ensures r.Err? <==> s.revision != request.expected
    ensures r.Err? ==> r.error == RevisionChanged
    ensures r.Ok? ==>
              && |r.value.fields| == |request.choices|
              && (forall i :: 0 <= i < |request.choices| ==>
                    r.value.fields[i] == PreviewChoice(cs, s.fields, request.choices[i]))
              && (r.value.valid <==> AllValid(cs, s.fields, request.choices))
    ensures r.Ok? ==>
              && (forall i :: 0 <= i < |request.choices| ==>
                    if request.choices[i].field in s.fields
                    then IsPreview(cs, s.fields[request.choices[i].field], request.choices[i], r.value.fields[i])
                    else r.value.fields[i] == Preview(request.choices[i].field, None, false, Some(UnknownField)))
              && (r.value.valid <==>
                    forall i :: 0 <= i < |request.choices| ==> IsGood(cs, s.fields, request.choices[i]))
  {
    forall i | 0 <= i < |request.choices|
      ensures request.choices[i].field in s.fields ==>
                IsPreview(cs, s.fields[request.choices[i].field], request.choices[i],
                          PreviewChoice(cs, s.fields, request.choices[i]))
      ensures PreviewChoice(cs, s.fields, request.choices[i]).error == None
              <==> IsGood(cs, s.fields, request.choices[i])
    {
      GoodMeans(cs, s.fields, request.choices[i]);
      if request.choices[i].field in s.fields {
        PreviewMeans(cs, s.fields[request.choices[i].field], request.choices[i]);
      }
    }
    if s.revision != request.expected {
      return Err(RevisionChanged);
    }
    var previews, valid := [], true;
    for k := 0 to |request.choices|
      invariant |previews| == k
      invariant forall i :: 0 <= i < k ==> previews[i] == PreviewChoice(cs, s.fields, request.choices[i])
      invariant valid <==> forall i :: 0 <= i < k ==> PreviewChoice(cs, s.fields, request.choices[i]).error.None?
    {
      var preview := PreviewChoice(cs, s.fields, request.choices[k]);
      previews := previews + [preview];
      valid := valid && preview.error.None?;
    }
    r := Ok(EncodingPreview(previews, valid));
  }

  /** No analysis of the source is left active once the given jobs are superseded. */
  predicate IdleAfter(s: State, active: set<string>) {
    JobQueue.ActiveFor(SupersedeJobs(s.jobs, active), JobQueue.Source(s.source.id), ANALYSIS) == {}
  }

  class Service {
    var source: Source
    var jobs: JobQueue.Queue
    const cs: Codecs

    constructor (cs: Codecs, source: Source, jobs: JobQueue.Queue)
      ensures this.cs == cs && State() == SourceEncoding.State(source, jobs)
    {
      this.cs, this.source, this.jobs := cs, source, jobs;
    }

    function State(): SourceEncoding.State
      reads this
    {
      SourceEncoding.State(source, jobs)
    }

    method ApplyEncoding(request: Request, origin: string, env: Env) returns (r: Result<Applied, Failure>)
      modifies this
      ensures State() == Apply(cs, old(State()), request, origin, env)
      ensures r == Err(ProcessingBusy) <==> IsBusy(old(State()), env)
      ensures r == Err(RevisionChanged) <==> !IsBusy(old(State()), env) && old(source).revision != request.expected
      ensures r.Ok? <==>
              && !IsBusy(old(State()), env) && old(source).revision == request.expected
              && forall i :: 0 <= i < |request.choices| ==> IsGood(cs, old(source).fields, request.choices[i])
      ensures match Refusal(cs, old(State()), request, env)
              case Some(failure) => r == Err(failure)
              case None => r.Ok? && r.value.revision == source.revision
                           && (r.value.queued <==> TextChanged(cs, old(source.fields), request.choices)
                                                   && IdleAfter(old(State()), ActiveJobs(old(State()))))
    {
      RefusalMeans(cs, State(), request, env);
      if Busy(State(), env) {
        return Err(ProcessingBusy);
      }
      var preview := PreviewEncoding(cs, source, request);
      if preview.Err? {
        return Err(preview.error);
      }
      if !preview.value.valid {
        return Err(InvalidChoices);
      }
      var queued := WriteEncoding(request, preview.value.fields, ActiveJobs(State()), origin, true, env);
      r := Ok(Applied(source.revision, queued));
    }

    method RecoverImportEncoding(choices: seq<Choice>, env: Env) returns (valid: bool)
      modifies this
      ensures State() == RecoverImport(cs, old(State()), choices, env)
      ensures valid <==> AllValid(cs, old(source.fields), choices)
      ensures valid <==> forall i :: 0 <= i < |choices| ==> IsGood(cs, old(source).fields, choices[i])
    {
      var request := Request(source.revision, choices);
      var preview := PreviewEncoding(cs, source, request);
      valid := preview.value.valid;
      if valid {
        var _ := WriteEncoding(request, preview.value.fields, {}, AUTO, false, env);
      }
    }

    method WriteEncoding(
      request: Request, previews: seq<Preview>, active: set<string>, origin: string, enqueue: bool, env: Env)
      returns (queued: bool)
      requires |previews| == |request.choices|
      requires forall i :: 0 <= i < |previews| ==> previews[i] == PreviewChoice(cs, source.fields, request.choices[i])
      modifies this
      ensures State() == Write(cs, old(State()), request, active, origin, enqueue, env)
      ensures queued <==>
              TextChanged(cs, old(source.fields), request.choices) && enqueue
              && IdleAfter(old(State()), active)
    {
      var textChanged := exists i :: 0 <= i < |previews| && previews[i].changed;
      assert textChanged <==> TextChanged(cs, source.fields, request.choices);
      if !textChanged && !DecisionChanged(source.fields, request.choices, origin) {
        return false;
      }
      queued := WriteChanged(request, previews, active, origin, textChanged && enqueue, env);
    }

    method WriteChanged(
      request: Request, previews: seq<Preview>, active: set<string>, origin: string, retire: bool, env: Env)
      returns (queued: bool)
      requires |previews| == |request.choices|
      requires forall i :: 0 <= i < |previews| ==> previews[i] == PreviewChoice(cs, source.fields, request.choices[i])
      modifies this
      ensures source == Revised(cs, old(source), request, origin, retire, env)
      ensures jobs == Requeued(old(State()), request.expected, active, retire, env)
      ensures queued <==> retire && IdleAfter(old(State()), active)
    {
      Revise(request, previews, origin, env);
      queued := false;
      if retire {
        RetireJobs(active);
        source := source.(runs := source.runs + [CandidateRun("musicbrainz", source.revision)]);
        queued := QueueAnalysis(env);
      } else {
        CarryWork(active, request.expected);
      }
      source := source.(events := source.events + [Event(origin, request.expected, source.revision)]);
    }

    method QueueAnalysis(env: Env) returns (queued: bool)
      modifies this`jobs
      ensures queued <==> JobQueue.ActiveFor(old(jobs), JobQueue.Source(source.id), ANALYSIS) == {}
      ensures jobs == JobQueue.EnqueueForSource(old(jobs), source.id, ANALYSIS, env.now, None, Some(source.revision),
              env.newJob)
    {
      queued := JobQueue.ActiveFor(jobs, JobQueue.Source(source.id), ANALYSIS) == {};
      jobs := JobQueue.EnqueueForSource(jobs, source.id, ANALYSIS, env.now, None, Some(source.revision), env.newJob);
    }

    /** The new row of the source, its work untouched so far. */
    method Revise(request: Request, previews: seq<Preview>, origin: string, env: Env)
      requires |previews| == |request.choices|
      requires forall i :: 0 <= i < |previews| ==> previews[i] == PreviewChoice(cs, source.fields, request.choices[i])
      modifies this`source
      ensures source == old(source).(
                record := Some(if old(source).record.Some? then old(source).record.value else env.newRecord),
                revision := old(source).revision + 1,
                fields := Written(cs, old(source).fields, request.choices, origin, |request.choices|))
    {
      var record := if source.record.Some? then source.record.value else env.newRecord;
      source := source.(record := Some(record));
      WriteChoices(request.choices, previews, origin);
      source := source.(revision := source.revision + 1);
    }

    method WriteChoices(choices: seq<Choice>, previews: seq<Preview>, origin: string)
      requires |previews| == |choices|
      requires forall i :: 0 <= i < |previews| ==> previews[i] == PreviewChoice(cs, source.fields, choices[i])
      modifies this`source
      ensures source == old(source).(fields := Written(cs, old(source.fields), choices, origin, |choices|))
    {
      ghost var before := source;
      for i := 0 to |choices|
        invariant source == before.(fields := Written(cs, before.fields, choices, origin, i))
      {
        var result, choice := previews[i], choices[i];
        if choice.mode != Keep && choice.field in source.fields {
          var field := source.fields[choice.field];
          if field.original.None? {
            field := field.(original := Some(field.value));
          }
          if result.value.Some? {
            field := field.(value := result.value.value);
          }
          field := field.(applied := Some(choice), origin := Some(origin));
          source := source.(fields := source.fields[choice.field := field]);
        }
      }
    }

    method RetireJobs(active: set<string>)
      modifies this`jobs
      ensures jobs == SupersedeJobs(old(jobs), active)
    {
      ghost var before := jobs;
      var left, done := active, {};
      while left != {}
        invariant left == active - done && done <= active
        invariant jobs == SupersedeJobs(before, done)
        decreases left
      {
        var id :| id in left;
        if id in jobs && jobs[id].kind != JobQueue.FOLDER {
          jobs := jobs[id := jobs[id].(state := JobQueue.Superseded)];
        }
        left, done := left - {id}, done + {id};
      }
    }

    /** Work and evidence of the revision before go on at the one after. */
    method CarryWork(active: set<string>, expected: nat)
      modifies this
      ensures jobs == CarryJobs(old(jobs), active, source.id, expected, source.revision)
      ensures source == old(source).(runs := CarryRuns(old(source.runs), expected, source.revision))
    {
      ghost var before, runs := jobs, source.runs;
      var count := |source.runs|;
      var left, done := active, {};
      while left != {}
        invariant left == active - done && done <= active && source == old(source)
        invariant jobs == CarryJobs(before, done, source.id, expected, source.revision)
        decreases left
      {
        var id :| id in left;
        if id in jobs && jobs[id].target == JobQueue.Source(source.id) && jobs[id].sourceRevision == Some(expected) {
          jobs := jobs[id := jobs[id].(sourceRevision := Some(source.revision))];
        }
        left, done := left - {id}, done + {id};
      }
      for i := 0 to count
        invariant source == old(source).(runs := source.runs) && |source.runs| == |runs|
        invariant forall k :: 0 <= k < i ==> source.runs[k] == CarryRun(runs[k], expected, source.revision)
        invariant forall k :: i <= k < |runs| ==> source.runs[k] == runs[k]
        invariant jobs == CarryJobs(before, active, source.id, expected, source.revision)
      {
        if source.runs[i].revision == expected {
          source := source.(runs := source.runs[i := source.runs[i].(revision := source.revision)]);
        }
      }
    }

    /** The worker's fence: a claimed job that does not fit the source ends as obsolete, and only then. */
    method EndAtFence(id: string, attempt: nat, now: int) returns (handled: bool)
      requires JobQueue.IsLatestClaim(jobs, id, attempt)
      modifies this`jobs
      ensures handled <==> PassesFence(source, old(jobs)[id])
      ensures !handled <==>
              && old(jobs)[id].target == JobQueue.Source(source.id)
              && (source.replaced
                  || (old(jobs)[id].sourceRevision != None && old(jobs)[id].sourceRevision != Some(source.revision)))
      ensures !handled ==>
                JobMeaning.Ends(old(jobs), jobs, JobQueue.Claimed(id, attempt, false), JobQueue.Superseded,
                                JobQueue.AttemptSucceeded, now)
      ensures handled ==> jobs == old(jobs)
      ensures !handled ==>
                var step := JobQueue.Finish(id, attempt, JobQueue.Obsolete, now);
                && Allowed(old(State()), QueueStep(step))
                && State() == Step(cs, old(State()), QueueStep(step))
      ensures !handled ==> !JobQueue.Active(jobs[id]) && !JobQueue.HasOpenAttempt(jobs[id])
    {
      var job := jobs[id];
      if job.target == JobQueue.Source(source.id)
         && (source.replaced || (job.sourceRevision.Some? && job.sourceRevision.value != source.revision))
      {
        var done := job.attempts[attempt - 1].(state := JobQueue.AttemptSucceeded, finishedAt := Some(now));
        jobs := jobs[id := job.(attempts := job.attempts[attempt - 1 := done])];
        jobs := jobs[id := jobs[id].(state := JobQueue.Superseded, nextAttempt := None)];
        return false;
      }
      return true;
    }
  }
}
