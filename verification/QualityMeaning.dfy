/** What an evaluation selects and says, in terms of the fields of the candidates alone. */
module QualityMeaning {
  import opened Wrappers
  import opened Ordering
  import opened QualityPolicy

  // ---------------------------------------------------------------- candidates

  ghost predicate HasCodec(env: Env, c: Candidate, name: string) {
    match c.codec
    case Known(known) => known == name
    case Named(text) => env.upper(text) == name
  }

  ghost predicate IsLossless(env: Env, c: Candidate) {
    HasCodec(env, c, "FLAC") || HasCodec(env, c, "ALAC")
  }

  ghost predicate IsLossy(env: Env, c: Candidate) {
    HasCodec(env, c, "OPUS") || HasCodec(env, c, "AAC") || HasCodec(env, c, "MP3") || HasCodec(env, c, "VORBIS")
  }

  ghost predicate IsPositive(v: Value) {
    exists n :: n > 0 && v == Int(n)
  }

  ghost predicate IsUnset(v: Value) {
    v == Absent || v == Int(0) || (v.Other? && v.isZero)
  }

  /** Known good, in use, of a known codec, and with exactly the measures its class has. */
  ghost predicate MayBeSelected(env: Env, c: Candidate) {
    && c.confirmed && !c.disappeared
    && env.casefold(c.intakeState) !in {"disappeared", "quarantined", "unsupported", "failed", "invalid_audio"}
    && IsPositive(c.sampleRate) && IsPositive(c.channels)
    && (|| (IsLossless(env, c) && IsPositive(c.bitDepth) && IsUnset(c.bitrate))
        || (IsLossy(env, c) && IsPositive(c.bitrate) && IsUnset(c.bitDepth)))
  }

  lemma EligibleMeans(env: Env, c: Candidate)
    ensures Eligible(env, c) <==> MayBeSelected(env, c)
  {
    var codec := CodecName(env, c.codec);
    assert codec in LOSSLESS <==> IsLossless(env, c);
    assert codec in LOSSY <==> IsLossy(env, c);
    forall v: Value ensures Positive(v) <==> IsPositive(v) {
    }
  }

  // ---------------------------------------------------------------- which candidate is better

  /** Earlier in the list of codecs, best first. */
  ghost predicate HasBetterCodec(env: Env, c: Candidate, d: Candidate) {
    exists i, k :: 0 <= i < k < 6
                   && HasCodec(env, c, ["FLAC", "ALAC", "OPUS", "AAC", "MP3", "VORBIS"][i])
                   && HasCodec(env, d, ["FLAC", "ALAC", "OPUS", "AAC", "MP3", "VORBIS"][k])
  }

  ghost predicate HasSameCodec(env: Env, c: Candidate, d: Candidate) {
    exists name :: HasCodec(env, c, name) && HasCodec(env, d, name)
  }

  /** A lossless codec before a lossy one, then the codec, depth (lossless), rate, channels and bitrate (lossy). */
  ghost predicate Beats(env: Env, c: Candidate, d: Candidate)
    requires MayBeSelected(env, c) && MayBeSelected(env, d)
  {
    || HasBetterCodec(env, c, d)
    || (HasSameCodec(env, c, d)
        && if IsLossless(env, c) then
             || c.bitDepth.n > d.bitDepth.n
             || (c.bitDepth == d.bitDepth && MeasuresBeat(c, d))
           else
             || MeasuresBeat(c, d)
             || (c.sampleRate == d.sampleRate && c.channels == d.channels && c.bitrate.n > d.bitrate.n))
  }

  ghost predicate MeasuresBeat(c: Candidate, d: Candidate)
    requires c.sampleRate.Int? && c.channels.Int? && d.sampleRate.Int? && d.channels.Int?
  {
    || c.sampleRate.n > d.sampleRate.n
    || (c.sampleRate == d.sampleRate && c.channels.n > d.channels.n)
  }

  ghost predicate RankIs(env: Env, c: Candidate, rank: int) {
    && (rank == 5 <==> HasCodec(env, c, "FLAC")) && (rank == 4 <==> HasCodec(env, c, "ALAC"))
    && (rank == 3 <==> HasCodec(env, c, "OPUS")) && (rank == 2 <==> HasCodec(env, c, "AAC"))
    && (rank == 1 <==> HasCodec(env, c, "MP3")) && (rank == 0 <==> HasCodec(env, c, "VORBIS"))
    && 0 <= rank <= 5
  }

  /** The recorded tuple: class, rank of the codec and the measures, a measure the class lacks being zero. */
  ghost predicate IsTuple(env: Env, c: Candidate, q: seq<int>)
    requires MayBeSelected(env, c)
  {
    && |q| == 7 && RankIs(env, c, q[2])
    && q == if IsLossless(env, c) then [1, 2, q[2], c.bitDepth.n, c.sampleRate.n, c.channels.n, 0]
            else [1, 1, q[2], 0, c.sampleRate.n, c.channels.n, c.bitrate.n]
  }

  lemma QualityMeans(env: Env, c: Candidate)
    requires MayBeSelected(env, c)
    ensures Quality(env, c).Some? && IsTuple(env, c, Quality(env, c).value)
  {
    EligibleMeans(env, c);
    var codec := CodecName(env, c.codec);
    assert codec in LOSSLESS <==> IsLossless(env, c);
    assert codec in LOSSY <==> IsLossy(env, c);
    assert RankIs(env, c, RANK[codec]);
  }

  lemma RanksDecide(env: Env, c: Candidate, d: Candidate, r: int, s: int)
    requires RankIs(env, c, r) && RankIs(env, d, s)
    ensures HasBetterCodec(env, c, d) <==> r > s
    ensures HasSameCodec(env, c, d) <==> r == s
  {
    var order := ["FLAC", "ALAC", "OPUS", "AAC", "MP3", "VORBIS"];
    assert HasCodec(env, c, order[5 - r]) && HasCodec(env, d, order[5 - s]);
    forall i | 0 <= i < 6
      ensures HasCodec(env, c, order[i]) <==> i == 5 - r
      ensures HasCodec(env, d, order[i]) <==> i == 5 - s
    {
    }
  }

  /** Two tuples, position by position. */
  ghost predicate TupleLess(a: seq<int>, b: seq<int>, i: nat)
    requires |a| == |b| && i <= |a|
    decreases |a| - i
  {
    i < |a| && (a[i] < b[i] || (a[i] == b[i] && TupleLess(a, b, i + 1)))
  }

  lemma {:induction false} TuplesCompared(a: seq<int>, b: seq<int>, i: nat)
    requires |a| == |b| && i <= |a|
    ensures LexLess(a[i..], b[i..]) <==> TupleLess(a, b, i)
    decreases |a| - i
  {
    if i < |a| {
      assert a[i..][1..] == a[i + 1..] && b[i..][1..] == b[i + 1..];
      TuplesCompared(a, b, i + 1);
    }
  }

  lemma SevenCompared(a: seq<int>, b: seq<int>)
    requires |a| == |b| == 7
    ensures LexLess(a, b) <==>
            || a[0] < b[0]
            || (a[0] == b[0] && (|| a[1] < b[1]
                                 || (a[1] == b[1] && (|| a[2] < b[2]
                                                      || (a[2] == b[2] && MeasuresLess(a, b))))))
  {
    TuplesCompared(a, b, 0);
    assert a[0..] == a && b[0..] == b;
    assert TupleLess(a, b, 7) == false;
    assert TupleLess(a, b, 6) <==> a[6] < b[6];
    assert TupleLess(a, b, 5) <==> a[5] < b[5] || (a[5] == b[5] && a[6] < b[6]);
    assert TupleLess(a, b, 3) <==> MeasuresLess(a, b);
    assert TupleLess(a, b, 2) <==> a[2] < b[2] || (a[2] == b[2] && MeasuresLess(a, b));
  }

  ghost predicate MeasuresLess(a: seq<int>, b: seq<int>)
    requires |a| == |b| == 7
  {
    || a[3] < b[3]
    || (a[3] == b[3] && (|| a[4] < b[4]
                         || (a[4] == b[4] && (a[5] < b[5] || (a[5] == b[5] && a[6] < b[6])))))
  }

  /** An eligible candidate is strictly better than another one exactly when it beats it on these fields. */
  lemma BetterMeans(env: Env, c: Candidate, d: Candidate)
    requires MayBeSelected(env, c) && MayBeSelected(env, d)
    ensures Quality(env, d).Some?
    ensures StrictlyBetter(env, c, Quality(env, d).value) <==> Beats(env, c, d)
  {
    QualityMeans(env, c);
    QualityMeans(env, d);
    var q, r := Quality(env, c).value, Quality(env, d).value;
    RanksDecide(env, c, d, q[2], r[2]);
    SevenCompared(r, q);
    assert IsLossless(env, c) <==> q[2] >= 4;
    assert IsLossless(env, d) <==> r[2] >= 4;
  }

  // ---------------------------------------------------------------- the winner

  ghost predicate IsOffered(env: Env, candidates: seq<Candidate>, c: Candidate) {
    c in candidates && MayBeSelected(env, c)
  }

  /** Nothing offered beats it, and of what ties with it, it has the least source id. */
  ghost predicate IsWinner(env: Env, candidates: seq<Candidate>, w: Candidate) {
    && IsOffered(env, candidates, w)
    && forall c :: IsOffered(env, candidates, c) ==>
         !Beats(env, c, w) && (Beats(env, w, c) || w.source == c.source || TextLess(w.source, c.source))
  }

  lemma {:induction false} NegatedLess(a: seq<int>, b: seq<int>, x: seq<int>, y: seq<int>)
    requires |a| == |b|
    ensures LexLess(Negated(a) + x, Negated(b) + y) <==> LexLess(b, a) || (a == b && LexLess(x, y))
    decreases |a|
  {
    if a == [] {
      assert Negated(a) + x == x && Negated(b) + y == y;
    } else {
      assert (Negated(a) + x)[1..] == Negated(a[1..]) + x && (Negated(b) + y)[1..] == Negated(b[1..]) + y;
      assert a == [a[0]] + a[1..] && b == [b[0]] + b[1..];
      NegatedLess(a[1..], b[1..], x, y);
    }
  }

  lemma PreferenceMeans(env: Env, c: Candidate, d: Candidate)
    requires MayBeSelected(env, c) && MayBeSelected(env, d)
    requires LexLeq(Preference(env, c), Preference(env, d))
    ensures !Beats(env, d, c) && (Beats(env, c, d) || c.source == d.source || TextLess(c.source, d.source))
  {
    QualityMeans(env, c);
    QualityMeans(env, d);
    var q, r := Quality(env, c).value, Quality(env, d).value;
    NegatedLess(q, r, Codes(c.source), Codes(d.source));
    NegatedLess(r, q, Codes(d.source), Codes(c.source));
    BetterMeans(env, c, d);
    BetterMeans(env, d, c);
    LexTrichotomy(q, r);
    LexTrichotomy(Preference(env, c), Preference(env, d));
    TextOrder(c.source, d.source);
    if Preference(env, c) == Preference(env, d) {
      PreferenceInjective(env, c, d);
    }
  }

  lemma WinnerMeans(env: Env, candidates: seq<Candidate>)
    ensures var best := Best(env, Eligibles(env, candidates));
            && (best.None? <==> forall c :: !IsOffered(env, candidates, c))
            && (best.Some? ==> IsWinner(env, candidates, best.value))
  {
    var eligible := Eligibles(env, candidates);
    forall c ensures IsOffered(env, candidates, c) <==> c in eligible {
      EligibleMeans(env, c);
    }
    if eligible != [] {
      var best := Best(env, eligible).value;
      forall c | c in eligible
        ensures !Beats(env, c, best)
        ensures Beats(env, best, c) || best.source == c.source || TextLess(best.source, c.source)
      {
        BestIsLeast(env, eligible, c);
        PreferenceMeans(env, best, c);
      }
    } else {
      NonEmptyHasMember(eligible);
    }
  }

  // ---------------------------------------------------------------- the decision

  /** The decision for a candidate: its source and its tuple, under the current policy. */
  ghost predicate Chooses(
    env: Env, candidates: seq<Candidate>, c: Candidate, baseline: Option<string>, reason: Reason, key: string,
    d: Decision)
  {
    && IsOffered(env, candidates, c)
    && d == Decision(Some(c.source), baseline, "quality-policy-v1", d.quality, reason, key)
    && d.quality.Some? && IsTuple(env, c, d.quality.value)
  }

  ghost predicate Keeps(previous: Decision, reason: Reason, key: string, d: Decision) {
    d == Decision(previous.source, previous.baseline, "quality-policy-v1", previous.quality, reason, key)
  }

  ghost predicate NoneOffered(env: Env, candidates: seq<Candidate>) {
    forall c :: !IsOffered(env, candidates, c)
  }

  /** Some candidate of this id is still offered. */
  ghost predicate StillOffered(env: Env, candidates: seq<Candidate>, source: string) {
    exists c :: IsOffered(env, candidates, c) && c.source == source
  }

  ghost predicate ChoosesWinner(
    env: Env, candidates: seq<Candidate>, baseline: Option<string>, reason: Reason, key: string, d: Decision)
  {
    exists w :: IsWinner(env, candidates, w) && Chooses(env, candidates, w, baseline, reason, key, d)
  }

  /** The winner's tuple is greater than the recorded one, at the first position where they differ. */
  ghost predicate WinnerExceeds(env: Env, candidates: seq<Candidate>, quality: seq<int>) {
    exists w, q :: IsWinner(env, candidates, w) && IsTuple(env, w, q) && SeqLess(quality, q)
  }

  /** A manual baseline: replaced when its source is gone, else kept unless new candidates bring a better one. */
  ghost predicate JudgesBaseline(
    env: Env, candidates: seq<Candidate>, previous: Decision, quality: seq<int>, key: string, d: Decision)
    requires previous.source.Some?
  {
    if !StillOffered(env, candidates, previous.source.value) && !NoneOffered(env, candidates) then
      ChoosesWinner(env, candidates, previous.baseline, IneligibleSourceReplaced, key, d)
    else if key == previous.setKey then Keeps(previous, previous.reason, key, d)
    else if WinnerExceeds(env, candidates, quality) then
      ChoosesWinner(env, candidates, previous.baseline, StrictlyBetterReplacement, key, d)
    else Keeps(previous, ManualBaselineRetained, key, d)
  }

  ghost predicate JudgesSelection(
    env: Env, candidates: seq<Candidate>, previous: Decision, quality: seq<int>, key: string, d: Decision)
    requires previous.source.Some?
  {
    if NoneOffered(env, candidates) then Keeps(previous, CurrentSelectionRetained, key, d)
    else if !StillOffered(env, candidates, previous.source.value) then
      ChoosesWinner(env, candidates, None, IneligibleSourceReplaced, key, d)
    else if WinnerExceeds(env, candidates, quality) then
      ChoosesWinner(env, candidates, None, StrictlyBetterReplacement, key, d)
    else Keeps(previous, CurrentSelectionRetained, key, d)
  }

  ghost predicate Judges(env: Env, candidates: seq<Candidate>, previous: Option<Decision>, key: string, d: Decision) {
    if previous == None || previous.value.source == None || previous.value.quality == None then
      if NoneOffered(env, candidates)
      then d == Decision(None, None, "quality-policy-v1", None, NoEligibleSource, key)
      else ChoosesWinner(env, candidates, None, InitialSelection, key, d)
    else if previous.value.baseline != None
    then JudgesBaseline(env, candidates, previous.value, previous.value.quality.value, key, d)
    else JudgesSelection(env, candidates, previous.value, previous.value.quality.value, key, d)
  }

  lemma WinnerChosen(
    env: Env, candidates: seq<Candidate>, baseline: Option<string>, reason: Reason, key: string)
    requires !NoneOffered(env, candidates)
    ensures Best(env, Eligibles(env, candidates)).Some?
    ensures ChoosesWinner(env, candidates, baseline, reason, key,
                          Decide(env, Best(env, Eligibles(env, candidates)).value, baseline, reason, key))
  {
    WinnerMeans(env, candidates);
    QualityMeans(env, Best(env, Eligibles(env, candidates)).value);
  }

  lemma SameTuple(env: Env, c: Candidate, q: seq<int>, r: seq<int>)
    requires MayBeSelected(env, c) && IsTuple(env, c, q) && IsTuple(env, c, r)
    ensures q == r
  {
  }

  lemma WinnersTie(env: Env, candidates: seq<Candidate>, v: Candidate, w: Candidate)
    requires IsWinner(env, candidates, v) && IsWinner(env, candidates, w)
    ensures Quality(env, v) == Quality(env, w)
  {
    QualityMeans(env, v);
    QualityMeans(env, w);
    BetterMeans(env, v, w);
    BetterMeans(env, w, v);
    LexTrichotomy(Quality(env, v).value, Quality(env, w).value);
  }

  lemma ExceedsMeans(env: Env, candidates: seq<Candidate>, quality: seq<int>)
    ensures var best := Best(env, Eligibles(env, candidates));
            WinnerExceeds(env, candidates, quality) <==> best.Some? && StrictlyBetter(env, best.value, quality)
  {
    WinnerMeans(env, candidates);
    var best := Best(env, Eligibles(env, candidates));
    if best.Some? {
      QualityMeans(env, best.value);
      LexLessMeans(quality, Quality(env, best.value).value);
    }
    if w, q :| IsWinner(env, candidates, w) && IsTuple(env, w, q) && SeqLess(quality, q) {
      QualityMeans(env, w);
      SameTuple(env, w, q, Quality(env, w).value);
      WinnersTie(env, candidates, w, best.value);
    }
  }

  lemma CurrentMeans(env: Env, candidates: seq<Candidate>, source: string)
    ensures ById(Eligibles(env, candidates), source).Some? <==> StillOffered(env, candidates, source)
  {
    forall c ensures IsOffered(env, candidates, c) <==> c in Eligibles(env, candidates) {
      EligibleMeans(env, c);
    }
  }

  /** The winner and the selected candidate, as the policy finds them. */
  ghost predicate Finds(
    env: Env, candidates: seq<Candidate>, previous: Decision, quality: seq<int>, winner: Option<Candidate>,
    current: Option<Candidate>)
    requires previous.source.Some?
  {
    && (winner.None? <==> NoneOffered(env, candidates))
    && (current.Some? <==> StillOffered(env, candidates, previous.source.value))
    && (WinnerExceeds(env, candidates, quality) <==> winner.Some? && StrictlyBetter(env, winner.value, quality))
  }

  lemma BaselineJudged(
    env: Env, candidates: seq<Candidate>, previous: Decision, quality: seq<int>, winner: Option<Candidate>,
    current: Option<Candidate>, key: string)
    requires previous.source.Some? && Finds(env, candidates, previous, quality, winner, current)
    requires winner.Some? ==>
               && ChoosesWinner(env, candidates, previous.baseline, IneligibleSourceReplaced, key,
                                Decide(env, winner.value, previous.baseline, IneligibleSourceReplaced, key))
               && ChoosesWinner(env, candidates, previous.baseline, StrictlyBetterReplacement, key,
                                Decide(env, winner.value, previous.baseline, StrictlyBetterReplacement, key))
    ensures JudgesBaseline(env, candidates, previous, quality, key,
                           WithBaseline(env, previous, quality, winner, current, key))
  {
  }

  lemma SelectionJudged(
    env: Env, candidates: seq<Candidate>, previous: Decision, quality: seq<int>, winner: Option<Candidate>,
    current: Option<Candidate>, key: string)
    requires previous.source.Some? && Finds(env, candidates, previous, quality, winner, current)
    requires winner.Some? ==>
               && ChoosesWinner(env, candidates, None, IneligibleSourceReplaced, key,
                                Decide(env, winner.value, None, IneligibleSourceReplaced, key))
               && ChoosesWinner(env, candidates, None, StrictlyBetterReplacement, key,
                                Decide(env, winner.value, None, StrictlyBetterReplacement, key))
    ensures JudgesSelection(env, candidates, previous, quality, key,
                            WithoutBaseline(env, previous, quality, winner, current, key))
  {
  }

  lemma JudgeMeans(env: Env, candidates: seq<Candidate>, previous: Option<Decision>, key: string)
    ensures Judges(env, candidates, previous, key, Automatic(env, Eligibles(env, candidates), previous, key))
  {
    WinnerMeans(env, candidates);
    if previous == None || previous.value.source == None || previous.value.quality == None {
      if !NoneOffered(env, candidates) {
        WinnerChosen(env, candidates, None, InitialSelection, key);
      }
    } else {
      SelectedIsJudged(env, candidates, previous.value, previous.value.quality.value, key);
    }
  }

  lemma SelectedIsJudged(
    env: Env, candidates: seq<Candidate>, previous: Decision, quality: seq<int>, key: string)
    requires previous.source.Some? && previous.quality == Some(quality)
    ensures Judges(
              env, candidates, Some(previous), key, Automatic(env, Eligibles(env, candidates), Some(previous), key))
  {
    var eligible := Eligibles(env, candidates);
    var winner, current := Best(env, eligible), CurrentOf(eligible, Some(previous));
    WinnerMeans(env, candidates);
    CurrentMeans(env, candidates, previous.source.value);
    ExceedsMeans(env, candidates, quality);
    if winner.Some? {
      WinnerChosen(env, candidates, previous.baseline, IneligibleSourceReplaced, key);
      WinnerChosen(env, candidates, previous.baseline, StrictlyBetterReplacement, key);
    }
    if previous.baseline.Some? {
      BaselineJudged(env, candidates, previous, quality, winner, current, key);
    } else {
      SelectionJudged(env, candidates, previous, quality, winner, current, key);
    }
  }

  /**
     The whole evaluation: a manual choice must be offered and becomes the baseline, a decision of another policy is
     only marked for review, and otherwise the winner is judged against what was selected before.
   */
  lemma EvaluateMeans(
    env: Env, candidates: seq<Candidate>, previous: Option<Decision>, manual: Option<string>, given: Option<string>)
    ensures var r, key := Evaluate(env, candidates, previous, manual, given), SetKey(env, candidates, given);
            if manual.Some? then
              if StillOffered(env, candidates, manual.value) then
                r.Ok? && exists c: Candidate ::
                  c.source == manual.value && Chooses(env, candidates, c, manual, ManualBaseline, key, r.value)
              else r.Err?
            else
              && r.Ok?
              && if previous.Some? && previous.value.version != "quality-policy-v1"
                 then Keeps(previous.value, PolicyVersionReview, key, r.value)
                 else Judges(env, candidates, previous, key, r.value)
  {
    var key := SetKey(env, candidates, given);
    if manual.Some? {
      CurrentMeans(env, candidates, manual.value);
      var found := ById(Eligibles(env, candidates), manual.value);
      if found.Some? {
        EligibleMeans(env, found.value);
        QualityMeans(env, found.value);
        assert Chooses(env, candidates, found.value, manual, ManualBaseline, key,
                       Decide(env, found.value, manual, ManualBaseline, key));
      }
    } else {
      JudgeMeans(env, candidates, previous, key);
    }
  }

  // ---------------------------------------------------------------- the key of a candidate set

  /** The candidates with their codecs by name. */
  ghost predicate IsNamed(env: Env, c: Candidate, d: Candidate) {
    d == c.(codec := d.codec) && d.codec.Known? && HasCodec(env, c, d.codec.name)
  }

  /** A given key, if any, or the digest of the candidates in the order of their ids, each once, codecs by name. */
  lemma SetKeyMeans(env: Env, candidates: seq<Candidate>, given: Option<string>)
    returns (order: seq<Candidate>, named: seq<Candidate>)
    ensures multiset(order) == multiset(candidates)
    ensures forall i, k :: 0 <= i < k < |order| ==>
              order[i].source == order[k].source || TextLess(order[i].source, order[k].source)
    ensures if given.Some? && given.value != "" then SetKey(env, candidates, given) == given.value
            else SetKey(env, candidates, given) == env.digest(named)
    ensures |named| == |order| && forall i :: 0 <= i < |order| ==> IsNamed(env, order[i], named[i])
  {
    var bySource := (c: Candidate) => Codes(c.source);
    order := Sort(bySource, candidates);
    SortSorted(bySource, candidates);
    forall i, k | 0 <= i < k < |order|
      ensures order[i].source == order[k].source || TextLess(order[i].source, order[k].source)
    {
      TextOrder(order[i].source, order[k].source);
      if Codes(order[i].source) == Codes(order[k].source) {
        CodesInjective(order[i].source, order[k].source);
      }
    }
    named := Canonical(env, candidates);
  }
}
