/** The decision which source of a record is used, by a lexicographic quality and sticky manual baselines. */
module QualityPolicy {
  import opened Wrappers
  import opened Ordering

  /** A metadata value of any type: absent, an integer, or something else that may compare equal to zero. */
  datatype Value = Absent | Int(n: int) | Other(isZero: bool, rendering: string)

  /** A codec of the enumeration, or any text. */
  datatype Codec = Known(name: string) | Named(text: string)

  datatype Candidate = Candidate(
    source: string, codec: Codec, bitDepth: Value, sampleRate: Value, channels: Value, bitrate: Value,
    confirmed: bool, intakeState: string, disappeared: bool)

  datatype Reason =
    | InitialSelection | ManualBaseline | ManualBaselineRetained | StrictlyBetterReplacement
    | CurrentSelectionRetained | IneligibleSourceReplaced | PolicyVersionReview | NoEligibleSource

  datatype Decision = Decision(
    source: Option<string>, baseline: Option<string>, version: string, quality: Option<seq<int>>, reason: Reason,
    setKey: string)

  /** Upper case and case folding of texts, and the digest of a canonical candidate list. */
  datatype Env = Env(upper: string -> string, casefold: string -> string, digest: seq<Candidate> -> string)

  const POLICY_VERSION := "quality-policy-v1"
  const LOSSLESS: set<string> := {"FLAC", "ALAC"}
  const LOSSY: set<string> := {"OPUS", "AAC", "MP3", "VORBIS"}
  const RANK: map<string, int> := map["FLAC" := 5, "ALAC" := 4, "OPUS" := 3, "AAC" := 2, "MP3" := 1, "VORBIS" := 0]
  const EXCLUDED: set<string> := {"disappeared", "quarantined", "unsupported", "failed", "invalid_audio"}

  // ---------------------------------------------------------------- quality

  function CodecName(env: Env, codec: Codec): string {
    match codec
    case Known(name) => name
    case Named(text) => env.upper(text)
  }

  predicate Positive(v: Value) {
    v.Int? && v.n > 0
  }

  predicate AbsentOrZero(v: Value) {
    v.Absent? || v == Int(0) || (v.Other? && v.isZero)
  }

  /** The rank of an eligible candidate, compared component by component; nothing when it is not eligible. */
  function Quality(env: Env, c: Candidate): Option<seq<int>> {
    var codec := CodecName(env, c.codec);
    if !c.confirmed || c.disappeared || env.casefold(c.intakeState) in EXCLUDED then None
    else if codec in LOSSLESS then
      if !(Positive(c.bitDepth) && Positive(c.sampleRate) && Positive(c.channels)) || !AbsentOrZero(c.bitrate) then None
      else Some([1, 2, RANK[codec], c.bitDepth.n, c.sampleRate.n, c.channels.n, 0])
    else if codec in LOSSY then
      if !(Positive(c.sampleRate) && Positive(c.channels) && Positive(c.bitrate)) || !AbsentOrZero(c.bitDepth) then None
      else Some([1, 1, RANK[codec], 0, c.sampleRate.n, c.channels.n, c.bitrate.n])
    else None
  }

  predicate Eligible(env: Env, c: Candidate) {
    Quality(env, c).Some?
  }

  function Eligibles(env: Env, candidates: seq<Candidate>): (r: seq<Candidate>)
    ensures forall c :: c in r <==> c in candidates && Eligible(env, c)
  {
    if candidates == [] then []
    else
      var last := candidates[|candidates| - 1];
      Eligibles(env, candidates[..|candidates| - 1]) + if Eligible(env, last) then [last] else []
  }

  function Negated(q: seq<int>): seq<int> {
    seq(|q|, i requires 0 <= i < |q| => -q[i])
  }

  /** Best quality first, then the lesser source id. */
  function Preference(env: Env, c: Candidate): seq<int> {
    (if Eligible(env, c) then Negated(Quality(env, c).value) else []) + Codes(c.source)
  }

  /** The first candidate of least key. */
  function Best(env: Env, candidates: seq<Candidate>): (r: Option<Candidate>)
    ensures r.None? <==> candidates == []
    ensures r.Some? ==> r.value in candidates
  {
    if candidates == [] then None
    else
      var last, best := candidates[|candidates| - 1], Best(env, candidates[..|candidates| - 1]);
      if best.None? || LexLess(Preference(env, last), Preference(env, best.value)) then Some(last) else best
  }

  /** The last candidate of an id. */
  function ById(candidates: seq<Candidate>, source: string): (r: Option<Candidate>)
    ensures r.Some? ==> r.value in candidates && r.value.source == source
    ensures r.None? ==> forall c :: c in candidates ==> c.source != source
  {
    if candidates == [] then None
    else if candidates[|candidates| - 1].source == source then Some(candidates[|candidates| - 1])
    else ById(candidates[..|candidates| - 1], source)
  }

  function Canonical(env: Env, candidates: seq<Candidate>): seq<Candidate> {
    var sorted := Sort((c: Candidate) => Codes(c.source), candidates);
    seq(|sorted|, i requires 0 <= i < |sorted| => sorted[i].(codec := Known(CodecName(env, sorted[i].codec))))
  }

  function SetKey(env: Env, candidates: seq<Candidate>, given: Option<string>): string {
    if given.Some? && given.value != "" then given.value else env.digest(Canonical(env, candidates))
  }

  // ---------------------------------------------------------------- decisions

  function Decide(env: Env, c: Candidate, baseline: Option<string>, reason: Reason, setKey: string): Decision {
    Decision(Some(c.source), baseline, POLICY_VERSION, Quality(env, c), reason, setKey)
  }

  function Retain(previous: Decision, reason: Reason, setKey: string): Decision {
    previous.(version := POLICY_VERSION, reason := reason, setKey := setKey)
  }

  predicate StrictlyBetter(env: Env, c: Candidate, quality: seq<int>) {
    Quality(env, c).Some? && LexLess(quality, Quality(env, c).value)
  }

  function EmptyOrInitial(env: Env, winner: Option<Candidate>, setKey: string): Decision {
    match winner
    case None => Decision(None, None, POLICY_VERSION, None, NoEligibleSource, setKey)
    case Some(c) => Decide(env, c, None, InitialSelection, setKey)
  }

  function WithBaseline(
    env: Env, previous: Decision, quality: seq<int>, winner: Option<Candidate>, current: Option<Candidate>,
    setKey: string): Decision
  {
    if current.None? && winner.Some? then Decide(env, winner.value, previous.baseline, IneligibleSourceReplaced, setKey)
    else if setKey == previous.setKey then Retain(previous, previous.reason, setKey)
    else if winner.None? then Retain(previous, ManualBaselineRetained, setKey)
    else if StrictlyBetter(env, winner.value, quality) then
      Decide(env, winner.value, previous.baseline, StrictlyBetterReplacement, setKey)
    else Retain(previous, ManualBaselineRetained, setKey)
  }

  function WithoutBaseline(
    env: Env, previous: Decision, quality: seq<int>, winner: Option<Candidate>, current: Option<Candidate>,
    setKey: string): Decision
  {
    if winner.None? then Retain(previous, CurrentSelectionRetained, setKey)
    else if current.None? then Decide(env, winner.value, None, IneligibleSourceReplaced, setKey)
    else if !StrictlyBetter(env, winner.value, quality) then Retain(previous, CurrentSelectionRetained, setKey)
    else Decide(env, winner.value, None, StrictlyBetterReplacement, setKey)
  }

  /** The decision, given the best eligible candidate and the eligible one selected so far. */
  function Judge(
    env: Env, winner: Option<Candidate>, current: Option<Candidate>, previous: Option<Decision>,
    setKey: string): Decision
  {
    if previous.None? || previous.value.source.None? || previous.value.quality.None?
      then EmptyOrInitial(env, winner, setKey)
    else if previous.value.baseline.Some? then
      WithBaseline(env, previous.value, previous.value.quality.value, winner, current, setKey)
    else WithoutBaseline(env, previous.value, previous.value.quality.value, winner, current, setKey)
  }

  function CurrentOf(eligible: seq<Candidate>, previous: Option<Decision>): Option<Candidate> {
    if previous.None? || previous.value.source.None? then None else ById(eligible, previous.value.source.value)
  }

  function Automatic(env: Env, eligible: seq<Candidate>, previous: Option<Decision>, setKey: string): Decision {
    Judge(env, Best(env, eligible), CurrentOf(eligible, previous), previous, setKey)
  }

  /** The decision over the eligible candidates; an error when the source chosen by hand is not among them. */
  function Choose(
    env: Env, eligible: seq<Candidate>, previous: Option<Decision>, manual: Option<string>,
    setKey: string): Result<Decision, string>
  {
    if manual.Some? then
      match ById(eligible, manual.value)
      case None => Err("manual source must be eligible")
      case Some(c) => Ok(Decide(env, c, Some(c.source), ManualBaseline, setKey))
    else if previous.Some? && previous.value.version != POLICY_VERSION then
      Ok(Retain(previous.value, PolicyVersionReview, setKey))
    else Ok(Automatic(env, eligible, previous, setKey))
  }

  function Evaluate(
    env: Env, candidates: seq<Candidate>, previous: Option<Decision>, manual: Option<string>, given: Option<string>)
    : Result<Decision, string>
  {
    Choose(env, Eligibles(env, candidates), previous, manual, SetKey(env, candidates, given))
  }

  // ---------------------------------------------------------------- candidate order

  ghost predicate DistinctSources(candidates: seq<Candidate>) {
    forall c, d :: c in candidates && d in candidates && c.source == d.source ==> c == d
  }

  lemma PreferenceInjective(env: Env, c: Candidate, d: Candidate)
    requires Eligible(env, c) && Eligible(env, d) && Preference(env, c) == Preference(env, d)
    ensures c.source == d.source
  {
    assert Preference(env, c)[7..] == Codes(c.source) && Preference(env, d)[7..] == Codes(d.source);
    CodesInjective(c.source, d.source);
  }

  lemma {:induction false} BestIsLeast(env: Env, candidates: seq<Candidate>, c: Candidate)
    requires c in candidates
    ensures LexLeq(Preference(env, Best(env, candidates).value), Preference(env, c))
    decreases |candidates|
  {
    var before, last := candidates[..|candidates| - 1], candidates[|candidates| - 1];
    assert candidates == before + [last];
    var best := Best(env, before);
    if best.Some? {
      LexTrichotomy(Preference(env, last), Preference(env, best.value));
    }
    if c in before {
      BestIsLeast(env, before, c);
      LexLeqTransitive(Preference(env, Best(env, candidates).value), Preference(env, best.value), Preference(env, c));
    }
  }

  lemma SameMembers(a: seq<Candidate>, b: seq<Candidate>)
    requires multiset(a) == multiset(b)
    ensures forall c :: c in a <==> c in b
  {
    forall c ensures c in a <==> c in b {
      assert c in multiset(a) <==> c in multiset(b);
    }
  }

  lemma SameBest(env: Env, a: seq<Candidate>, b: seq<Candidate>)
    requires forall c :: c in a <==> c in b
    requires DistinctSources(a) && forall c :: c in a ==> Eligible(env, c)
    ensures Best(env, a) == Best(env, b)
  {
    NonEmptyHasMember(a);
    NonEmptyHasMember(b);
    if a != [] {
      var x, y := Best(env, a).value, Best(env, b).value;
      BestIsLeast(env, a, y);
      BestIsLeast(env, b, x);
      LexTrichotomy(Preference(env, x), Preference(env, y));
      PreferenceInjective(env, x, y);
    }
  }

  lemma SameCanonical(env: Env, a: seq<Candidate>, b: seq<Candidate>)
    requires multiset(a) == multiset(b) && DistinctSources(a)
    ensures Canonical(env, a) == Canonical(env, b)
  {
    var key := (c: Candidate) => Codes(c.source);
    SortSorted(key, a);
    SortSorted(key, b);
    SortMembers(key, a);
    forall x, y | x in Sort(key, a) && y in Sort(key, a) && key(x) == key(y) ensures x == y {
      CodesInjective(x.source, y.source);
    }
    SortedIsUnique(key, Sort(key, a), Sort(key, b));
  }

  lemma SameById(a: seq<Candidate>, b: seq<Candidate>, source: string)
    requires (forall c :: c in a <==> c in b) && DistinctSources(a)
    ensures ById(a, source) == ById(b, source)
  {
  }

  lemma SameAutomatic(env: Env, a: seq<Candidate>, b: seq<Candidate>, previous: Option<Decision>, setKey: string)
    requires Best(env, a) == Best(env, b)
    requires previous.Some? && previous.value.source.Some? ==>
               ById(a, previous.value.source.value) == ById(b, previous.value.source.value)
    ensures Automatic(env, a, previous, setKey) == Automatic(env, b, previous, setKey)
  {
  }

  lemma SameChoice(
    env: Env, a: seq<Candidate>, b: seq<Candidate>, previous: Option<Decision>, manual: Option<string>, setKey: string)
    requires (forall c :: c in a <==> c in b) && DistinctSources(a) && forall c :: c in a ==> Eligible(env, c)
    ensures Choose(env, a, previous, manual, setKey) == Choose(env, b, previous, manual, setKey)
  {
    if manual.Some? {
      SameById(a, b, manual.value);
    } else {
      SameBest(env, a, b);
      if previous.Some? && previous.value.source.Some? {
        SameById(a, b, previous.value.source.value);
      }
      SameAutomatic(env, a, b, previous, setKey);
    }
  }

  /** The order in which the candidates are listed does not matter. */
  lemma OrderDoesNotMatter(
    env: Env, a: seq<Candidate>, b: seq<Candidate>, previous: Option<Decision>, manual: Option<string>,
    given: Option<string>)
    requires multiset(a) == multiset(b) && DistinctSources(a)
    ensures Evaluate(env, a, previous, manual, given) == Evaluate(env, b, previous, manual, given)
  {
    SameMembers(a, b);
    SameCanonical(env, a, b);
    SameChoice(env, Eligibles(env, a), Eligibles(env, b), previous, manual, SetKey(env, a, given));
  }

  // ---------------------------------------------------------------- feeding a decision back

  /** Everything but the reason. */
  predicate SameSelection(a: Decision, b: Decision) {
    a == b.(reason := a.reason)
  }

  /** Nothing an evaluation with these candidates would change. */
  predicate Stands(env: Env, winner: Option<Candidate>, current: Option<Candidate>, d: Decision) {
    if d.source.None? || d.quality.None? then
      winner.None? && d.source.None? && d.quality.None? && d.baseline.None?
    else
      winner.None? || (current.Some? && (d.baseline.Some? || !StrictlyBetter(env, winner.value, d.quality.value)))
  }

  /** A decision that stands is selected again, and the result of that is final. */
  lemma StandingIsKept(env: Env, winner: Option<Candidate>, current: Option<Candidate>, d: Decision, setKey: string)
    requires d.version == POLICY_VERSION && d.setKey == setKey && Stands(env, winner, current, d)
    ensures var again := Judge(env, winner, current, Some(d), setKey);
            SameSelection(again, d) && Judge(env, winner, current, Some(again), setKey) == again
  {
  }

  /** One that does not stand is not. */
  lemma OnlyStandingIsKept(env: Env, winner: Option<Candidate>, current: Option<Candidate>, d: Decision, setKey: string)
    requires d.version == POLICY_VERSION && d.setKey == setKey && !Stands(env, winner, current, d)
    requires winner.Some? && Eligible(env, winner.value) && current.None? ==> d.source != Some(winner.value.source)
    requires winner.Some? ==> Eligible(env, winner.value)
    ensures !SameSelection(Judge(env, winner, current, Some(d), setKey), d)
  {
    if winner.Some? && d.quality.Some? {
      LexTrichotomy(d.quality.value, Quality(env, winner.value).value);
    }
  }

  /** What a chosen candidate leaves to a second evaluation. */
  lemma ChosenStands(
    env: Env, eligible: seq<Candidate>, c: Candidate, baseline: Option<string>, reason: Reason, setKey: string)
    requires c in eligible && Eligible(env, c) && (baseline.Some? || Best(env, eligible) == Some(c))
    ensures var d := Decide(env, c, baseline, reason, setKey);
            Stands(env, Best(env, eligible), CurrentOf(eligible, Some(d)), d)
  {
    LexTrichotomy(Quality(env, c).value, Quality(env, c).value);
  }

  lemma JudgedShape(
    env: Env, winner: Option<Candidate>, current: Option<Candidate>, previous: Option<Decision>, setKey: string)
    ensures var d := Judge(env, winner, current, previous, setKey);
            && d.version == POLICY_VERSION && d.setKey == setKey
            && (|| (winner.Some? && d == Decide(env, winner.value, d.baseline, d.reason, setKey))
                || (&& Stands(env, winner, current, d)
                    && (d.source.Some? ==> previous.Some? && previous.value.source == d.source)))
  {
  }

  lemma AutomaticStands(env: Env, eligible: seq<Candidate>, previous: Option<Decision>, setKey: string)
    requires forall c :: c in eligible ==> Eligible(env, c)
    ensures var d := Automatic(env, eligible, previous, setKey);
            && d.version == POLICY_VERSION && d.setKey == setKey
            && Stands(env, Best(env, eligible), CurrentOf(eligible, Some(d)), d)
  {
    var winner := Best(env, eligible);
    var d := Automatic(env, eligible, previous, setKey);
    JudgedShape(env, winner, CurrentOf(eligible, previous), previous, setKey);
    if winner.Some? && d == Decide(env, winner.value, d.baseline, d.reason, setKey) {
      ChosenStands(env, eligible, winner.value, d.baseline, d.reason, setKey);
    }
  }

  /** Evaluated again with the same eligible candidates the decision keeps its selection, and then stays as it is. */
  ghost predicate IsFixed(env: Env, eligible: seq<Candidate>, d: Decision, setKey: string) {
    var again := Automatic(env, eligible, Some(d), setKey);
    SameSelection(again, d) && Automatic(env, eligible, Some(again), setKey) == again
  }

  lemma StandingIsFixed(env: Env, eligible: seq<Candidate>, d: Decision, setKey: string)
    requires d.version == POLICY_VERSION && d.setKey == setKey
    requires Stands(env, Best(env, eligible), CurrentOf(eligible, Some(d)), d)
    ensures IsFixed(env, eligible, d, setKey)
  {
    StandingIsKept(env, Best(env, eligible), CurrentOf(eligible, Some(d)), d, setKey);
    var again := Automatic(env, eligible, Some(d), setKey);
    assert CurrentOf(eligible, Some(again)) == CurrentOf(eligible, Some(d));
  }

  lemma ChoiceIsFixed(
    env: Env, eligible: seq<Candidate>, previous: Option<Decision>, manual: Option<string>, setKey: string)
    requires forall c :: c in eligible ==> Eligible(env, c)
    requires Choose(env, eligible, previous, manual, setKey).Ok?
    requires manual.Some? || previous.None? || previous.value.version == POLICY_VERSION
    ensures var d := Choose(env, eligible, previous, manual, setKey).value;
            d.version == POLICY_VERSION && IsFixed(env, eligible, d, setKey)
  {
    if manual.Some? {
      var c := ById(eligible, manual.value).value;
      ChosenStands(env, eligible, c, Some(c.source), ManualBaseline, setKey);
    } else {
      AutomaticStands(env, eligible, previous, setKey);
    }
    StandingIsFixed(env, eligible, Choose(env, eligible, previous, manual, setKey).value, setKey);
  }

  /**
     Fed back with the same candidates, a decision of the current policy selects the same, whatever the
     reason it is then given, and the result is final.
   */
  lemma DecisionIsFixed(
    env: Env, candidates: seq<Candidate>, previous: Option<Decision>, manual: Option<string>, given: Option<string>)
    requires Evaluate(env, candidates, previous, manual, given).Ok?
    requires manual.Some? || previous.None? || previous.value.version == POLICY_VERSION
    ensures var d := Evaluate(env, candidates, previous, manual, given).value;
            var again := Evaluate(env, candidates, Some(d), None, given);
            && again.Ok? && SameSelection(again.value, d)
            && Evaluate(env, candidates, Some(again.value), None, given) == again
  {
    ChoiceIsFixed(env, Eligibles(env, candidates), previous, manual, SetKey(env, candidates, given));
  }

  /** Exactly when a standing decision comes back as it is. */
  predicate KeepsReason(d: Decision) {
    d.source.None? || d.baseline.Some? || d.reason == CurrentSelectionRetained
  }

  /** Selecting nothing is always explained as finding nothing eligible, and has no baseline. */
  lemma AutomaticIsExplained(env: Env, eligible: seq<Candidate>, previous: Option<Decision>, setKey: string)
    ensures var d := Automatic(env, eligible, previous, setKey);
            (d.source.None? ==> d == Decision(None, None, POLICY_VERSION, None, NoEligibleSource, setKey))
  {
  }

  lemma StandingReturns(
    env: Env, winner: Option<Candidate>, current: Option<Candidate>, d: Decision, setKey: string)
    requires d.version == POLICY_VERSION && d.setKey == setKey && Stands(env, winner, current, d)
    requires d.source.None? ==> d == Decision(None, None, POLICY_VERSION, None, NoEligibleSource, setKey)
    requires d.source.Some? ==> d.quality.Some?
    ensures Judge(env, winner, current, Some(d), setKey) == d <==> KeepsReason(d)
  {
  }

  /**
     Fed back with the same candidates, a decision of the current policy comes back unchanged, reason included,
     if and only if it selects nothing, has a baseline, or already retained its selection.
   */
  lemma DecisionReturns(
    env: Env, candidates: seq<Candidate>, previous: Option<Decision>, manual: Option<string>, given: Option<string>)
    requires Evaluate(env, candidates, previous, manual, given).Ok?
    requires manual.Some? || previous.None? || previous.value.version == POLICY_VERSION
    ensures var d := Evaluate(env, candidates, previous, manual, given).value;
            Evaluate(env, candidates, Some(d), None, given) == Ok(d) <==> KeepsReason(d)
  {
    var eligible, setKey := Eligibles(env, candidates), SetKey(env, candidates, given);
    var d := Evaluate(env, candidates, previous, manual, given).value;
    if manual.Some? {
      var c := ById(eligible, manual.value).value;
      ChosenStands(env, eligible, c, Some(c.source), ManualBaseline, setKey);
    } else {
      AutomaticStands(env, eligible, previous, setKey);
      AutomaticIsExplained(env, eligible, previous, setKey);
    }
    StandingReturns(env, Best(env, eligible), CurrentOf(eligible, Some(d)), d, setKey);
  }

  /** A first selection, fed back, is explained as retained. */
  lemma FirstSelectionDoesNotReturn(digest: seq<Candidate> -> string)
    ensures var env := Env((text: string) => text, (text: string) => text, digest);
            var only := Candidate("a", Known("FLAC"), Int(16), Int(44100), Int(2), Absent, true, "accepted", false);
            var d := Evaluate(env, [only], None, None, None).value;
            var again := Evaluate(env, [only], Some(d), None, None);
            && d.source == Some("a") && d.reason == InitialSelection
            && again == Ok(d.(reason := CurrentSelectionRetained)) && again != Ok(d)
  {
    var env := Env((text: string) => text, (text: string) => text, digest);
    var only := Candidate("a", Known("FLAC"), Int(16), Int(44100), Int(2), Absent, true, "accepted", false);
    assert [only][..0] == [];
    assert Eligible(env, only) && Eligibles(env, [only]) == [] + [only];
    var d := Evaluate(env, [only], None, None, None).value;
    AutomaticStands(env, [only], None, SetKey(env, [only], None));
    StandingIsKept(env, Best(env, [only]), CurrentOf([only], Some(d)), d, SetKey(env, [only], None));
  }

  /** The state a review leaves to the next evaluation, when there is nothing left to change. */
  predicate Settled(env: Env, candidates: seq<Candidate>, d: Decision) {
    var eligible := Eligibles(env, candidates);
    Stands(env, Best(env, eligible), CurrentOf(eligible, Some(d)), d)
  }

  /**
     A decision of an older policy is only marked for review; fed back, it stands exactly when nothing
     is left to change, and keeps its reason too exactly when it has a baseline besides.
   */
  lemma ReviewIsFixedWhenSettled(env: Env, candidates: seq<Candidate>, previous: Decision, given: Option<string>)
    requires previous.version != POLICY_VERSION
    ensures var d := Evaluate(env, candidates, Some(previous), None, given).value;
            && Evaluate(env, candidates, Some(previous), None, given).Ok?
            && d.reason == PolicyVersionReview && d.source == previous.source && d.quality == previous.quality
            && (SameSelection(Evaluate(env, candidates, Some(d), None, given).value, d)
               <==> Settled(env, candidates, d))
            && (Evaluate(env, candidates, Some(d), None, given) == Ok(d)
               <==> Settled(env, candidates, d) && d.baseline.Some?)
  {
    var eligible, setKey := Eligibles(env, candidates), SetKey(env, candidates, given);
    var d := Retain(previous, PolicyVersionReview, setKey);
    var winner, current := Best(env, eligible), CurrentOf(eligible, Some(d));
    if Stands(env, winner, current, d) {
      StandingIsKept(env, winner, current, d, setKey);
    } else {
      OnlyStandingIsKept(env, winner, current, d, setKey);
    }
  }

  /** A review of a decision whose source is gone: the next evaluation moves to the source that is left. */
  lemma ReviewIsNotAlwaysFixed(digest: seq<Candidate> -> string)
    ensures var env := Env((text: string) => text, (text: string) => text, digest);
            var left := Candidate("b", Known("FLAC"), Int(16), Int(44100), Int(2), Absent, true, "accepted", false);
            var previous := Decision(Some("a"), None, "quality-policy-v0", Some([1, 1, 1, 0, 44100, 2, 320]),
              InitialSelection, "");
            var d := Evaluate(env, [left], Some(previous), None, None).value;
            var next := Evaluate(env, [left], Some(d), None, None).value;
            d.source == Some("a") && next.source == Some("b") && !SameSelection(next, d)
  {
    var env := Env((text: string) => text, (text: string) => text, digest);
    var left := Candidate("b", Known("FLAC"), Int(16), Int(44100), Int(2), Absent, true, "accepted", false);
    assert [left][..0] == [];
    assert Eligible(env, left) && Eligibles(env, [left]) == [] + [left];
    assert ById([left], "a") == ById([left][..0], "a");
  }

  // ---------------------------------------------------------------- runs without a manual choice

  /** A decision of the current policy that selects something. */
  predicate Selecting(d: Decision) {
    d.version == POLICY_VERSION && d.source.Some? && d.quality.Some?
  }

  lemma AutomaticNeverWorsens(env: Env, eligible: seq<Candidate>, d: Decision, setKey: string)
    requires Selecting(d) && ById(eligible, d.source.value).Some?
    ensures var next := Automatic(env, eligible, Some(d), setKey);
            && Selecting(next) && next.baseline == d.baseline
            && (|| (next.source == d.source && next.quality == d.quality)
                || (&& Best(env, eligible).Some? && next.source == Some(Best(env, eligible).value.source)
                    && next.quality == Quality(env, Best(env, eligible).value)
                       && LexLess(d.quality.value, next.quality.value)))
  {
  }

  /** The selection is kept, or replaced by an eligible candidate of strictly higher quality; a baseline stays. */
  lemma StepNeverWorsens(env: Env, candidates: seq<Candidate>, d: Decision, given: Option<string>)
    requires Selecting(d) && ById(Eligibles(env, candidates), d.source.value).Some?
    ensures var next := Evaluate(env, candidates, Some(d), None, given);
            && next.Ok? && Selecting(next.value) && next.value.baseline == d.baseline
            && (|| (next.value.source == d.source && next.value.quality == d.quality)
                || (LexLess(d.quality.value, next.value.quality.value)
                    && exists c ::
                       c in candidates && next.value.source == Some(c.source)
                       && next.value.quality == Quality(env, c)))
  {
    AutomaticNeverWorsens(env, Eligibles(env, candidates), d, SetKey(env, candidates, given));
    var next := Evaluate(env, candidates, Some(d), None, given).value;
    if next.source != d.source || next.quality != d.quality {
      assert Best(env, Eligibles(env, candidates)).value in candidates;
    }
  }

  /** Each evaluation of a run, over the candidates of its time. */
  function Run(env: Env, d: Decision, history: seq<seq<Candidate>>): Decision
    decreases |history|
  {
    if history == [] then d
    else
      var next := Evaluate(env, history[0], Some(d), None, None);
      if next.Err? then d else Run(env, next.value, history[1..])
  }

  /** At every evaluation the source selected so far is still eligible. */
  predicate StaysEligible(env: Env, d: Decision, history: seq<seq<Candidate>>)
    decreases |history|
  {
    history == []
    || (&& d.source.Some? && ById(Eligibles(env, history[0]), d.source.value).Some?
        && Evaluate(env, history[0], Some(d), None, None).Ok?
        && StaysEligible(env, Evaluate(env, history[0], Some(d), None, None).value, history[1..]))
  }

  /**
     Over a run the quality never decreases, the source changes only with a strict increase, and the
     baseline stands.
   */
  lemma {:induction false} RunNeverWorsens(env: Env, d: Decision, history: seq<seq<Candidate>>)
    requires Selecting(d) && StaysEligible(env, d, history)
    ensures var last := Run(env, d, history);
            && Selecting(last) && LexLeq(d.quality.value, last.quality.value) && last.baseline == d.baseline
            && (last.source != d.source ==> LexLess(d.quality.value, last.quality.value))
    decreases |history|
  {
    if history != [] {
      StepNeverWorsens(env, history[0], d, None);
      var next := Evaluate(env, history[0], Some(d), None, None).value;
      RunNeverWorsens(env, next, history[1..]);
      LexLeqTransitive(d.quality.value, next.quality.value, Run(env, d, history).quality.value);
      if LexLess(d.quality.value, next.quality.value)
        && LexLess(next.quality.value, Run(env, d, history).quality.value) {
        LexTransitive(d.quality.value, next.quality.value, Run(env, d, history).quality.value);
      }
    }
  }

  // ---------------------------------------------------------------- the selection is the best one

  lemma {:induction false} NegatedReverses(a: seq<int>, b: seq<int>, rest: seq<int>, tail: seq<int>)
    requires |a| == |b| && LexLeq(Negated(a) + rest, Negated(b) + tail)
    ensures LexLeq(b, a)
    decreases |a|
  {
    if a != [] {
      assert (Negated(a) + rest)[1..] == Negated(a[1..]) + rest && (Negated(b) + tail)[1..] == Negated(b[1..]) + tail;
      assert a == [a[0]] + a[1..] && b == [b[0]] + b[1..];
      assert (Negated(a) + rest)[0] == -a[0] && (Negated(b) + tail)[0] == -b[0];
      if a[0] == b[0] {
        assert Negated(a) + rest == [-a[0]] + (Negated(a[1..]) + rest)
          && Negated(b) + tail == [-b[0]] + (Negated(b[1..]) + tail);
        NegatedReverses(a[1..], b[1..], rest, tail);
      }
    }
  }

  lemma WinnerIsBest(env: Env, candidates: seq<Candidate>, c: Candidate)
    requires c in candidates && Eligible(env, c) && forall d :: d in candidates ==> Eligible(env, d)
    ensures LexLeq(Quality(env, c).value, Quality(env, Best(env, candidates).value).value)
  {
    var best := Best(env, candidates).value;
    BestIsLeast(env, candidates, c);
    NegatedReverses(Quality(env, best).value, Quality(env, c).value, Codes(best.source), Codes(c.source));
  }

  /** A baseline whose source is still eligible, judged again on unchanged candidates. */
  predicate KeepsBaseline(eligible: seq<Candidate>, previous: Option<Decision>, setKey: string) {
    && previous.Some? && previous.value.source.Some? && previous.value.quality.Some?
    && previous.value.baseline.Some? && previous.value.setKey == setKey && CurrentOf(eligible, previous).Some?
  }

  /** The recorded quality falls short of the winner's exactly when such a baseline already did. */
  predicate KeepsWorseBaseline(env: Env, eligible: seq<Candidate>, previous: Option<Decision>, setKey: string)
    requires eligible != []
  {
    && KeepsBaseline(eligible, previous, setKey)
    && StrictlyBetter(env, Best(env, eligible).value, previous.value.quality.value)
  }

  lemma AutomaticTakesTheWinner(env: Env, eligible: seq<Candidate>, previous: Option<Decision>, setKey: string)
    requires eligible != [] && Eligible(env, Best(env, eligible).value)
    requires previous.Some? ==> previous.value.version == POLICY_VERSION
    ensures var d := Automatic(env, eligible, previous, setKey);
            && Selecting(d)
            && (StrictlyBetter(env, Best(env, eligible).value, d.quality.value)
                <==> KeepsWorseBaseline(env, eligible, previous, setKey))
  {
    var winner := Best(env, eligible).value;
    LexTrichotomy(Quality(env, winner).value, Quality(env, winner).value);
  }

  ghost predicate NoneBetter(env: Env, candidates: seq<Candidate>, quality: seq<int>) {
    forall c :: c in candidates && Eligible(env, c) ==> LexLeq(Quality(env, c).value, quality)
  }

  lemma WinnerDecides(env: Env, eligible: seq<Candidate>, quality: seq<int>)
    requires eligible != [] && forall c :: c in eligible ==> Eligible(env, c)
    ensures NoneBetter(env, eligible, quality) <==> !StrictlyBetter(env, Best(env, eligible).value, quality)
  {
    var winner := Best(env, eligible).value;
    var best := Quality(env, winner).value;
    LexTrichotomy(quality, best);
    if !StrictlyBetter(env, winner, quality) {
      forall c | c in eligible && Eligible(env, c) ensures LexLeq(Quality(env, c).value, quality) {
        WinnerIsBest(env, eligible, c);
        LexLeqTransitive(Quality(env, c).value, best, quality);
      }
    }
  }

  /**
     When something is eligible, no eligible candidate beats the recorded quality unless a baseline is kept
     because the candidates are unchanged, and their best beat it before.
   */
  lemma NoEligibleCandidateIsBetter(
    env: Env, candidates: seq<Candidate>, previous: Option<Decision>, given: Option<string>)
    requires Eligibles(env, candidates) != []
    requires previous.Some? ==> previous.value.version == POLICY_VERSION
    ensures var d := Evaluate(env, candidates, previous, None, given);
            && d.Ok? && Selecting(d.value)
            && (NoneBetter(env, candidates, d.value.quality.value) <==>
                !KeepsWorseBaseline(env, Eligibles(env, candidates), previous, SetKey(env, candidates, given)))
  {
    var eligible, setKey := Eligibles(env, candidates), SetKey(env, candidates, given);
    AutomaticTakesTheWinner(env, eligible, previous, setKey);
    var quality := Automatic(env, eligible, previous, setKey).quality.value;
    WinnerDecides(env, eligible, quality);
    assert NoneBetter(env, candidates, quality) <==> NoneBetter(env, eligible, quality);
  }

  /** A lossy source chosen by hand is kept beside an eligible lossless one. */
  lemma BaselineCanStayWorse(digest: seq<Candidate> -> string)
    ensures var env := Env((text: string) => text, (text: string) => text, digest);
            var lossless := Candidate("a", Known("FLAC"), Int(16), Int(44100), Int(2), Absent, true, "accepted", false);
            var lossy := Candidate("b", Known("MP3"), Absent, Int(44100), Int(2), Int(320), true, "accepted", false);
            var chosen := Evaluate(env, [lossless, lossy], None, Some("b"), None);
            && chosen.Ok? && Evaluate(env, [lossless, lossy], Some(chosen.value), None, None) == chosen
            && chosen.value.source == Some("b") && chosen.value.quality.Some?
            && StrictlyBetter(env, lossless, chosen.value.quality.value)
  {
    var env := Env((text: string) => text, (text: string) => text, digest);
    var lossless := Candidate("a", Known("FLAC"), Int(16), Int(44100), Int(2), Absent, true, "accepted", false);
    var lossy := Candidate("b", Known("MP3"), Absent, Int(44100), Int(2), Int(320), true, "accepted", false);
    ChosenReturns(env, [lossless, lossy], 1, None);
    LosslessBeatsLossy(env, lossless, lossy);
  }

  /** An eligible source chosen by hand stays chosen. */
  lemma ChosenReturns(env: Env, candidates: seq<Candidate>, i: nat, given: Option<string>)
    requires i < |candidates| && Eligible(env, candidates[i]) && DistinctSources(candidates)
    ensures var chosen := Evaluate(env, candidates, None, Some(candidates[i].source), given);
            && chosen.Ok? && Evaluate(env, candidates, Some(chosen.value), None, given) == chosen
            && chosen.value.source == Some(candidates[i].source)
            && chosen.value.quality == Quality(env, candidates[i])
  {
    assert candidates[i] in Eligibles(env, candidates);
    DecisionReturns(env, candidates, None, Some(candidates[i].source), given);
  }

  /** Whatever their rates, a lossless candidate beats a lossy one. */
  lemma LosslessBeatsLossy(env: Env, c: Candidate, d: Candidate)
    requires Eligible(env, c) && Eligible(env, d)
    requires CodecName(env, c.codec) in LOSSLESS && CodecName(env, d.codec) in LOSSY
    ensures StrictlyBetter(env, c, Quality(env, d).value)
  {
    var a, b := Quality(env, c).value, Quality(env, d).value;
    assert a[1..][0] == 2 && b[1..][0] == 1;
  }
}
