/** The screen's side of an album remap: the mapping reducer, its first mapping, and the request it sends. */
module AlbumRemapState {
  import opened Wrappers
  import opened Ordering
  import opened AlbumRemap

  type Mapping = map<string, string>

  datatype State = State(assignments: Mapping, selected: Option<string>)

  datatype Action =
    | Initialize(assignments: Mapping)
    | Select(source: string)
    | Assign(source: string, track: string)
    | Unassign(source: string)

  // ---------------------------------------------------------------- the reducer

  function WithoutSource(m: Mapping, source: string): Mapping {
    map s | s in m && s != source :: m[s]
  }

  /** The source takes the track, from whoever had it. */
  function AssignSource(m: Mapping, source: string, track: string): Mapping {
    (map s | s in m && s != source && m[s] != track :: m[s])[source := track]
  }

  method AssignSourceLoop(m: Mapping, source: string, track: string) returns (next: Mapping)
    ensures next == AssignSource(m, source, track)
    ensures source in next && next[source] == track
    ensures forall s :: s != source ==> (s in next <==> s in m && m[s] != track) && (s in next ==> next[s] == m[s])
  {
    next := map[];
    var left := m.Keys;
    while left != {}
      invariant left <= m.Keys
      invariant next == map s | s in m && s !in left && s != source && m[s] != track :: m[s]
      decreases left
    {
      var s :| s in left;
      if s != source && m[s] != track {
        next := next[s := m[s]];
      }
      left := left - {s};
    }
    next := next[source := track];
  }

  method WithoutSourceLoop(m: Mapping, source: string) returns (next: Mapping)
    ensures next == WithoutSource(m, source)
    ensures forall s :: (s in next <==> s in m && s != source) && (s in next ==> next[s] == m[s])
  {
    next := map[];
    var left := m.Keys;
    while left != {}
      invariant left <= m.Keys
      invariant next == map s | s in m && s !in left && s != source :: m[s]
      decreases left
    {
      var s :| s in left;
      if s != source {
        next := next[s := m[s]];
      }
      left := left - {s};
    }
  }

  function Reduce(s: State, action: Action): State {
    match action
    case Initialize(assignments) => State(assignments, None)
    case Select(source) => s.(selected := if s.selected == Some(source) then None else Some(source))
    case Assign(source, track) => State(AssignSource(s.assignments, source, track), None)
    case Unassign(source) => s.(assignments := WithoutSource(s.assignments, source))
  }

  /** An assignment or a fresh start ends the selection, a second click on it too, and taking one back leaves it. */
  lemma ReduceMeans(s: State, action: Action)
    ensures var next := Reduce(s, action);
            match action
            case Initialize(assignments) => next == State(assignments, None)
            case Select(source) =>
              && next.assignments == s.assignments
              && (next.selected == None <==> s.selected == Some(source))
              && (next.selected != None ==> next.selected == Some(source))
            case Assign(source, track) =>
              && next.selected == None && source in next.assignments && next.assignments[source] == track
              && forall other :: other != source ==>
                   && (other in next.assignments <==> other in s.assignments && s.assignments[other] != track)
                   && (other in next.assignments ==> next.assignments[other] == s.assignments[other])
            case Unassign(source) =>
              && next.selected == s.selected && source !in next.assignments
              && forall other :: other != source ==>
                   && (other in next.assignments <==> other in s.assignments)
                   && (other in next.assignments ==> next.assignments[other] == s.assignments[other])
  {
  }

  // ---------------------------------------------------------------- the first mapping

  datatype Suggestion = Suggestion(source: string, track: string)

  /** One suggestion for each slot that has one, in slot order. */
  function SuggestionList(slots: seq<Slot>, m: map<string, string>, n: nat): seq<Suggestion>
    requires n <= |slots|
  {
    if n == 0 then [] else
      SuggestionList(slots, m, n - 1)
      + (if slots[n - 1].track in m then [Suggestion(m[slots[n - 1].track], slots[n - 1].track)] else [])
  }

  /** The mapping after the first n suggestions: each source and each track keeps its first. */
  function Accepted(suggestions: seq<Suggestion>, sources: set<string>, tracks: set<string>, n: nat): Mapping
    requires n <= |suggestions|
  {
    if n == 0 then map[]
    else
      var before, one := Accepted(suggestions, sources, tracks, n - 1), suggestions[n - 1];
      if one.source in sources && one.track in tracks && one.source !in before && one.track !in before.Values
      then before[one.source := one.track] else before
  }

  /** The suggestions taken: those within the album that share no source or track with an earlier one taken. */
  ghost predicate IsTaken(
    suggestions: seq<Suggestion>, sources: set<string>, tracks: set<string>, taken: set<int>, n: int)
  {
    && 0 <= n < |suggestions| && suggestions[n].source in sources && suggestions[n].track in tracks
    && forall k :: k in taken && 0 <= k < n ==>
         suggestions[k].source != suggestions[n].source && suggestions[k].track != suggestions[n].track
  }

  ghost predicate Pairs(suggestions: seq<Suggestion>, taken: set<int>, m: Mapping) {
    && (forall k :: k in taken ==> 0 <= k < |suggestions| && suggestions[k].source in m
                                   && m[suggestions[k].source] == suggestions[k].track)
    && (forall s :: s in m ==> exists k :: k in taken && suggestions[k].source == s)
  }

  lemma {:induction false} AcceptedMeans(
    suggestions: seq<Suggestion>, sources: set<string>, tracks: set<string>, n: nat) returns (taken: set<int>)
    requires n <= |suggestions|
    ensures Pairs(suggestions, taken, Accepted(suggestions, sources, tracks, n))
    ensures TakesAll(suggestions, sources, tracks, taken, n)
    decreases n
  {
    taken := {};
    if n > 0 {
      var before := Accepted(suggestions, sources, tracks, n - 1);
      var one := suggestions[n - 1];
      var earlier := AcceptedMeans(suggestions, sources, tracks, n - 1);
      ValuesPaired(suggestions, earlier, before, one);
      assert IsTaken(suggestions, sources, tracks, earlier, n - 1) <==>
             one.source in sources && one.track in tracks && one.source !in before && one.track !in before.Values;
      taken := if IsTaken(suggestions, sources, tracks, earlier, n - 1) then earlier + {n - 1} else earlier;
      TakesOneMore(suggestions, sources, tracks, earlier, taken, n - 1);
    }
  }

  ghost predicate TakesAll(
    suggestions: seq<Suggestion>, sources: set<string>, tracks: set<string>, taken: set<int>, n: nat)
  {
    forall k :: k in taken <==> 0 <= k < n && IsTaken(suggestions, sources, tracks, taken, k)
  }

  lemma TakesOneMore(
    suggestions: seq<Suggestion>, sources: set<string>, tracks: set<string>, earlier: set<int>, taken: set<int>, n: nat)
    requires n < |suggestions| && TakesAll(suggestions, sources, tracks, earlier, n)
    requires taken == if IsTaken(suggestions, sources, tracks, earlier, n) then earlier + {n} else earlier
    ensures TakesAll(suggestions, sources, tracks, taken, n + 1)
  {
    forall k | 0 <= k < n + 1
      ensures IsTaken(suggestions, sources, tracks, taken, k) <==> IsTaken(suggestions, sources, tracks, earlier, k)
    {
    }
  }

  lemma ValuesPaired(suggestions: seq<Suggestion>, taken: set<int>, m: Mapping, one: Suggestion)
    requires Pairs(suggestions, taken, m)
    ensures one.source in m <==> exists k :: k in taken && suggestions[k].source == one.source
    ensures one.track in m.Values <==> exists k :: k in taken && suggestions[k].track == one.track
  {
    if one.track in m.Values {
      var s :| s in m && m[s] == one.track;
      var k :| k in taken && suggestions[k].source == s;
    }
  }

  lemma OneMoreValue(m: Mapping, key: string, value: string)
    requires key !in m
    ensures m[key := value].Values == m.Values + {value}
  {
    var after := m[key := value];
    assert after[key] == value;
    forall v | v in m.Values ensures v in after.Values {
      var k :| k in m && m[k] == v;
      assert after[k] == v;
    }
  }

  method SuggestedAssignments(
    suggestions: seq<Suggestion>, sourceIds: seq<string>, trackIds: seq<string>) returns (m: Mapping)
    ensures m == Accepted(suggestions, Members(sourceIds), Members(trackIds), |suggestions|)
  {
    var sources, tracks := Members(sourceIds), Members(trackIds);
    m := map[];
    var taken := {};
    for n := 0 to |suggestions|
      invariant m == Accepted(suggestions, sources, tracks, n) && taken == m.Values
    {
      var one := suggestions[n];
      if one.source in sources && one.track in tracks && one.source !in m && one.track !in taken {
        OneMoreValue(m, one.source, one.track);
        m := m[one.source := one.track];
        taken := taken + {one.track};
      }
    }
  }

  ghost predicate WithinAlbum(m: Mapping, sources: set<string>, tracks: set<string>) {
    Injective(m) && m.Keys <= sources && m.Values <= tracks
  }

  lemma {:induction false} AcceptedWithinAlbum(
    suggestions: seq<Suggestion>, sources: set<string>, tracks: set<string>, n: nat)
    requires n <= |suggestions|
    ensures WithinAlbum(Accepted(suggestions, sources, tracks, n), sources, tracks)
    decreases n
  {
    if n > 0 {
      AcceptedWithinAlbum(suggestions, sources, tracks, n - 1);
      var before, one := Accepted(suggestions, sources, tracks, n - 1), suggestions[n - 1];
      if one.source in sources && one.track in tracks && one.source !in before && one.track !in before.Values {
        assert before[one.source := one.track].Values <= before.Values + {one.track};
        OneMorePair(before, one.source, one.track);
      }
    }
  }

  // ---------------------------------------------------------------- every mapping the screen reaches

  /** What the screen dispatches: its own files, assignable tracks, and first mappings it computed. */
  ghost predicate Dispatched(action: Action, sources: set<string>, tracks: set<string>) {
    match action
    case Initialize(assignments) =>
      assignments == map[] || exists suggestions :: assignments == Accepted(suggestions, sources, tracks, |suggestions|)
    case Select(source) => source in sources
    case Assign(source, track) => source in sources && track in tracks
    case Unassign(source) => true
  }

  function Reached(actions: seq<Action>): State {
    if actions == [] then State(map[], None) else Reduce(Reached(actions[..|actions| - 1]), actions[|actions| - 1])
  }

  lemma AssignKeepsInjective(m: Mapping, source: string, track: string)
    requires Injective(m)
    ensures Injective(AssignSource(m, source, track))
  {
  }

  lemma StepStaysWithinAlbum(
    m: Mapping, selected: Option<string>, action: Action, sources: set<string>, tracks: set<string>)
    requires WithinAlbum(m, sources, tracks) && Dispatched(action, sources, tracks)
    ensures WithinAlbum(Reduce(State(m, selected), action).assignments, sources, tracks)
  {
    match action
    case Initialize(assignments) =>
      if assignments != map[] {
        var suggestions :| assignments == Accepted(suggestions, sources, tracks, |suggestions|);
        AcceptedWithinAlbum(suggestions, sources, tracks, |suggestions|);
      }
    case Select(source) =>
    case Assign(source, track) =>
      AssignKeepsInjective(m, source, track);
      forall v | v in AssignSource(m, source, track).Values ensures v in tracks {
        assert v == track || v in m.Values;
      }
    case Unassign(source) =>
      forall v | v in WithoutSource(m, source).Values ensures v in tracks {
        assert v in m.Values;
      }
  }

  /** Every reachable mapping is injective, from the album's sources into assignable tracks. */
  lemma {:induction false} ReachedWithinAlbum(actions: seq<Action>, sources: set<string>, tracks: set<string>)
    requires forall i :: 0 <= i < |actions| ==> Dispatched(actions[i], sources, tracks)
    ensures WithinAlbum(Reached(actions).assignments, sources, tracks)
    decreases |actions|
  {
    if actions != [] {
      ReachedWithinAlbum(actions[..|actions| - 1], sources, tracks);
      var before := Reached(actions[..|actions| - 1]);
      StepStaysWithinAlbum(before.assignments, before.selected, actions[|actions| - 1], sources, tracks);
    }
  }

  // ---------------------------------------------------------------- the request

  /** The entries of a mapping, in whatever order they are listed. */
  ghost predicate ListsMapping(assignments: seq<Assignment>, m: Mapping) {
    && (forall i, k :: 0 <= i < k < |assignments| ==> assignments[i].source != assignments[k].source)
    && (forall i ::
       0 <= i < |assignments|
       ==> assignments[i].source in m && m[assignments[i].source] == assignments[i].track)
    && forall s :: s in m ==> exists i :: 0 <= i < |assignments| && assignments[i].source == s
  }

  function Unassigned(files: seq<string>, m: Mapping): (r: seq<string>)
    ensures forall id :: id in r <==> id in files && id !in m
  {
    if files == [] then []
    else (if files[0] in m then [] else [files[0]]) + Unassigned(files[1..], m)
  }

  lemma {:induction false} UnassignedDistinct(files: seq<string>, m: Mapping)
    requires NoDup(files)
    ensures NoDup(Unassigned(files, m))
    decreases |files|
  {
    if files != [] {
      forall i, k | 0 <= i < k < |files[1..]| ensures files[1..][i] != files[1..][k] {
        assert files[i + 1] != files[k + 1];
      }
      UnassignedDistinct(files[1..], m);
      assert files[0] !in files[1..];
    }
  }

  function FileIds(sources: seq<Source>): seq<string> {
    seq(|sources|, i requires 0 <= i < |sources| => sources[i].id)
  }

  lemma ListedSources(assignments: seq<Assignment>, m: Mapping)
    requires ListsMapping(assignments, m)
    ensures NoDup(AssignedIds(assignments)) && forall id :: id in AssignedIds(assignments) <==> id in m
  {
    var ids := AssignedIds(assignments);
    forall id | id in m ensures id in ids {
      var i :| 0 <= i < |assignments| && assignments[i].source == id;
      assert ids[i] == id;
    }
  }

  /** Distinct assigned tracks whose slots are one and the same recording. */
  ghost predicate SharesARecording(slots: seq<Slot>, m: Mapping) {
    exists s, t :: s in m && t in m && s != t && TrackRecording(slots, m[s]) == TrackRecording(slots, m[t])
  }

  function TrackRecording(slots: seq<Slot>, track: string): string {
    var slot := Assignable(slots, track);
    if slot.Some? then slot.value.recording else ""
  }

  lemma RecordingsListed(canonical: string -> string, slots: seq<Slot>, assignments: seq<Assignment>, m: Mapping)
    requires ListsMapping(assignments, m) && forall track :: track in m.Values ==> canonical(track) == track
    ensures NoDup(Recordings(RequestedSlots(canonical, slots, assignments))) <==> !SharesARecording(slots, m)
  {
    var recordings := Recordings(RequestedSlots(canonical, slots, assignments));
    forall i | 0 <= i < |assignments| ensures recordings[i] == TrackRecording(slots, m[assignments[i].source]) {
      assert m[assignments[i].source] in m.Values;
    }
    if s, t :| s in m && t in m && s != t && TrackRecording(slots, m[s]) == TrackRecording(slots, m[t]) {
      var i :| 0 <= i < |assignments| && assignments[i].source == s;
      var k :| 0 <= k < |assignments| && assignments[k].source == t;
      assert recordings[i] == recordings[k] && i != k;
    }
  }

  lemma DistinctFiles(sources: seq<Source>)
    requires DistinctIds(sources)
    ensures NoDup(FileIds(sources)) && Members(FileIds(sources)) == SourceIds(sources)
  {
    var ids := FileIds(sources);
    forall id | id in SourceIds(sources) ensures id in ids {
      var source :| source in sources && source.id == id;
      var i :| 0 <= i < |sources| && sources[i] == source;
      assert ids[i] == id;
    }
  }

  /**
   On an unchanged album, a non-empty request built from any mapping within the album passes every
   check but perhaps the last, and fails that one exactly when two of its tracks are one recording.
   */
  lemma BuiltRequestPasses(
    canonical: string -> string, sources: seq<Source>, slots: seq<Slot>, m: Mapping, assignments: seq<Assignment>)
    requires DistinctIds(sources) && WithinAlbum(m, SourceIds(sources), TrackSet(slots)) && m != map[]
    requires forall track :: track in TrackSet(slots) ==> canonical(track) == track
    requires ListsMapping(assignments, m)
    ensures var rejection := Rejection(canonical, false, sources, slots,
            Request(assignments, Unassigned(FileIds(sources), m)));
            rejection == if SharesARecording(slots, m) then Some(SharedRecording) else None
  {
    var unmatched := Unassigned(FileIds(sources), m);
    ListedSources(assignments, m);
    DistinctFiles(sources);
    UnassignedDistinct(FileIds(sources), m);
    SizeTellsDuplicates(AssignedIds(assignments));
    SizeTellsDuplicates(unmatched);
    PartitionChecks(AssignedIds(assignments), unmatched, SourceIds(sources));
    assert forall id :: id in Members(FileIds(sources)) <==> id in FileIds(sources);
    SlotChecks(canonical, slots, assignments);
    forall i | 0 <= i < |assignments| ensures canonical(assignments[i].track) in TrackSet(slots) {
      assert m[assignments[i].source] in m.Values;
    }
    SizeTellsDuplicates(Recordings(RequestedSlots(canonical, slots, assignments)));
    RecordingsListed(canonical, slots, assignments, m);
    var s :| s in m;
    assert assignments != [];
  }

  lemma NoneUnassigned(files: seq<string>, m: Mapping)
    requires forall i :: 0 <= i < |files| ==> files[i] in m
    ensures Unassigned(files, m) == []
  {
    var unmatched := Unassigned(files, m);
    assert forall i :: 0 <= i < |unmatched| ==> unmatched[i] in unmatched;
  }

  lemma TwoSlots(t: Slot, u: Slot)
    requires t.assignable && u.assignable && t.track != u.track
    ensures Assignable([t, u], t.track) == Some(t) && Assignable([t, u], u.track) == Some(u)
  {
    var slots := [t, u];
    assert slots[|slots| - 1] == u && slots[..1] == [t];
    assert Assignable(slots[..1], t.track) == Some(t);
  }

  /** Two tracks of one recording, each assigned its own source. */
  lemma SharedRecordingIsRejected(canonical: string -> string, a: Source, b: Source, t: Slot, u: Slot)
    requires a.id != b.id && t.track != u.track && t.recording == u.recording && t.assignable && u.assignable
    requires canonical(t.track) == t.track && canonical(u.track) == u.track
    ensures var m := map[a.id := t.track, b.id := u.track];
            var request := Request([Assignment(a.id, t.track), Assignment(b.id, u.track)], []);
            && WithinAlbum(m, SourceIds([a, b]), TrackSet([t, u])) && ListsMapping(request.assignments, m)
            && Rejection(canonical, false, [a, b], [t, u], request) == Some(SharedRecording)
  {
    var m := map[a.id := t.track, b.id := u.track];
    var assignments := [Assignment(a.id, t.track), Assignment(b.id, u.track)];
    assert [a, b][0] == a && [a, b][1] == b && [t, u][0] == t && [t, u][1] == u;
    TwoSlots(t, u);
    assert assignments[0].source == a.id && assignments[1].source == b.id;
    assert TrackRecording([t, u], m[a.id]) == TrackRecording([t, u], m[b.id]);
    NoneUnassigned(FileIds([a, b]), m);
    BuiltRequestPasses(canonical, [a, b], [t, u], m, assignments);
  }

  /** So every request the screen can send after any actions is rejected at most for a shared recording. */
  lemma ReachedRequestPasses(
    canonical: string -> string, sources: seq<Source>, slots: seq<Slot>, actions: seq<Action>,
    assignments: seq<Assignment>)
    requires DistinctIds(sources) && forall track :: track in TrackSet(slots) ==> canonical(track) == track
    requires forall i :: 0 <= i < |actions| ==> Dispatched(actions[i], SourceIds(sources), TrackSet(slots))
    requires Reached(actions).assignments != map[] && ListsMapping(assignments, Reached(actions).assignments)
    ensures var m := Reached(actions).assignments;
            Rejection(canonical, false, sources, slots, Request(assignments, Unassigned(FileIds(sources), m)))
            == if SharesARecording(slots, m) then Some(SharedRecording) else None
  {
    ReachedWithinAlbum(actions, SourceIds(sources), TrackSet(slots));
    BuiltRequestPasses(canonical, sources, slots, Reached(actions).assignments, assignments);
  }

  // ---------------------------------------------------------------- both sides see one partial injection

  lemma {:induction false} AcceptedIsLocal(
    list: seq<Suggestion>, more: seq<Suggestion>, sources: set<string>, tracks: set<string>, n: nat)
    requires n <= |list|
    ensures Accepted(list + more, sources, tracks, n) == Accepted(list, sources, tracks, n)
    decreases n
  {
    if n > 0 {
      AcceptedIsLocal(list, more, sources, tracks, n - 1);
    }
  }

  /** A mapping read the other way round, as far as it goes. */
  ghost predicate Inverts(a: Mapping, m: map<string, string>) {
    forall s :: s in a ==> a[s] in m && m[a[s]] == s
  }

  lemma OneMoreAccepted(list: seq<Suggestion>, one: Suggestion, sources: set<string>, tracks: set<string>)
    requires one.source in sources && one.track in tracks
    ensures var before := Accepted(list, sources, tracks, |list|);
            Accepted(list + [one], sources, tracks, |list| + 1)
            == if one.source !in before && one.track !in before.Values then before[one.source := one.track] else before
  {
    AcceptedIsLocal(list, [one], sources, tracks, |list|);
    assert (list + [one])[|list|] == one;
  }

  lemma InvertsOneMore(a: Mapping, m: map<string, string>, track: string)
    requires Inverts(a, m) && Injective(m) && track in m
    ensures var source := m[track];
            var after := if source !in a && track !in a.Values then a[source := track] else a;
            Inverts(after, m) && source in after && forall s :: s in a ==> s in after
  {
    if track in a.Values {
      var s :| s in a && a[s] == track;
      assert m[a[s]] == s;
    }
  }

  /** The list of suggestions is taken over whole: every suggested track goes to its source. */
  lemma {:induction false} AcceptedFollows(
    slots: seq<Slot>, m: map<string, string>, sources: set<string>, tracks: set<string>, n: nat)
    requires n <= |slots| && Injective(m) && m.Values <= sources && m.Keys <= tracks
    ensures var list := SuggestionList(slots, m, n);
            var a := Accepted(list, sources, tracks, |list|);
            Inverts(a, m) && forall k :: 0 <= k < n && slots[k].track in m ==> m[slots[k].track] in a
    decreases n
  {
    if n > 0 {
      AcceptedFollows(slots, m, sources, tracks, n - 1);
      var list := SuggestionList(slots, m, n - 1);
      var track := slots[n - 1].track;
      if track in m {
        assert m[track] in m.Values;
        OneMoreAccepted(list, Suggestion(m[track], track), sources, tracks);
        InvertsOneMore(Accepted(list, sources, tracks, |list|), m, track);
      } else {
        assert SuggestionList(slots, m, n) == list;
      }
    }
  }

  /** The first mapping of the screen is the server's suggestion read the other way round, nothing lost or added. */
  lemma FirstMappingInvertsSuggestions(
    show: int -> string, release: string, sources: seq<Source>, slots: seq<Slot>, source: string, track: string)
    requires DistinctIds(sources)
    ensures var m := Suggestions(show, release, Ordinary(slots), sources, |sources|);
            var list := SuggestionList(slots, m, |slots|);
            var first := Accepted(list, SourceIds(sources), TrackSet(slots), |list|);
            source in first && first[source] == track <==> track in m && m[track] == source
  {
    var m := Suggestions(show, release, Ordinary(slots), sources, |sources|);
    SuggestionsAreInjective(show, release, slots, sources, |sources|);
    forall v | v in m.Values ensures v in SourceIds(sources) {
      var t :| t in m && m[t] == v;
      assert IsSourceBefore(sources, |sources|, m[t]);
    }
    AcceptedFollows(slots, m, SourceIds(sources), TrackSet(slots), |slots|);
    if track in m && m[track] == source {
      assert track in TrackSet(slots);
      var slot :| slot in slots && slot.assignable && slot.track == track;
      var k :| 0 <= k < |slots| && slots[k] == slot;
    }
  }
}
