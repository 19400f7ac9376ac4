/** The server's side of an album remap: suggested sources for the slots of a release, and the checks of a request. */
module AlbumRemap {
  import opened Wrappers
  import opened Ordering

  datatype Slot = Slot(track: string, recording: string, medium: int, position: int, assignable: bool)

  datatype Source = Source(id: string, recording: Option<string>, release: Option<string>, tags: map<string, string>)

  // ---------------------------------------------------------------- slots named by one key alone

  datatype Item = Item(key: Option<string>, slot: Slot)

  datatype Seen = Never | Once(slot: Slot) | Often

  /** How often a key occurs among the first n items. */
  function SeenAmong(items: seq<Item>, n: nat, key: string): Seen
    requires n <= |items|
  {
    if n == 0 then Never
    else if items[n - 1].key != Some(key) then SeenAmong(items, n - 1, key)
    else if SeenAmong(items, n - 1, key).Never? then Once(items[n - 1].slot)
    else Often
  }

  ghost predicate SoleIndex(items: seq<Item>, n: nat, key: string, i: int)
    requires n <= |items|
  {
    0 <= i < n && items[i].key == Some(key) && forall k :: 0 <= k < n && items[k].key == Some(key) ==> k == i
  }

  lemma {:induction false} SeenNever(items: seq<Item>, n: nat, key: string)
    requires n <= |items|
    ensures SeenAmong(items, n, key).Never? <==> forall k :: 0 <= k < n ==> items[k].key != Some(key)
    decreases n
  {
    if n > 0 {
      SeenNever(items, n - 1, key);
    }
  }

  /** Seen once means: at one index and no other. */
  lemma {:induction false} SeenOnce(items: seq<Item>, n: nat, key: string, i: nat)
    requires n <= |items|
    ensures SoleIndex(items, n, key, i) ==> SeenAmong(items, n, key) == Once(items[i].slot)
    ensures SeenAmong(items, n, key).Once? ==> exists k :: SoleIndex(items, n, key, k)
    decreases n
  {
    if n > 0 {
      SeenOnce(items, n - 1, key, i);
      SeenNever(items, n - 1, key);
      if items[n - 1].key == Some(key) {
        if SeenAmong(items, n - 1, key).Never? {
          assert SoleIndex(items, n, key, n - 1);
        }
      } else if SeenAmong(items, n, key).Once? {
        var before := n - 1;
        var k :| SoleIndex(items, before, key, k);
        assert SoleIndex(items, n, key, k);
      }
      assert SoleIndex(items, n, key, i) && i < n - 1 ==> SoleIndex(items, n - 1, key, i);
    }
  }

  method UniqueSlots(items: seq<Item>) returns (r: map<string, Slot>)
    ensures forall key :: if SeenAmong(items, |items|, key).Once?
                          then key in r && r[key] == SeenAmong(items, |items|, key).slot else key !in r
  {
    var values: map<string, Option<Slot>> := map[];
    for n := 0 to |items|
      invariant forall key :: SeenAmong(items, n, key) == if key !in values then Never
                                                          else if values[key].None?
                                                            then Often else Once(values[key].value)
    {
      if items[n].key.Some? {
        var key := items[n].key.value;
        values := values[key := if key !in values then Some(items[n].slot) else None];
      }
    }
    r := map key | key in values && values[key].Some? :: values[key].value;
  }

  // ---------------------------------------------------------------- suggestions

  function BeforeSlash(text: string): string {
    if text == [] || text[0] == '/' then [] else [text[0]] + BeforeSlash(text[1..])
  }

  function SourcePosition(tags: map<string, string>): Option<string> {
    if "TRACKNUMBER" !in tags then None
    else
      var disc := if "DISCNUMBER" in tags then tags["DISCNUMBER"] else "1";
      Some(BeforeSlash(disc) + ":" + BeforeSlash(tags["TRACKNUMBER"]))
  }

  function Ordinary(slots: seq<Slot>): (r: seq<Slot>)
    ensures forall slot :: slot in r <==> slot in slots && slot.assignable
  {
    if slots == [] then []
    else (if slots[0].assignable then [slots[0]] else []) + Ordinary(slots[1..])
  }

  function ByRecording(slots: seq<Slot>): seq<Item> {
    seq(|slots|, i requires 0 <= i < |slots| => Item(Some(slots[i].recording), slots[i]))
  }

  function ByPosition(show: int -> string, slots: seq<Slot>): seq<Item> {
    seq(|slots|, i requires 0 <= i < |slots| =>
      Item(Some(show(slots[i].medium) + ":" + show(slots[i].position)), slots[i]))
  }

  function Sole(items: seq<Item>, key: Option<string>): Option<Slot> {
    if key.None? then None
    else
      match SeenAmong(items, |items|, key.value)
      case Once(slot) => Some(slot)
      case _ => None
  }

  /** The slot a source points at: by its recording within this release, else by its tagged position. */
  function SlotFor(show: int -> string, release: string, ordinary: seq<Slot>, source: Source): (r: Option<Slot>)
  {
    var byRecording :=
      if source.release == Some(release) && source.recording.Some?
        then Sole(ByRecording(ordinary), source.recording) else None;
    if byRecording.Some? then byRecording else Sole(ByPosition(show, ordinary), SourcePosition(source.tags))
  }

  /** Source suggested for each track after the first n sources; a track keeps its first. */
  function Suggestions(
    show: int -> string, release: string, ordinary: seq<Slot>, sources: seq<Source>, n: nat): map<string, string>
    requires n <= |sources|
  {
    if n == 0 then map[]
    else
      var before := Suggestions(show, release, ordinary, sources, n - 1);
      var slot := SlotFor(show, release, ordinary, sources[n - 1]);
      if slot.Some? && slot.value.track !in before then before[slot.value.track := sources[n - 1].id] else before
  }

  method WithSuggestions(show: int -> string, sources: seq<Source>, release: string, slots: seq<Slot>)
    returns (suggestions: map<string, string>)
    ensures suggestions == Suggestions(show, release, Ordinary(slots), sources, |sources|)
  {
    var ordinary := Ordinary(slots);
    var recordingSlots := UniqueSlots(ByRecording(ordinary));
    var positionSlots := UniqueSlots(ByPosition(show, ordinary));
    suggestions := map[];
    for n := 0 to |sources|
      invariant suggestions == Suggestions(show, release, ordinary, sources, n)
    {
      var source := sources[n];
      var slot: Option<Slot> := None;
      if source.release == Some(release) && source.recording.Some? && source.recording.value in recordingSlots {
        slot := Some(recordingSlots[source.recording.value]);
      }
      if slot.None? {
        var position := SourcePosition(source.tags);
        if position.Some? && position.value in positionSlots {
          slot := Some(positionSlots[position.value]);
        }
      }
      assert slot == SlotFor(show, release, ordinary, source);
      if slot.Some? && slot.value.track !in suggestions {
        suggestions := suggestions[slot.value.track := source.id];
      }
    }
  }

  lemma {:induction false} SeenIsListed(items: seq<Item>, n: nat, key: string)
    requires n <= |items| && SeenAmong(items, n, key).Once?
    ensures exists i :: 0 <= i < n && items[i].slot == SeenAmong(items, n, key).slot
    decreases n
  {
    if items[n - 1].key != Some(key) {
      SeenIsListed(items, n - 1, key);
    }
  }

  lemma SlotForIsOrdinary(show: int -> string, release: string, ordinary: seq<Slot>, source: Source)
    ensures var slot := SlotFor(show, release, ordinary, source); slot.Some? ==> slot.value in ordinary
  {
    var position := SourcePosition(source.tags);
    if position.Some? && SeenAmong(ByPosition(show, ordinary), |ordinary|, position.value).Once? {
      SeenIsListed(ByPosition(show, ordinary), |ordinary|, position.value);
    }
    if source.recording.Some? && SeenAmong(ByRecording(ordinary), |ordinary|, source.recording.value).Once? {
      SeenIsListed(ByRecording(ordinary), |ordinary|, source.recording.value);
    }
  }

  ghost predicate Injective(m: map<string, string>) {
    forall a, b :: a in m && b in m && m[a] == m[b] ==> a == b
  }

  ghost predicate DistinctIds(sources: seq<Source>) {
    forall i, k :: 0 <= i < k < |sources| ==> sources[i].id != sources[k].id
  }

  function TrackSet(slots: seq<Slot>): set<string> {
    set slot | slot in slots && slot.assignable :: slot.track
  }

  predicate IsSourceBefore(sources: seq<Source>, n: nat, id: string)
    requires n <= |sources|
  {
    exists i :: 0 <= i < n && sources[i].id == id
  }

  lemma OneMorePair(m: map<string, string>, key: string, value: string)
    requires Injective(m) && forall k :: k in m ==> m[k] != value
    ensures Injective(m[key := value])
  {
  }

  /** No source is suggested twice, and suggestions name the album's sources for assignable tracks. */
  lemma {:induction false} SuggestionsAreInjective(
    show: int -> string, release: string, slots: seq<Slot>, sources: seq<Source>, n: nat)
    requires n <= |sources| && DistinctIds(sources)
    ensures var m := Suggestions(show, release, Ordinary(slots), sources, n);
            && Injective(m) && m.Keys <= TrackSet(slots)
            && forall track :: track in m ==> IsSourceBefore(sources, n, m[track])
    decreases n
  {
    if n > 0 {
      var before := Suggestions(show, release, Ordinary(slots), sources, n - 1);
      var slot := SlotFor(show, release, Ordinary(slots), sources[n - 1]);
      SuggestionsAreInjective(show, release, slots, sources, n - 1);
      SlotForIsOrdinary(show, release, Ordinary(slots), sources[n - 1]);
      forall track | track in before
        ensures before[track] != sources[n - 1].id && IsSourceBefore(sources, n, before[track])
      {
        assert IsSourceBefore(sources, n - 1, before[track]);
      }
      if slot.Some? && slot.value.track !in before {
        OneMorePair(before, slot.value.track, sources[n - 1].id);
        assert sources[n - 1].id == sources[n - 1].id && IsSourceBefore(sources, n, sources[n - 1].id);
      }
    }
  }

  // ---------------------------------------------------------------- the checks of a request

  datatype Assignment = Assignment(source: string, track: string)

  datatype Request = Request(assignments: seq<Assignment>, unmatched: seq<string>)

  datatype Conflict = StaleSnapshot | NoAssignment | DuplicateSources | NotAPartition | InvalidSlot | SharedRecording

  function SourceIds(sources: seq<Source>): set<string> {
    set source | source in sources :: source.id
  }

  function AssignedIds(assignments: seq<Assignment>): seq<string> {
    seq(|assignments|, i requires 0 <= i < |assignments| => assignments[i].source)
  }

  function Members<T>(items: seq<T>): set<T> {
    set x | x in items
  }

  /** The last assignable slot of a track. */
  function Assignable(slots: seq<Slot>, track: string): Option<Slot> {
    if slots == [] then None
    else
      var last := slots[|slots| - 1];
      if last.assignable && last.track == track then Some(last) else Assignable(slots[..|slots| - 1], track)
  }

  function RequestedSlots(
    canonical: string -> string, slots: seq<Slot>, assignments: seq<Assignment>): seq<Option<Slot>> {
    seq(|assignments|, i requires 0 <= i < |assignments| => Assignable(slots, canonical(assignments[i].track)))
  }

  function Recordings(slots: seq<Option<Slot>>): seq<string> {
    seq(|slots|, i requires 0 <= i < |slots| => if slots[i].Some? then slots[i].value.recording else "")
  }

  /** The first check a request fails; nothing when it is accepted. Track ids arrive in canonical form. */
  function Rejection(
    canonical: string -> string, stale: bool, sources: seq<Source>, slots: seq<Slot>,
    request: Request): Option<Conflict>
  {
    var chosen, unmatched := AssignedIds(request.assignments), request.unmatched;
    var requested := RequestedSlots(canonical, slots, request.assignments);
    if stale then Some(StaleSnapshot)
    else if request.assignments == [] then Some(NoAssignment)
    else if |Members(chosen)| != |chosen| || |Members(unmatched)| != |unmatched| then Some(DuplicateSources)
    else if Members(chosen) * Members(unmatched) != {}
      || Members(chosen) + Members(unmatched) != SourceIds(sources)
    then
      Some(NotAPartition)
    else if None in requested then Some(InvalidSlot)
    else if |Members(Recordings(requested))| != |requested| then Some(SharedRecording)
    else None
  }

  lemma {:induction false} SizeTellsDuplicates<T>(items: seq<T>)
    ensures |Members(items)| <= |items|
    ensures |Members(items)| == |items| <==> NoDup(items)
    decreases |items|
  {
    if items != [] {
      var before, last := items[..|items| - 1], items[|items| - 1];
      SizeTellsDuplicates(before);
      assert items == before + [last];
      assert Members(items) == Members(before) + {last};
      if last in before {
        assert Members(items) == Members(before);
        var k :| 0 <= k < |before| && before[k] == last;
        assert items[k] == items[|items| - 1];
      }
      if NoDup(before) && last !in before {
        assert NoDup(items);
      }
      if NoDup(items) {
        forall i, k | 0 <= i < k < |before| ensures before[i] != before[k] {
          assert items[i] != items[k];
        }
      }
    }
  }

  lemma {:induction false} AssignableIs(slots: seq<Slot>, track: string)
    ensures Assignable(slots, track).Some? <==> track in TrackSet(slots)
    ensures Assignable(slots, track).Some? ==>
              Assignable(slots, track).value in slots && Assignable(slots, track).value.assignable
              && Assignable(slots, track).value.track == track
    decreases |slots|
  {
    if slots != [] {
      AssignableIs(slots[..|slots| - 1], track);
      assert slots == slots[..|slots| - 1] + [slots[|slots| - 1]];
    }
  }

  /** What an accepted request is: every source in one place, one track each, and one recording each. */
  ghost predicate IsMatching(canonical: string -> string, sources: seq<Source>, slots: seq<Slot>, request: Request) {
    && request.assignments != []
    && NoDup(AssignedIds(request.assignments)) && NoDup(request.unmatched)
    && (forall id :: id in SourceIds(sources) <==> id in AssignedIds(request.assignments) || id in request.unmatched)
    && (forall id :: id in AssignedIds(request.assignments) ==> id !in request.unmatched)
    && (forall i :: 0 <= i < |request.assignments| ==> canonical(request.assignments[i].track) in TrackSet(slots))
    && NoDup(Recordings(RequestedSlots(canonical, slots, request.assignments)))
  }

  lemma PartitionChecks(chosen: seq<string>, unmatched: seq<string>, ids: set<string>)
    ensures Members(chosen) * Members(unmatched) == {} <==> forall id :: id in chosen ==> id !in unmatched
    ensures Members(chosen) + Members(unmatched) == ids <==> forall id :: id in ids <==> id in chosen || id in unmatched
  {
    if Members(chosen) * Members(unmatched) == {} {
      forall id | id in chosen ensures id !in unmatched {
        assert id in Members(unmatched) ==> id in Members(chosen) * Members(unmatched);
      }
    }
    if Members(chosen) + Members(unmatched) == ids {
      assert forall id :: id in Members(chosen) + Members(unmatched) <==> id in chosen || id in unmatched;
    }
  }

  lemma SlotChecks(canonical: string -> string, slots: seq<Slot>, assignments: seq<Assignment>)
    ensures None !in RequestedSlots(canonical, slots, assignments)
            <==> forall i :: 0 <= i < |assignments| ==> canonical(assignments[i].track) in TrackSet(slots)
  {
    var requested := RequestedSlots(canonical, slots, assignments);
    forall i | 0 <= i < |assignments|
      ensures requested[i].Some? <==> canonical(assignments[i].track) in TrackSet(slots)
    {
      AssignableIs(slots, canonical(assignments[i].track));
    }
    assert None in requested <==> exists i :: 0 <= i < |requested| && requested[i].None?;
  }

  /** A request on an unchanged album is accepted exactly when it is such a matching. */
  lemma AcceptedIsMatching(canonical: string -> string, sources: seq<Source>, slots: seq<Slot>, request: Request)
    ensures Rejection(canonical, false, sources, slots, request).None?
            <==> IsMatching(canonical, sources, slots, request)
  {
    SizeTellsDuplicates(AssignedIds(request.assignments));
    SizeTellsDuplicates(request.unmatched);
    SizeTellsDuplicates(Recordings(RequestedSlots(canonical, slots, request.assignments)));
    PartitionChecks(AssignedIds(request.assignments), request.unmatched, SourceIds(sources));
    SlotChecks(canonical, slots, request.assignments);
  }

  /** So an accepted request sends different sources to different assignable tracks. */
  lemma AcceptedIsInjective(
    canonical: string -> string, stale: bool, sources: seq<Source>, slots: seq<Slot>, request: Request, i: nat, k: nat)
    requires Rejection(canonical, stale, sources, slots, request).None? && i < k < |request.assignments|
    ensures request.assignments[i].source != request.assignments[k].source
    ensures canonical(request.assignments[i].track) != canonical(request.assignments[k].track)
    ensures canonical(request.assignments[i].track) in TrackSet(slots)
    ensures request.assignments[i].source in SourceIds(sources)
  {
    AcceptedIsMatching(canonical, sources, slots, request);
    var ids := AssignedIds(request.assignments);
    assert ids[i] != ids[k] && ids[i] in ids;
    var recordings := Recordings(RequestedSlots(canonical, slots, request.assignments));
    assert recordings[i] != recordings[k];
  }
}
