/** What is suggested for a track, and why a request is refused, in terms of slots, sources and tags alone. */
module AlbumRemapMeaning {
  import opened Wrappers
  import opened Ordering
  import opened AlbumRemap

  // ---------------------------------------------------------------- positions

  /** The part of a text before its first slash. */
  ghost predicate IsHead(text: string, head: string) {
    '/' !in head && (text == head || exists rest :: text == head + "/" + rest)
  }

  lemma {:induction false} HeadMeans(text: string, head: string)
    ensures IsHead(text, head) <==> head == BeforeSlash(text)
    decreases |text|
  {
    if text == "" || text[0] == '/' {
      HeadOfSlash(text, head);
    } else {
      HeadMeans(text[1..], if head == "" then "" else head[1..]);
      HeadOfLonger(text, head);
    }
  }

  lemma HeadOfSlash(text: string, head: string)
    requires text == "" || text[0] == '/'
    ensures IsHead(text, head) <==> head == ""
  {
    if text != "" {
      assert text == "" + "/" + text[1..];
    }
    if rest :| text == head + "/" + rest && head != "" {
      assert head[0] == text[0];
    }
  }

  lemma HeadOfLonger(text: string, head: string)
    requires text != "" && text[0] != '/'
    ensures IsHead(text, head) <==> head != "" && head[0] == text[0] && IsHead(text[1..], head[1..])
  {
    if IsHead(text, head) {
      if rest :| text == head + "/" + rest {
        assert text[0] == (head + "/" + rest)[0];
        assert head != "" && text[1..] == head[1..] + "/" + rest;
      }
    }
    if head != "" && head[0] == text[0] && IsHead(text[1..], head[1..]) {
      assert head == [head[0]] + head[1..] && text == [text[0]] + text[1..];
      if rest :| text[1..] == head[1..] + "/" + rest {
        assert text == head + "/" + rest;
      }
    }
  }

  /** Disc and track number as tagged, without totals; the disc is 1 when none is tagged. */
  ghost predicate NamesPosition(tags: map<string, string>, position: string) {
    && "TRACKNUMBER" in tags
    && exists disc, track ::
         && IsHead(tags["TRACKNUMBER"], track) && position == disc + ":" + track
         && if "DISCNUMBER" in tags then IsHead(tags["DISCNUMBER"], disc) else disc == "1"
  }

  lemma PositionMeans(tags: map<string, string>, position: string)
    ensures SourcePosition(tags) == Some(position) <==> NamesPosition(tags, position)
  {
    forall text, head ensures IsHead(text, head) <==> head == BeforeSlash(text) {
      HeadMeans(text, head);
    }
    assert BeforeSlash("1") == "1" by {
      assert "1"[1..] == "";
    }
    if "TRACKNUMBER" in tags {
      var disc := if "DISCNUMBER" in tags then BeforeSlash(tags["DISCNUMBER"]) else "1";
      assert IsHead(tags["TRACKNUMBER"], BeforeSlash(tags["TRACKNUMBER"]));
      assert "DISCNUMBER" in tags ==> IsHead(tags["DISCNUMBER"], disc);
    }
  }

  // ---------------------------------------------------------------- the slot a source points at

  /** The one assignable slot with this recording. */
  ghost predicate IsOnlyRecording(slots: seq<Slot>, recording: string, i: int) {
    && 0 <= i < |slots| && slots[i].assignable && slots[i].recording == recording
    && forall k :: 0 <= k < |slots| && slots[k].assignable && slots[k].recording == recording ==> k == i
  }

  /** The one assignable slot at this position. */
  ghost predicate IsOnlyPosition(show: int -> string, slots: seq<Slot>, position: string, i: int) {
    && 0 <= i < |slots| && slots[i].assignable && IsAt(show, slots[i], position)
    && forall k :: 0 <= k < |slots| && slots[k].assignable && IsAt(show, slots[k], position) ==> k == i
  }

  ghost predicate IsAt(show: int -> string, slot: Slot, position: string) {
    position == show(slot.medium) + ":" + show(slot.position)
  }

  ghost predicate PointsByRecording(release: string, slots: seq<Slot>, source: Source, i: int) {
    && source.release == Some(release) && source.recording.Some?
    && IsOnlyRecording(slots, source.recording.value, i)
  }

  /** By its recording within this release, or when that names no single slot by its tagged position. */
  ghost predicate PointsAt(show: int -> string, release: string, slots: seq<Slot>, source: Source, i: int) {
    if exists k :: PointsByRecording(release, slots, source, k) then PointsByRecording(release, slots, source, i)
    else PointsByPosition(show, slots, source, i)
  }

  /** Where the assignable slots stand among all of them. */
  ghost predicate Embeds(slots: seq<Slot>, ordinary: seq<Slot>, at: seq<int>) {
    && |at| == |ordinary|
    && (forall j :: 0 <= j < |at| ==> 0 <= at[j] < |slots| && slots[at[j]] == ordinary[j] && ordinary[j].assignable)
    && (forall j, k :: 0 <= j < k < |at| ==> at[j] < at[k])
    && forall i :: 0 <= i < |slots| && slots[i].assignable ==> exists j :: 0 <= j < |at| && at[j] == i
  }

  lemma {:induction false} OrdinaryEmbeds(slots: seq<Slot>) returns (at: seq<int>)
    ensures Embeds(slots, Ordinary(slots), at)
    decreases |slots|
  {
    at := [];
    if slots != [] {
      var rest := OrdinaryEmbeds(slots[1..]);
      var later := seq(|rest|, j requires 0 <= j < |rest| => rest[j] + 1);
      at := (if slots[0].assignable then [0] else []) + later;
      EmbedsOneMore(slots, Ordinary(slots[1..]), Ordinary(slots), rest, later, at);
    }
  }

  lemma EmbedsOneMore(
    slots: seq<Slot>, tail: seq<Slot>, ordinary: seq<Slot>, rest: seq<int>, later: seq<int>, at: seq<int>)
    requires slots != [] && Embeds(slots[1..], tail, rest)
    requires |later| == |rest| && forall j :: 0 <= j < |rest| ==> later[j] == rest[j] + 1
    requires at == (if slots[0].assignable then [0] else []) + later
    requires ordinary == (if slots[0].assignable then [slots[0]] else []) + tail
    ensures Embeds(slots, ordinary, at)
  {
    forall j | 0 <= j < |later| ensures 0 < later[j] < |slots| && slots[later[j]] == tail[j] {
      assert slots[1..][rest[j]] == tail[j];
    }
    LaterFound(slots, tail, rest, later);
    forall j, k | 0 <= j < k < |later| ensures later[j] < later[k] {
      assert rest[j] < rest[k];
    }
    if slots[0].assignable {
      FirstEmbeds(slots, tail, later);
    } else {
      RestEmbeds(slots, tail, later);
      assert [] + later == later && [] + tail == tail;
    }
  }

  lemma RestEmbeds(slots: seq<Slot>, tail: seq<Slot>, later: seq<int>)
    requires slots != [] && !slots[0].assignable && |later| == |tail|
    requires forall j :: 0 <= j < |later| ==>
               0 < later[j] < |slots| && slots[later[j]] == tail[j] && tail[j].assignable
    requires forall j, k :: 0 <= j < k < |later| ==> later[j] < later[k]
    requires forall i :: 0 < i < |slots| && slots[i].assignable ==> exists j :: 0 <= j < |later| && later[j] == i
    ensures Embeds(slots, tail, later)
  {
  }

  lemma FirstEmbeds(slots: seq<Slot>, tail: seq<Slot>, later: seq<int>)
    requires slots != [] && slots[0].assignable && |later| == |tail|
    requires forall j :: 0 <= j < |later| ==>
               0 < later[j] < |slots| && slots[later[j]] == tail[j] && tail[j].assignable
    requires forall j, k :: 0 <= j < k < |later| ==> later[j] < later[k]
    requires forall i :: 0 < i < |slots| && slots[i].assignable ==> exists j :: 0 <= j < |later| && later[j] == i
    ensures Embeds(slots, [slots[0]] + tail, [0] + later)
  {
    var at := [0] + later;
    forall i | 0 <= i < |slots| && slots[i].assignable ensures exists j :: 0 <= j < |at| && at[j] == i {
      if i == 0 {
        assert at[0] == 0;
      } else {
        var j :| 0 <= j < |later| && later[j] == i;
        assert at[j + 1] == i;
      }
    }
  }

  lemma LaterFound(slots: seq<Slot>, tail: seq<Slot>, rest: seq<int>, later: seq<int>)
    requires slots != [] && Embeds(slots[1..], tail, rest)
    requires |later| == |rest| && forall j :: 0 <= j < |rest| ==> later[j] == rest[j] + 1
    ensures forall i :: 0 < i < |slots| && slots[i].assignable ==> exists j :: 0 <= j < |later| && later[j] == i
  {
    forall i | 0 < i < |slots| && slots[i].assignable ensures exists j :: 0 <= j < |later| && later[j] == i {
      assert slots[1..][i - 1] == slots[i];
      var j :| 0 <= j < |rest| && rest[j] == i - 1;
      assert later[j] == i;
    }
  }

  lemma SoleFound(items: seq<Item>, key: string)
    ensures Sole(items, Some(key)).Some? <==> exists j :: SoleIndex(items, |items|, key, j)
    ensures forall j :: SoleIndex(items, |items|, key, j) ==> Sole(items, Some(key)) == Some(items[j].slot)
  {
    SeenOnce(items, |items|, key, 0);
    forall j | SoleIndex(items, |items|, key, j) ensures Sole(items, Some(key)) == Some(items[j].slot) {
      SeenOnce(items, |items|, key, j);
    }
  }

  /** The one assignable slot whose key this is. */
  ghost predicate IsOnlyKey(slots: seq<Slot>, key: Slot -> string, wanted: string, i: int) {
    && 0 <= i < |slots| && slots[i].assignable && key(slots[i]) == wanted
    && forall k :: 0 <= k < |slots| && slots[k].assignable && key(slots[k]) == wanted ==> k == i
  }

  ghost predicate IsKeyed(items: seq<Item>, slots: seq<Slot>, key: Slot -> string) {
    |items| == |slots| && forall j :: 0 <= j < |items| ==> items[j] == Item(Some(key(slots[j])), slots[j])
  }

  lemma OnlyKeyAmongOrdinary(
    slots: seq<Slot>, key: Slot -> string, items: seq<Item>, wanted: string, at: seq<int>, j: nat)
    requires Embeds(slots, Ordinary(slots), at) && IsKeyed(items, Ordinary(slots), key) && j < |items|
    ensures SoleIndex(items, |items|, wanted, j) <==> IsOnlyKey(slots, key, wanted, at[j])
  {
    forall k | 0 <= k < |items| ensures items[k].key == Some(wanted) <==> key(slots[at[k]]) == wanted {
    }
    if SoleIndex(items, |items|, wanted, j) {
      forall k | 0 <= k < |slots| && slots[k].assignable && key(slots[k]) == wanted ensures k == at[j] {
        var i :| 0 <= i < |at| && at[i] == k;
      }
    }
  }

  /** A key that occurs once among the assignable slots finds its slot, and no other key finds any. */
  lemma SoleMeans(slots: seq<Slot>, key: Slot -> string, items: seq<Item>, wanted: string)
    requires IsKeyed(items, Ordinary(slots), key)
    ensures Sole(items, Some(wanted)).Some? <==> exists i :: IsOnlyKey(slots, key, wanted, i)
    ensures forall i :: IsOnlyKey(slots, key, wanted, i) ==> Sole(items, Some(wanted)) == Some(slots[i])
  {
    var at := OrdinaryEmbeds(slots);
    SoleFound(items, wanted);
    forall j | 0 <= j < |items|
      ensures SoleIndex(items, |items|, wanted, j) <==> IsOnlyKey(slots, key, wanted, at[j])
    {
      OnlyKeyAmongOrdinary(slots, key, items, wanted, at, j);
    }
    forall i | IsOnlyKey(slots, key, wanted, i) ensures Sole(items, Some(wanted)) == Some(slots[i]) {
      var j :| 0 <= j < |at| && at[j] == i;
      assert SoleIndex(items, |items|, wanted, j);
    }
  }

  lemma RecordingFound(slots: seq<Slot>, recording: string)
    ensures Sole(ByRecording(Ordinary(slots)), Some(recording)).Some? <==>
            exists i :: IsOnlyRecording(slots, recording, i)
    ensures forall i :: IsOnlyRecording(slots, recording, i) ==>
              Sole(ByRecording(Ordinary(slots)), Some(recording)) == Some(slots[i])
  {
    var key := (s: Slot) => s.recording;
    SoleMeans(slots, key, ByRecording(Ordinary(slots)), recording);
    forall i ensures IsOnlyKey(slots, key, recording, i) <==> IsOnlyRecording(slots, recording, i) {
    }
  }

  lemma PositionFound(show: int -> string, slots: seq<Slot>, position: string)
    ensures Sole(ByPosition(show, Ordinary(slots)), Some(position)).Some? <==>
            exists i :: IsOnlyPosition(show, slots, position, i)
    ensures forall i :: IsOnlyPosition(show, slots, position, i) ==>
              Sole(ByPosition(show, Ordinary(slots)), Some(position)) == Some(slots[i])
  {
    var key := (s: Slot) => show(s.medium) + ":" + show(s.position);
    SoleMeans(slots, key, ByPosition(show, Ordinary(slots)), position);
    forall i ensures IsOnlyKey(slots, key, position, i) <==> IsOnlyPosition(show, slots, position, i) {
    }
  }

  lemma PointedByRecording(show: int -> string, release: string, slots: seq<Slot>, source: Source)
    ensures var slot := SlotFor(show, release, Ordinary(slots), source);
            && (forall i :: PointsByRecording(release, slots, source, i) ==> slot == Some(slots[i]))
            && ((forall i :: !PointsByRecording(release, slots, source, i)) ==>
                  slot == Sole(ByPosition(show, Ordinary(slots)), SourcePosition(source.tags)))
  {
    if source.release == Some(release) && source.recording.Some? {
      RecordingFound(slots, source.recording.value);
      if i :| IsOnlyRecording(slots, source.recording.value, i) {
        assert PointsByRecording(release, slots, source, i);
      }
    }
  }

  ghost predicate PointsByPosition(show: int -> string, slots: seq<Slot>, source: Source, i: int) {
    exists position :: NamesPosition(source.tags, position) && IsOnlyPosition(show, slots, position, i)
  }

  lemma PointedByPosition(show: int -> string, slots: seq<Slot>, source: Source)
    ensures var slot := Sole(ByPosition(show, Ordinary(slots)), SourcePosition(source.tags));
            && (slot.Some? <==> exists i :: PointsByPosition(show, slots, source, i))
            && (forall i :: PointsByPosition(show, slots, source, i) ==> 0 <= i < |slots| && slot == Some(slots[i]))
  {
    var position := SourcePosition(source.tags);
    forall text ensures position == Some(text) <==> NamesPosition(source.tags, text) {
      PositionMeans(source.tags, text);
    }
    if position.Some? {
      PositionFound(show, slots, position.value);
      if i :| IsOnlyPosition(show, slots, position.value, i) {
        assert PointsByPosition(show, slots, source, i);
      }
    }
  }

  lemma PointsMeans(show: int -> string, release: string, slots: seq<Slot>, source: Source)
    ensures var slot := SlotFor(show, release, Ordinary(slots), source);
            && (slot.Some? <==> exists i :: PointsAt(show, release, slots, source, i))
            && (forall i :: PointsAt(show, release, slots, source, i) ==> 0 <= i < |slots| && slot == Some(slots[i]))
  {
    if k :| PointsByRecording(release, slots, source, k) {
      PointedByRecording(show, release, slots, source);
      assert PointsAt(show, release, slots, source, k);
    } else {
      PointsElsewhere(show, release, slots, source);
    }
  }

  lemma PointsElsewhere(show: int -> string, release: string, slots: seq<Slot>, source: Source)
    requires forall k :: !PointsByRecording(release, slots, source, k)
    ensures var slot := SlotFor(show, release, Ordinary(slots), source);
            && (slot.Some? <==> exists i :: PointsAt(show, release, slots, source, i))
            && (forall i :: PointsAt(show, release, slots, source, i) ==> 0 <= i < |slots| && slot == Some(slots[i]))
  {
    PointedByRecording(show, release, slots, source);
    PointedByPosition(show, slots, source);
    forall i ensures PointsAt(show, release, slots, source, i) <==> PointsByPosition(show, slots, source, i) {
    }
  }

  // ---------------------------------------------------------------- suggestions

  ghost predicate PointsAtTrack(show: int -> string, release: string, slots: seq<Slot>, source: Source, track: string) {
    exists i :: PointsAt(show, release, slots, source, i) && slots[i].track == track
  }

  /** The first source that points at the track. */
  ghost predicate IsFirstFor(
    show: int -> string, release: string, slots: seq<Slot>, sources: seq<Source>, n: nat, track: string, k: int)
    requires n <= |sources|
  {
    && 0 <= k < n && PointsAtTrack(show, release, slots, sources[k], track)
    && forall j :: 0 <= j < k ==> !PointsAtTrack(show, release, slots, sources[j], track)
  }

  lemma TrackPointed(show: int -> string, release: string, slots: seq<Slot>, source: Source, track: string)
    ensures var slot := SlotFor(show, release, Ordinary(slots), source);
            PointsAtTrack(show, release, slots, source, track) <==> slot.Some? && slot.value.track == track
  {
    PointsMeans(show, release, slots, source);
  }

  /** The first source that points at the track, and none when no source does. */
  ghost predicate IsSuggested(
    show: int -> string, release: string, slots: seq<Slot>, sources: seq<Source>, n: nat, track: string,
    suggestion: Option<string>)
    requires n <= |sources|
  {
    match suggestion
    case Some(id) => exists k :: IsFirstFor(show, release, slots, sources, n, track, k) && sources[k].id == id
    case None => forall k :: 0 <= k < n ==> !PointsAtTrack(show, release, slots, sources[k], track)
  }

  lemma SuggestedStays(
    show: int -> string, release: string, slots: seq<Slot>, sources: seq<Source>, n: nat, track: string,
    suggestion: Option<string>)
    requires n < |sources| && IsSuggested(show, release, slots, sources, n, track, suggestion)
    requires suggestion.Some? || !PointsAtTrack(show, release, slots, sources[n], track)
    ensures IsSuggested(show, release, slots, sources, n + 1, track, suggestion)
  {
    if suggestion.Some? {
      var k :| IsFirstFor(show, release, slots, sources, n, track, k) && sources[k].id == suggestion.value;
      assert IsFirstFor(show, release, slots, sources, n + 1, track, k);
    }
  }

  lemma SuggestedNow(
    show: int -> string, release: string, slots: seq<Slot>, sources: seq<Source>, n: nat, track: string)
    requires n < |sources| && IsSuggested(show, release, slots, sources, n, track, None)
    requires PointsAtTrack(show, release, slots, sources[n], track)
    ensures IsSuggested(show, release, slots, sources, n + 1, track, Some(sources[n].id))
  {
    assert IsFirstFor(show, release, slots, sources, n + 1, track, n);
  }

  function SuggestionFor(m: map<string, string>, track: string): Option<string> {
    if track in m then Some(m[track]) else None
  }

  lemma SuggestionStep(
    show: int -> string, release: string, slots: seq<Slot>, sources: seq<Source>, n: nat, track: string)
    requires n < |sources|
    ensures var before := SuggestionFor(Suggestions(show, release, Ordinary(slots), sources, n), track);
            SuggestionFor(Suggestions(show, release, Ordinary(slots), sources, n + 1), track)
            == if before.None? && PointsAtTrack(show, release, slots, sources[n], track)
               then Some(sources[n].id) else before
  {
    TrackPointed(show, release, slots, sources[n], track);
  }

  lemma SuggestedNext(
    show: int -> string, release: string, slots: seq<Slot>, sources: seq<Source>, n: nat, track: string,
    before: Option<string>, after: Option<string>)
    requires n < |sources| && IsSuggested(show, release, slots, sources, n, track, before)
    requires after == if before.None? && PointsAtTrack(show, release, slots, sources[n], track)
                      then Some(sources[n].id) else before
    ensures IsSuggested(show, release, slots, sources, n + 1, track, after)
  {
    if before.None? && PointsAtTrack(show, release, slots, sources[n], track) {
      SuggestedNow(show, release, slots, sources, n, track);
    } else {
      SuggestedStays(show, release, slots, sources, n, track, before);
    }
  }

  lemma SuggestionFollows(
    show: int -> string, release: string, slots: seq<Slot>, sources: seq<Source>, n: nat, track: string)
    requires n < |sources|
    requires var before := SuggestionFor(Suggestions(show, release, Ordinary(slots), sources, n), track);
             IsSuggested(show, release, slots, sources, n, track, before)
    ensures var after := SuggestionFor(Suggestions(show, release, Ordinary(slots), sources, n + 1), track);
            IsSuggested(show, release, slots, sources, n + 1, track, after)
  {
    SuggestionStep(show, release, slots, sources, n, track);
    SuggestedNext(
      show, release, slots, sources, n, track,
      SuggestionFor(Suggestions(show, release, Ordinary(slots), sources, n), track),
      SuggestionFor(Suggestions(show, release, Ordinary(slots), sources, n + 1), track));
  }

  lemma {:induction false} SuggestionsMean(
    show: int -> string, release: string, slots: seq<Slot>, sources: seq<Source>, n: nat, track: string)
    requires n <= |sources|
    ensures IsSuggested(
              show, release, slots, sources, n, track,
              SuggestionFor(Suggestions(show, release, Ordinary(slots), sources, n), track))
    decreases n
  {
    if n > 0 {
      SuggestionsMean(show, release, slots, sources, n - 1, track);
      SuggestionFollows(show, release, slots, sources, n - 1, track);
    }
  }

  // ---------------------------------------------------------------- refusals

  /** The last assignable slot of a track, the one a request for the track gets. */
  ghost predicate IsSlotOf(slots: seq<Slot>, track: string, i: int) {
    && 0 <= i < |slots| && slots[i].assignable && slots[i].track == track
    && forall k :: i < k < |slots| ==> !(slots[k].assignable && slots[k].track == track)
  }

  lemma {:induction false} SlotMeans(slots: seq<Slot>, track: string)
    ensures Assignable(slots, track).Some? <==> exists i :: IsSlotOf(slots, track, i)
    ensures forall i :: IsSlotOf(slots, track, i) ==> Assignable(slots, track) == Some(slots[i])
    decreases |slots|
  {
    if slots != [] {
      var before, n := slots[..|slots| - 1], |slots| - 1;
      SlotMeans(before, track);
      if slots[n].assignable && slots[n].track == track {
        assert IsSlotOf(slots, track, n);
      } else {
        forall i ensures IsSlotOf(slots, track, i) <==> IsSlotOf(before, track, i) {
        }
      }
    }
  }

  /** Two assignments of one source, or one source left out twice. */
  ghost predicate RepeatsASource(request: Request) {
    || (exists i, k :: 0 <= i < k < |request.assignments|
                       && request.assignments[i].source == request.assignments[k].source)
    || (exists i, k :: 0 <= i < k < |request.unmatched| && request.unmatched[i] == request.unmatched[k])
  }

  ghost predicate IsAssigned(request: Request, id: string) {
    exists i :: 0 <= i < |request.assignments| && request.assignments[i].source == id
  }

  ghost predicate IsOfAlbum(sources: seq<Source>, id: string) {
    exists i :: 0 <= i < |sources| && sources[i].id == id
  }

  /** Every source of the album is assigned or left out, no other is, and none is both. */
  ghost predicate Partitions(sources: seq<Source>, request: Request) {
    && (forall id :: IsOfAlbum(sources, id) <==> IsAssigned(request, id) || id in request.unmatched)
    && (forall id :: !(IsAssigned(request, id) && id in request.unmatched))
  }

  ghost predicate LacksASlot(canonical: string -> string, slots: seq<Slot>, request: Request) {
    exists i :: 0 <= i < |request.assignments| && HasNoSlot(slots, canonical(request.assignments[i].track))
  }

  ghost predicate HasNoSlot(slots: seq<Slot>, track: string) {
    forall i :: !IsSlotOf(slots, track, i)
  }

  /** Two assignments whose slots are of one recording. */
  ghost predicate SharesRecording(canonical: string -> string, slots: seq<Slot>, request: Request) {
    exists i, k, a, b :: && 0 <= i < k < |request.assignments|
                         && IsSlotOf(slots, canonical(request.assignments[i].track), a)
                         && IsSlotOf(slots, canonical(request.assignments[k].track), b)
                         && slots[a].recording == slots[b].recording
  }

  lemma RepeatsMeans(request: Request)
    ensures RepeatsASource(request) <==> !NoDup(AssignedIds(request.assignments)) || !NoDup(request.unmatched)
  {
    var ids := AssignedIds(request.assignments);
    if !NoDup(ids) {
      var i, k :| 0 <= i < k < |ids| && ids[i] == ids[k];
      assert request.assignments[i].source == request.assignments[k].source;
    }
    if i, k :| 0 <= i < k < |request.assignments| && request.assignments[i].source == request.assignments[k].source {
      assert ids[i] == ids[k];
    }
  }

  lemma PartitionMeans(sources: seq<Source>, request: Request)
    ensures Partitions(sources, request) <==>
              && Members(AssignedIds(request.assignments)) * Members(request.unmatched) == {}
              && Members(AssignedIds(request.assignments)) + Members(request.unmatched) == SourceIds(sources)
  {
    var ids := AssignedIds(request.assignments);
    PartitionChecks(ids, request.unmatched, SourceIds(sources));
    forall id ensures id in ids <==> IsAssigned(request, id) {
      if i :| 0 <= i < |request.assignments| && request.assignments[i].source == id {
        assert ids[i] == id;
      }
      if id in ids {
        var i :| 0 <= i < |ids| && ids[i] == id;
        assert request.assignments[i].source == id;
      }
    }
    forall id ensures id in SourceIds(sources) <==> IsOfAlbum(sources, id) {
      if i :| 0 <= i < |sources| && sources[i].id == id {
        assert sources[i] in sources;
      }
    }
  }

  lemma SlotsMean(canonical: string -> string, slots: seq<Slot>, request: Request)
    ensures LacksASlot(canonical, slots, request) <==>
            None in RequestedSlots(canonical, slots, request.assignments)
  {
    var requested := RequestedSlots(canonical, slots, request.assignments);
    forall i | 0 <= i < |requested|
      ensures requested[i] == None <==> HasNoSlot(slots, canonical(request.assignments[i].track))
    {
      SlotMeans(slots, canonical(request.assignments[i].track));
    }
    assert None in requested <==> exists i :: 0 <= i < |requested| && requested[i] == None;
  }

  lemma SharesMeans(canonical: string -> string, slots: seq<Slot>, request: Request)
    requires !LacksASlot(canonical, slots, request)
    ensures SharesRecording(canonical, slots, request) <==>
            !NoDup(Recordings(RequestedSlots(canonical, slots, request.assignments)))
  {
    var requested := RequestedSlots(canonical, slots, request.assignments);
    var recordings := Recordings(requested);
    forall i | 0 <= i < |requested|
      ensures !HasNoSlot(slots, canonical(request.assignments[i].track))
      ensures forall a :: IsSlotOf(slots, canonical(request.assignments[i].track), a) ==>
                recordings[i] == slots[a].recording
    {
      SlotMeans(slots, canonical(request.assignments[i].track));
    }
    if !NoDup(recordings) {
      var i, k :| 0 <= i < k < |recordings| && recordings[i] == recordings[k];
      var a :| IsSlotOf(slots, canonical(request.assignments[i].track), a);
      var b :| IsSlotOf(slots, canonical(request.assignments[k].track), b);
      assert slots[a].recording == slots[b].recording;
    }
  }

  /** The checks of a request, and the order in which they are made. */
  lemma RejectionMeans(
    canonical: string -> string, stale: bool, sources: seq<Source>, slots: seq<Slot>, request: Request)
    ensures Rejection(canonical, stale, sources, slots, request) ==
            if stale then Some(StaleSnapshot)
            else if |request.assignments| == 0 then Some(NoAssignment)
            else if RepeatsASource(request) then Some(DuplicateSources)
            else if !Partitions(sources, request) then Some(NotAPartition)
            else if LacksASlot(canonical, slots, request) then Some(InvalidSlot)
            else if SharesRecording(canonical, slots, request) then Some(SharedRecording)
            else None
  {
    SizeTellsDuplicates(AssignedIds(request.assignments));
    SizeTellsDuplicates(request.unmatched);
    SizeTellsDuplicates(Recordings(RequestedSlots(canonical, slots, request.assignments)));
    RepeatsMeans(request);
    PartitionMeans(sources, request);
    SlotsMean(canonical, slots, request);
    if !LacksASlot(canonical, slots, request) {
      SharesMeans(canonical, slots, request);
    }
  }
}
