/**
 What a plan says in terms of rows, sources and files alone: whom an identity belongs to, who is recorded at a path,
 and what new sources, replacements, deletions and counters follow from that.
 */
module ReconciliationMeaning {
  import opened Wrappers
  import opened Ordering
  import opened Reconciliation
  import opened ReconciliationFacts
  import opened ReconciliationStore
  import opened ReconciliationProperties
  import opened ReconciliationIndex
  import opened ReconciliationStability

  // ---------------------------------------------------------------- whom an identity belongs to

  ghost predicate IsInactive(source: Source) {
    source.intake == Replaced || source.intake == Disappeared
  }

  /** Active sources come before inactive ones, and sources of the same kind in the order of their ids. */
  ghost predicate ComesBefore(a: Source, b: Source) {
    (!IsInactive(a) && IsInactive(b)) || ((IsInactive(a) <==> IsInactive(b)) && TextLess(a.id, b.id))
  }

  ghost predicate HasSource(snap: Snapshot, g: Identity) {
    exists id :: id in snap.sources && snap.sources[id].identity == g
  }

  ghost predicate IsFirstSource(snap: Snapshot, g: Identity, id: SourceId) {
    && id in snap.sources && snap.sources[id].identity == g
    && forall other :: other in snap.sources && snap.sources[other].identity == g ==>
         other == id || ComesBefore(snap.sources[id], snap.sources[other])
  }

  /** The first source with the identity, or the digest of an identity no source has. */
  ghost predicate Owns(names: Naming, snap: Snapshot, g: Identity, id: SourceId) {
    if HasSource(snap, g) then IsFirstSource(snap, g, id) else id == names.idOf(g)
  }

  lemma SourceOrder(a: Source, b: Source)
    ensures LexLess(SourceKey(a), SourceKey(b)) <==> ComesBefore(a, b)
    ensures SourceKey(a) == SourceKey(b) ==> a.id == b.id
  {
    TextOrder(a.id, b.id);
    assert SourceKey(a)[1..] == Codes(a.id) && SourceKey(b)[1..] == Codes(b.id);
    if Codes(a.id) == Codes(b.id) {
      CodesInjective(a.id, b.id);
    }
  }

  lemma OwnerMeans(names: Naming, snap: Snapshot, g: Identity, id: SourceId)
    requires ValidSnapshot(snap)
    ensures Owns(names, snap, g, id) <==> id == Owner(names, snap, g)
    ensures Existing(snap, g).Some? <==> HasSource(snap, g)
  {
    ExistingFacts(snap, g);
    if HasSource(snap, g) {
      var found := Existing(snap, g).value;
      forall other | other in snap.sources && snap.sources[other].identity == g && other != found
        ensures ComesBefore(snap.sources[found], snap.sources[other])
        ensures !ComesBefore(snap.sources[other], snap.sources[found])
      {
        SourceOrder(snap.sources[found], snap.sources[other]);
        SourceOrder(snap.sources[other], snap.sources[found]);
        LexTrichotomy(SourceKey(snap.sources[found]), SourceKey(snap.sources[other]));
      }
    }
  }

  lemma FirstSourceMeans(snap: Snapshot, g: Identity, id: SourceId)
    requires ValidSnapshot(snap)
    ensures IsFirstSource(snap, g, id) <==> Existing(snap, g) == Some(id)
  {
    var names := Naming((h: Identity) => id, (h: Identity) => "");
    OwnerMeans(names, snap, g, id);
  }

  lemma ExistingMeans(snap: Snapshot, g: Identity)
    requires ValidSnapshot(snap)
    ensures Existing(snap, g).Some? <==> HasSource(snap, g)
    ensures Existing(snap, g).Some? ==> IsFirstSource(snap, g, Existing(snap, g).value)
    ensures forall id :: IsFirstSource(snap, g, id) ==> Existing(snap, g) == Some(id)
  {
    forall id ensures IsFirstSource(snap, g, id) <==> Existing(snap, g) == Some(id) {
      FirstSourceMeans(snap, g, id);
    }
    FirstSourceMeans(snap, g, "");
    OwnerMeans(Naming((h: Identity) => "", (h: Identity) => ""), snap, g, "");
  }

  // ---------------------------------------------------------------- who is recorded at a path

  ghost predicate HasRowAt(snap: Snapshot, key: Key) {
    exists l :: l in snap.locations && snap.locations[l].key == key
  }

  /** A source without any row whose own columns name the path. */
  ghost predicate StandsAt(snap: Snapshot, id: SourceId, key: Key) {
    && id in snap.sources && snap.sources[id].key == key
    && forall l :: l in snap.locations ==> snap.locations[l].source != id
  }

  /** The source of the row at a path; without a row there, the first source in row order that stands there. */
  ghost predicate Holds(snap: Snapshot, key: Key, id: SourceId) {
    if HasRowAt(snap, key) then exists l :: l in snap.locations && snap.locations[l] == Location(id, key)
    else exists i :: 0 <= i < |snap.order| && FirstStanding(snap, key, i) && snap.order[i] == id
  }

  ghost predicate FirstStanding(snap: Snapshot, key: Key, i: int)
    requires 0 <= i < |snap.order|
  {
    StandsAt(snap, snap.order[i], key) && forall k :: 0 <= k < i ==> !StandsAt(snap, snap.order[k], key)
  }

  ghost predicate IsHeld(snap: Snapshot, key: Key) {
    exists id :: Holds(snap, key, id)
  }

  lemma {:induction false} StandInIsFirst(snap: Snapshot, n: nat, key: Key)
    requires ValidSnapshot(snap) && n <= |snap.order|
    ensures var found := StandIn(snap, snap.order[..n], key);
            found.Some? ==> exists i :: 0 <= i < n && FirstStanding(snap, key, i) && snap.order[i] == found.value
    decreases n
  {
    if n > 0 {
      StandInIsFirst(snap, n - 1, key);
      assert snap.order[..n][..n - 1] == snap.order[..n - 1];
      if StandIn(snap, snap.order[..n - 1], key).None? && StandIn(snap, snap.order[..n], key).Some? {
        forall k | 0 <= k < n - 1 ensures !StandsAt(snap, snap.order[k], key) {
          assert snap.order[..n - 1][k] == snap.order[k];
        }
        assert FirstStanding(snap, key, n - 1);
      }
    }
  }

  lemma StandInMeans(snap: Snapshot, key: Key, id: SourceId)
    requires ValidSnapshot(snap)
    ensures StandIn(snap, snap.order, key) == Some(id) <==>
            exists i :: 0 <= i < |snap.order| && FirstStanding(snap, key, i) && snap.order[i] == id
  {
    var found := StandIn(snap, snap.order, key);
    StandInIsFirst(snap, |snap.order|, key);
    assert snap.order[..|snap.order|] == snap.order;
    if found.Some? {
      var k :| 0 <= k < |snap.order| && FirstStanding(snap, key, k) && snap.order[k] == found.value;
      forall i | 0 <= i < |snap.order| && FirstStanding(snap, key, i) ensures i == k {
      }
    } else {
      forall i | 0 <= i < |snap.order| ensures !StandsAt(snap, snap.order[i], key) {
        assert snap.order[i] in snap.order;
      }
    }
  }

  lemma RowAtMeans(snap: Snapshot, key: Key)
    requires ValidSnapshot(snap)
    ensures HasRowAt(snap, key) <==> Lookup(snap, key).Some? && Lookup(snap, key).value.id != 0
  {
    if l :| l in snap.locations && snap.locations[l].key == key {
      RowLookup(snap, l);
    }
  }

  lemma RowHolderMeans(snap: Snapshot, key: Key, id: SourceId)
    requires ValidSnapshot(snap) && HasRowAt(snap, key)
    ensures Holds(snap, key, id) <==> Lookup(snap, key).Some? && Lookup(snap, key).value.source == id
  {
    var l :| l in snap.locations && snap.locations[l].key == key;
    RowLookup(snap, l);
  }

  lemma HolderMeans(snap: Snapshot, key: Key, id: SourceId)
    requires ValidSnapshot(snap)
    ensures Holds(snap, key, id) <==> Lookup(snap, key).Some? && Lookup(snap, key).value.source == id
  {
    if HasRowAt(snap, key) {
      RowHolderMeans(snap, key, id);
    } else {
      assert key !in RowEntries(snap.locations);
      StandInMeans(snap, key, id);
    }
  }

  lemma HeldMeans(snap: Snapshot, key: Key)
    requires ValidSnapshot(snap)
    ensures IsHeld(snap, key) <==> Lookup(snap, key).Some?
    ensures Lookup(snap, key).Some? ==> Holds(snap, key, Lookup(snap, key).value.source)
  {
    if Lookup(snap, key).Some? {
      HolderMeans(snap, key, Lookup(snap, key).value.source);
    }
    if id :| Holds(snap, key, id) {
      HolderMeans(snap, key, id);
    }
  }

  // ---------------------------------------------------------------- the first file of an identity

  ghost predicate KeyLess(a: Key, b: Key) {
    TextLess(a.root, b.root) || (a.root == b.root && TextLess(a.path, b.path))
  }

  lemma {:induction false} TerminatedLess(a: string, b: string, x: seq<int>, y: seq<int>)
    ensures LexLess(Shifted(a) + [0] + x, Shifted(b) + [0] + y) <==>
            LexLess(Codes(a), Codes(b)) || (a == b && LexLess(x, y))
    decreases |a|
  {
    var p, q := Shifted(a) + [0] + x, Shifted(b) + [0] + y;
    if a != [] && b != [] {
      assert p[1..] == Shifted(a[1..]) + [0] + x && q[1..] == Shifted(b[1..]) + [0] + y;
      assert Codes(a)[1..] == Codes(a[1..]) && Codes(b)[1..] == Codes(b[1..]);
      assert a == [a[0]] + a[1..] && b == [b[0]] + b[1..];
      TerminatedLess(a[1..], b[1..], x, y);
    } else if a == [] && b == [] {
      assert p[1..] == x && q[1..] == y;
    }
  }

  lemma {:induction false} ShiftedLess(a: string, b: string)
    ensures LexLess(Shifted(a), Shifted(b)) <==> LexLess(Codes(a), Codes(b))
    decreases |a|
  {
    if a != [] && b != [] {
      assert Shifted(a)[1..] == Shifted(a[1..]) && Shifted(b)[1..] == Shifted(b[1..]);
      assert Codes(a)[1..] == Codes(a[1..]) && Codes(b)[1..] == Codes(b[1..]);
      ShiftedLess(a[1..], b[1..]);
    }
  }

  lemma FileOrder(f: File, g: File)
    ensures LexLess(FileKey(f), FileKey(g)) <==> KeyLess(f.key, g.key)
  {
    TerminatedLess(f.key.root, g.key.root, Shifted(f.key.path), Shifted(g.key.path));
    ShiftedLess(f.key.path, g.key.path);
    TextOrder(f.key.root, g.key.root);
    TextOrder(f.key.path, g.key.path);
  }

  lemma KeyTrichotomy(a: Key, b: Key)
    ensures a == b || KeyLess(a, b) || KeyLess(b, a)
    ensures !(KeyLess(a, b) && KeyLess(b, a)) && !KeyLess(a, a)
  {
    TextTrichotomy(a.root, b.root);
    TextTrichotomy(a.path, b.path);
    TextTrichotomy(a.root, a.root);
    TextTrichotomy(a.path, a.path);
  }

  /** The file of its identity with the least root and path. */
  ghost predicate IsLeastFile(files: seq<File>, f: File) {
    && f in files
    && forall other :: other in files && other.identity == f.identity ==>
         other.key == f.key || KeyLess(f.key, other.key)
  }

  /** Of the files with the identity at whose path something is recorded, the one with the least root and path. */
  ghost predicate IsFirstHeld(snap: Snapshot, files: seq<File>, f: File) {
    && f in files && IsHeld(snap, f.key)
    && forall other :: other in files && other.identity == f.identity && IsHeld(snap, other.key) ==>
         other.key == f.key || KeyLess(f.key, other.key)
  }

  lemma GroupSorted(files: seq<File>, g: Identity, i: nat, k: nat)
    requires i < k < |Group(files, g)|
    ensures Group(files, g)[i].key == Group(files, g)[k].key || KeyLess(Group(files, g)[i].key, Group(files, g)[k].key)
  {
    var group := Group(files, g);
    SortSorted(FileKey, WithIdentity(files, g));
    FileOrder(group[i], group[k]);
    FileOrder(group[k], group[i]);
    LexTrichotomy(FileKey(group[i]), FileKey(group[k]));
    KeyTrichotomy(group[i].key, group[k].key);
  }

  lemma GroupStartsWithLeast(files: seq<File>, g: Identity)
    requires Group(files, g) != []
    ensures IsLeastFile(files, Group(files, g)[0]) && Group(files, g)[0].identity == g
  {
    var group := Group(files, g);
    GroupMembers(files, g);
    assert group[0] in group;
    forall other | other in files && other.identity == g
      ensures other.key == group[0].key || KeyLess(group[0].key, other.key)
    {
      assert other in group;
      var k :| 0 <= k < |group| && group[k] == other;
      if k > 0 {
        GroupSorted(files, g, 0, k);
      }
    }
  }

  lemma LeastFileIsUnique(files: seq<File>, f: File, other: File)
    requires DistinctKeys(files) && IsLeastFile(files, f) && IsLeastFile(files, other) && f.identity == other.identity
    ensures f == other
  {
    KeyTrichotomy(f.key, other.key);
  }

  lemma FirstHeldIsUnique(snap: Snapshot, files: seq<File>, f: File, other: File)
    requires DistinctKeys(files) && IsFirstHeld(snap, files, f) && IsFirstHeld(snap, files, other)
    requires f.identity == other.identity
    ensures f == other
  {
    KeyTrichotomy(f.key, other.key);
  }

  ghost predicate NoneHeld(snap: Snapshot, group: seq<File>, n: nat)
    requires n <= |group|
  {
    forall k :: 0 <= k < n ==> !IsHeld(snap, group[k].key)
  }

  lemma {:induction false} FirstRecordedAt(snap: Snapshot, group: seq<File>) returns (i: nat)
    requires ValidSnapshot(snap)
    ensures i <= |group| && NoneHeld(snap, group, i)
    ensures FirstRecorded(snap, group).None? <==> i == |group|
    ensures i < |group| ==>
              IsHeld(snap, group[i].key) && Holds(snap, group[i].key, FirstRecorded(snap, group).value)
    decreases |group|
  {
    i := 0;
    if group != [] {
      HeldMeans(snap, group[0].key);
      if Lookup(snap, group[0].key).None? {
        var k := FirstRecordedAt(snap, group[1..]);
        NoneHeldFromFirst(snap, group, k);
        i := k + 1;
      }
    }
  }

  lemma NoneHeldFromFirst(snap: Snapshot, group: seq<File>, n: nat)
    requires group != [] && n < |group| && !IsHeld(snap, group[0].key) && NoneHeld(snap, group[1..], n)
    ensures NoneHeld(snap, group, n + 1)
  {
    forall k | 0 < k < n + 1 ensures !IsHeld(snap, group[k].key) {
      assert group[1..][k - 1] == group[k];
    }
  }

  /** Where the planner finds what an identity's files were recorded under, and where it finds nothing. */
  lemma FirstRecordedMeans(snap: Snapshot, files: seq<File>, g: Identity)
    requires ValidSnapshot(snap)
    ensures FirstRecorded(snap, Group(files, g)).None? <==>
            forall f :: f in files && f.identity == g ==> !IsHeld(snap, f.key)
    ensures var found := FirstRecorded(snap, Group(files, g));
            found.Some? ==>
              exists f :: IsFirstHeld(snap, files, f) && f.identity == g && Holds(snap, f.key, found.value)
  {
    var group := Group(files, g);
    var i := FirstRecordedAt(snap, group);
    GroupMembers(files, g);
    if i < |group| {
      HeldAtIsFirst(snap, files, g, i);
      assert group[i] in group;
    } else {
      forall f | f in files && f.identity == g ensures !IsHeld(snap, f.key) {
        assert f in group;
      }
    }
  }

  lemma HeldAtIsFirst(snap: Snapshot, files: seq<File>, g: Identity, i: nat)
    requires ValidSnapshot(snap) && i < |Group(files, g)| && IsHeld(snap, Group(files, g)[i].key)
    requires NoneHeld(snap, Group(files, g), i)
    ensures IsFirstHeld(snap, files, Group(files, g)[i])
  {
    var group := Group(files, g);
    GroupMembers(files, g);
    assert group[i] in group;
    forall other | other in files && other.identity == group[i].identity && IsHeld(snap, other.key)
      ensures other.key == group[i].key || KeyLess(group[i].key, other.key)
    {
      assert other in group;
      var k :| 0 <= k < |group| && group[k] == other;
      if k > i {
        GroupSorted(files, g, i, k);
      }
    }
  }

  // ---------------------------------------------------------------- the record a changed file keeps

  /** The identity's first file at a recorded path is recorded there under this source, which has this record. */
  ghost predicate Retires(snap: Snapshot, files: seq<File>, g: Identity, former: SourceId, record: RecordId) {
    && former in snap.sources && snap.sources[former].record == Some(record)
    && exists f :: IsFirstHeld(snap, files, f) && f.identity == g && Holds(snap, f.key, former)
  }

  ghost predicate KeepsRecord(snap: Snapshot, files: seq<File>, g: Identity, record: RecordId) {
    exists former :: Retires(snap, files, g, former, record)
  }

  lemma RetiresMeans(snap: Snapshot, files: seq<File>, g: Identity, former: SourceId, record: RecordId)
    requires ValidSnapshot(snap) && DistinctKeys(files)
    ensures Retires(snap, files, g, former, record) <==>
              && FirstRecorded(snap, Group(files, g)) == Some(former)
              && KeptRecord(snap, Group(files, g)) == Some(record)
  {
    var found := FirstRecorded(snap, Group(files, g));
    FirstRecordedMeans(snap, files, g);
    if found.Some? {
      var at :| IsFirstHeld(snap, files, at) && at.identity == g && Holds(snap, at.key, found.value);
      forall f | IsFirstHeld(snap, files, f) && f.identity == g
        ensures Holds(snap, f.key, former) ==> former == found.value
      {
        FirstHeldIsUnique(snap, files, f, at);
        HolderMeans(snap, at.key, former);
        HolderMeans(snap, at.key, found.value);
      }
    }
  }

  lemma KeepsMeans(snap: Snapshot, files: seq<File>, g: Identity, record: RecordId)
    requires ValidSnapshot(snap) && DistinctKeys(files)
    ensures KeepsRecord(snap, files, g, record) <==> KeptRecord(snap, Group(files, g)) == Some(record)
  {
    if former :| Retires(snap, files, g, former, record) {
      RetiresMeans(snap, files, g, former, record);
    }
    if KeptRecord(snap, Group(files, g)) == Some(record) {
      RetiresMeans(snap, files, g, FirstRecorded(snap, Group(files, g)).value, record);
    }
  }

  // ---------------------------------------------------------------- new sources

  /** The source of an unknown identity: where its first file is, and with the record kept, or else a fresh one. */
  ghost predicate DescribesNew(names: Naming, snap: Snapshot, files: seq<File>, f: File, s: Source) {
    && IsLeastFile(files, f) && !HasSource(snap, f.identity)
    && s.id == names.idOf(f.identity) && s.identity == f.identity && s.key == f.key && s.device == f.device
    && s.intake == NeedsReview && s.replacedBy == None && s.record.Some?
    && if exists record :: KeepsRecord(snap, files, f.identity, record)
       then KeepsRecord(snap, files, f.identity, s.record.value)
       else s.record.value == names.recordOf(f.identity)
  }

  lemma NewRecordMeans(names: Naming, snap: Snapshot, files: seq<File>, g: Identity, record: RecordId)
    requires ValidSnapshot(snap) && DistinctKeys(files) && Group(files, g) != []
    ensures NewSource(names, snap, Group(files, g), g).record == Some(record) <==>
            if exists r :: KeepsRecord(snap, files, g, r) then KeepsRecord(snap, files, g, record)
            else record == names.recordOf(g)
  {
    KeepsMeans(snap, files, g, record);
    var kept := KeptRecord(snap, Group(files, g));
    if kept.Some? {
      KeepsMeans(snap, files, g, kept.value);
    } else {
      forall r ensures !KeepsRecord(snap, files, g, r) {
        KeepsMeans(snap, files, g, r);
      }
    }
  }

  lemma NewSourceMeans(names: Naming, snap: Snapshot, files: seq<File>, f: File, s: Source)
    requires ValidSnapshot(snap) && DistinctKeys(files) && IsLeastFile(files, f) && !HasSource(snap, f.identity)
    ensures Group(files, f.identity) != []
    ensures DescribesNew(names, snap, files, f, s) <==>
            s == NewSource(names, snap, Group(files, f.identity), f.identity)
  {
    var g := f.identity;
    GroupMembers(files, g);
    GroupStartsWithLeast(files, g);
    LeastFileIsUnique(files, f, Group(files, g)[0]);
    if s.record.Some? {
      NewRecordMeans(names, snap, files, g, s.record.value);
    }
  }

  lemma CreatedIsDescribed(names: Naming, snap: Snapshot, files: seq<File>, g: Identity) returns (f: File)
    requires ValidSnapshot(snap) && DistinctKeys(files) && Group(files, g) != [] && Existing(snap, g).None?
    ensures f.identity == g && DescribesNew(names, snap, files, f, NewSource(names, snap, Group(files, g), g))
  {
    f := Group(files, g)[0];
    OwnerMeans(names, snap, g, "");
    GroupStartsWithLeast(files, g);
    NewSourceMeans(names, snap, files, f, NewSource(names, snap, Group(files, g), g));
  }

  lemma DescribedIsCreated(names: Naming, snap: Snapshot, files: seq<File>, f: File, s: Source)
    requires ValidSnapshot(snap) && DistinctKeys(files) && DescribesNew(names, snap, files, f, s)
    ensures f.identity in Identities(files) && Group(files, f.identity) != [] && Existing(snap, f.identity).None?
    ensures s == NewSource(names, snap, Group(files, f.identity), f.identity)
  {
    IdentitiesMembers(files);
    OwnerMeans(names, snap, f.identity, "");
    NewSourceMeans(names, snap, files, f, s);
  }

  lemma CreatedSourcesAre(names: Naming, snap: Snapshot, files: seq<File>, gs: seq<Identity>, s: Source)
    requires ValidSnapshot(snap) && DistinctKeys(files) && NonEmptyGroups(files, gs) && gs == Identities(files)
    ensures s in CreatedSources(names, snap, files, gs) <==> exists f :: DescribesNew(names, snap, files, f, s)
  {
    CreatedMembers(names, snap, files, gs);
    if s in CreatedSources(names, snap, files, gs) {
      var g :| g in gs && Existing(snap, g).None? && s == NewSource(names, snap, Group(files, g), g);
      var f := CreatedIsDescribed(names, snap, files, g);
    }
    if f :| DescribesNew(names, snap, files, f, s) {
      DescribedIsCreated(names, snap, files, f, s);
    }
  }

  lemma LastOfJoined<T>(a: seq<T>, b: seq<T>)
    requires b != []
    ensures (a + b)[..|a + b| - 1] == a + b[..|b| - 1] && (a + b)[|a + b| - 1] == b[|b| - 1]
  {
  }

  /** A scan sees the files of its roots in order, and lists a root as scanned or as unavailable. */
  lemma {:induction false} FilesAreJoined(a: seq<RootScan>, b: seq<RootScan>)
    ensures ScannedFiles(a + b) == ScannedFiles(a) + ScannedFiles(b)
  {
    if b == [] {
      assert a + b == a;
    } else {
      FilesAreJoined(a, b[..|b| - 1]);
      LastOfJoined(a, b);
    }
  }

  lemma {:induction false} RootsAreJoined(a: seq<RootScan>, b: seq<RootScan>)
    ensures ScannedRoots(a + b) == ScannedRoots(a) + ScannedRoots(b)
    ensures UnavailableRoots(a + b) == UnavailableRoots(a) + UnavailableRoots(b)
  {
    if b == [] {
      assert a + b == a;
    } else {
      RootsAreJoined(a, b[..|b| - 1]);
      LastOfJoined(a, b);
    }
  }

  lemma OneScan(scan: RootScan)
    ensures ScannedFiles([scan]) == if scan.files.None? then [] else scan.files.value
    ensures ScannedRoots([scan]) == if scan.files.None? then [] else [scan.root]
    ensures UnavailableRoots([scan]) == if scan.files.None? then [scan.root] else []
  {
    assert [scan][..0] == [];
  }

  /** A plan creates a source for each scanned identity that no source has, and this is what it is. */
  lemma NewSourcesAre(names: Naming, snap: Snapshot, scans: seq<RootScan>, s: Source)
    requires ValidSnapshot(snap) && DistinctKeys(ScannedFiles(scans))
    ensures s in PlanSpec(names, snap, scans).newSources <==>
            exists f :: DescribesNew(names, snap, ScannedFiles(scans), f, s)
  {
    var files, gs, made := NewSourcesPart(names, snap, scans);
    CreatedSourcesAre(names, snap, files, gs, s);
  }

  lemma NewSourcesPart(names: Naming, snap: Snapshot, scans: seq<RootScan>)
    returns (files: seq<File>, gs: seq<Identity>, made: seq<Source>)
    requires ValidSnapshot(snap)
    ensures files == ScannedFiles(scans) && gs == Identities(files) && NonEmptyGroups(files, gs)
    ensures made == CreatedSources(names, snap, files, gs) == PlanSpec(names, snap, scans).newSources
  {
    files, gs := ScannedFiles(scans), Identities(ScannedFiles(scans));
    GroupsAreNonEmpty(files);
    made := CreatedSources(names, snap, files, gs);
  }

  // ---------------------------------------------------------------- replacements

  ghost predicate IsCandidate(names: Naming, snap: Snapshot, files: seq<File>, f: File, r: Replacement) {
    && f in files && !HasSource(snap, f.identity) && r.successor == names.idOf(f.identity)
    && Retires(snap, files, f.identity, r.retired, r.record)
  }

  lemma RetirementIs(names: Naming, snap: Snapshot, files: seq<File>, g: Identity, r: Replacement)
    requires ValidSnapshot(snap) && DistinctKeys(files)
    ensures r in Retirement(names, snap, files, g) <==>
            !HasSource(snap, g) && r.successor == names.idOf(g) && Retires(snap, files, g, r.retired, r.record)
  {
    OwnerMeans(names, snap, g, "");
    RetiresMeans(snap, files, g, r.retired, r.record);
  }

  lemma CandidatesAre(names: Naming, snap: Snapshot, files: seq<File>, r: Replacement)
    requires ValidSnapshot(snap) && DistinctKeys(files)
    ensures r in Replacements(names, snap, files, Identities(files)) <==>
            exists f :: IsCandidate(names, snap, files, f, r)
  {
    ReplacementMembers(names, snap, files, Identities(files));
    IdentitiesMembers(files);
    if r in Replacements(names, snap, files, Identities(files)) {
      var g :| g in Identities(files) && r in Retirement(names, snap, files, g);
      var f :| f in files && f.identity == g;
      RetirementIs(names, snap, files, g, r);
      assert IsCandidate(names, snap, files, f, r);
    }
    if f :| IsCandidate(names, snap, files, f, r) {
      RetirementIs(names, snap, files, f.identity, r);
    }
  }
}
