/** What the lists of a plan contain, for every snapshot and every scan. */
module ReconciliationFacts {
  import opened Wrappers
  import opened Ordering
  import opened Reconciliation

  ghost predicate DistinctKeys(files: seq<File>) {
    NoDup(files) && forall a, b :: a in files && b in files && a.key == b.key ==> a == b
  }

  /** The row a scanned file asks for. */
  ghost predicate Inserts(names: Naming, snap: Snapshot, f: File, n: NewLocation)
    requires ValidSnapshot(snap)
  {
    var owner := Owner(names, snap, f.identity);
    NeedsRow(snap, f.key, owner) && n == NewLocation(owner, f.key)
  }

  /** The entry at a scanned file's path that belongs to another source. */
  ghost predicate Evicts(names: Naming, snap: Snapshot, f: File, l: nat)
    requires ValidSnapshot(snap)
  {
    var owner := Owner(names, snap, f.identity);
    NeedsRow(snap, f.key, owner) && Lookup(snap, f.key).Some? && l == Lookup(snap, f.key).value.id
  }

  lemma {:induction false} MissingRowsMembers(snap: Snapshot, group: seq<File>, owner: SourceId)
    requires ValidSnapshot(snap)
    ensures forall n :: n in MissingRows(snap, group, owner) <==>
              exists f :: f in group && NeedsRow(snap, f.key, owner) && n == NewLocation(owner, f.key)
    decreases |group|
  {
    if group != [] {
      MissingRowsMembers(snap, group[..|group| - 1], owner);
      assert group == group[..|group| - 1] + [group[|group| - 1]];
    }
  }

  lemma {:induction false} StaleRowsMembers(snap: Snapshot, group: seq<File>, owner: SourceId)
    requires ValidSnapshot(snap)
    ensures forall l :: l in StaleRows(snap, group, owner) <==>
              exists f :: f in group && NeedsRow(snap, f.key, owner)
                          && Lookup(snap, f.key).Some? && l == Lookup(snap, f.key).value.id
    decreases |group|
  {
    if group != [] {
      StaleRowsMembers(snap, group[..|group| - 1], owner);
      assert group == group[..|group| - 1] + [group[|group| - 1]];
    }
  }

  ghost predicate Inserted(names: Naming, snap: Snapshot, files: seq<File>, gs: seq<Identity>, n: NewLocation)
    requires ValidSnapshot(snap)
  {
    exists f :: f in files && f.identity in gs && Inserts(names, snap, f, n)
  }

  ghost predicate Evicted(names: Naming, snap: Snapshot, files: seq<File>, gs: seq<Identity>, l: nat)
    requires ValidSnapshot(snap)
  {
    exists f :: f in files && f.identity in gs && Evicts(names, snap, f, l)
  }

  lemma InsertedByOneMore(
    names: Naming, snap: Snapshot, files: seq<File>, before: seq<Identity>, g: Identity, n: NewLocation)
    requires ValidSnapshot(snap)
    ensures Inserted(names, snap, files, before + [g], n) <==>
            Inserted(names, snap, files, before, n) || n in MissingRows(snap, Group(files, g), Owner(names, snap, g))
  {
    GroupMembers(files, g);
    MissingRowsMembers(snap, Group(files, g), Owner(names, snap, g));
    if n in MissingRows(snap, Group(files, g), Owner(names, snap, g)) {
      var f :| f in Group(files, g) && NeedsRow(snap, f.key, Owner(names, snap, g))
               && n == NewLocation(Owner(names, snap, g), f.key);
      assert Inserts(names, snap, f, n);
    }
    if f :| f in files && f.identity in before + [g] && Inserts(names, snap, f, n) && f.identity !in before {
      assert f in Group(files, g);
    }
  }

  lemma EvictedByOneMore(names: Naming, snap: Snapshot, files: seq<File>, before: seq<Identity>, g: Identity, l: nat)
    requires ValidSnapshot(snap)
    ensures Evicted(names, snap, files, before + [g], l) <==>
            Evicted(names, snap, files, before, l) || l in StaleRows(snap, Group(files, g), Owner(names, snap, g))
  {
    GroupMembers(files, g);
    StaleRowsMembers(snap, Group(files, g), Owner(names, snap, g));
    if l in StaleRows(snap, Group(files, g), Owner(names, snap, g)) {
      var f :| f in Group(files, g) && NeedsRow(snap, f.key, Owner(names, snap, g))
               && Lookup(snap, f.key).Some? && l == Lookup(snap, f.key).value.id;
      assert Evicts(names, snap, f, l);
    }
    if f :| f in files && f.identity in before + [g] && Evicts(names, snap, f, l) && f.identity !in before {
      assert f in Group(files, g);
    }
  }

  lemma {:induction false} InsertedMembers(names: Naming, snap: Snapshot, files: seq<File>, gs: seq<Identity>)
    requires ValidSnapshot(snap)
    ensures forall n :: n in InsertedRows(names, snap, files, gs) <==> Inserted(names, snap, files, gs, n)
    decreases |gs|
  {
    if gs != [] {
      var before, g := gs[..|gs| - 1], gs[|gs| - 1];
      assert gs == before + [g];
      InsertedMembers(names, snap, files, before);
      forall n { InsertedByOneMore(names, snap, files, before, g, n); }
    }
  }

  lemma {:induction false} EvictedMembers(names: Naming, snap: Snapshot, files: seq<File>, gs: seq<Identity>)
    requires ValidSnapshot(snap)
    ensures forall l :: l in EvictedRows(names, snap, files, gs) <==> Evicted(names, snap, files, gs, l)
    decreases |gs|
  {
    if gs != [] {
      var before, g := gs[..|gs| - 1], gs[|gs| - 1];
      assert gs == before + [g];
      EvictedMembers(names, snap, files, before);
      forall l { EvictedByOneMore(names, snap, files, before, g, l); }
    }
  }

  lemma {:induction false} CreatedMembers(names: Naming, snap: Snapshot, files: seq<File>, gs: seq<Identity>)
    requires ValidSnapshot(snap) && NonEmptyGroups(files, gs)
    ensures forall s :: s in CreatedSources(names, snap, files, gs) <==>
              exists g :: g in gs && Existing(snap, g).None? && s == NewSource(names, snap, Group(files, g), g)
    decreases |gs|
  {
    if gs != [] {
      CreatedMembers(names, snap, files, gs[..|gs| - 1]);
      assert gs == gs[..|gs| - 1] + [gs[|gs| - 1]];
    }
  }

  lemma {:induction false} UpdatedMembers(names: Naming, snap: Snapshot, files: seq<File>, gs: seq<Identity>)
    requires ValidSnapshot(snap) && NonEmptyGroups(files, gs)
    ensures |UpdatedSources(names, snap, files, gs)| == |gs|
    ensures forall i :: 0 <= i < |gs| ==>
              UpdatedSources(names, snap, files, gs)[i] ==
              Update(Owner(names, snap, gs[i]), Group(files, gs[i])[0].key, Group(files, gs[i])[0].device)
    decreases |gs|
  {
    if gs != [] {
      var before := gs[..|gs| - 1];
      UpdatedMembers(names, snap, files, before);
      var updates := UpdatedSources(names, snap, files, before);
      forall i | 0 <= i < |gs|
        ensures UpdatedSources(names, snap, files, gs)[i] ==
                Update(Owner(names, snap, gs[i]), Group(files, gs[i])[0].key, Group(files, gs[i])[0].device)
      {
        if i < |before| {
          assert gs[i] == before[i] && UpdatedSources(names, snap, files, gs)[i] == updates[i];
        }
      }
    }
  }

  lemma {:induction false} ReplacementMembers(names: Naming, snap: Snapshot, files: seq<File>, gs: seq<Identity>)
    requires ValidSnapshot(snap)
    ensures forall r :: r in Replacements(names, snap, files, gs) <==>
              exists g :: g in gs && r in Retirement(names, snap, files, g)
    decreases |gs|
  {
    if gs != [] {
      ReplacementMembers(names, snap, files, gs[..|gs| - 1]);
      assert gs == gs[..|gs| - 1] + [gs[|gs| - 1]];
    }
  }

  lemma {:induction false} ReappearedMembers(snap: Snapshot, gs: seq<Identity>)
    requires ValidSnapshot(snap)
    ensures forall r :: r in Reappeared(snap, gs) <==>
              exists g :: g in gs && Existing(snap, g).Some? && IsReturn(snap, Existing(snap, g).value)
                          && r == Reappearance(Existing(snap, g).value,
                             snap.sources[Existing(snap, g).value].record.value)
    decreases |gs|
  {
    if gs != [] {
      ReappearedMembers(snap, gs[..|gs| - 1]);
      assert gs == gs[..|gs| - 1] + [gs[|gs| - 1]];
    }
  }

  lemma {:induction false} LostMembers(order: seq<SourceId>, kept: set<SourceId>)
    ensures forall id :: id in Lost(order, kept) <==> id in order && id !in kept
    decreases |order|
  {
    if order != [] {
      LostMembers(order[..|order| - 1], kept);
      assert order == order[..|order| - 1] + [order[|order| - 1]];
    }
  }

  lemma {:induction false} PairsMembers(replacements: seq<Replacement>, live: set<SourceId>)
    ensures forall r :: r in Pairs(replacements, live) <==> r in replacements && r.retired !in live
    decreases |replacements|
  {
    if replacements != [] {
      PairsMembers(replacements[..|replacements| - 1], live);
      assert replacements == replacements[..|replacements| - 1] + [replacements[|replacements| - 1]];
    }
  }

  /** Every identity group counts at most once. */
  lemma {:induction false} ChangesFitInGroups(snap: Snapshot, files: seq<File>, gs: seq<Identity>)
    requires ValidSnapshot(snap)
    ensures AddedCount(snap, files, gs) + ChangedCount(snap, files, gs) + MovedCount(snap, files, gs) <= |gs|
    decreases |gs|
  {
    if gs != [] {
      ChangesFitInGroups(snap, files, gs[..|gs| - 1]);
    }
  }

  lemma {:induction false} NoMoreGroupsThanFiles(files: seq<File>)
    ensures |Identities(files)| <= |files|
    decreases |files|
  {
    if files != [] {
      NoMoreGroupsThanFiles(files[..|files| - 1]);
    }
  }

  /** So the count of unchanged files is never negative. */
  lemma UnchangedIsACount(names: Naming, snap: Snapshot, scans: seq<RootScan>)
    requires ValidSnapshot(snap)
    ensures 0 <= PlanSpec(names, snap, scans).result.unchangedFiles <= |ScannedFiles(scans)|
  {
    var files := ScannedFiles(scans);
    ChangesFitInGroups(snap, files, Identities(files));
    NoMoreGroupsThanFiles(files);
  }

  // ---------------------------------------------------------------- no key is inserted twice

  ghost predicate DistinctRows(rows: seq<NewLocation>) {
    forall i, k :: 0 <= i < k < |rows| ==> rows[i].key != rows[k].key
  }

  lemma {:induction false} WithIdentityNoDup(files: seq<File>, identity: Identity)
    requires NoDup(files)
    ensures NoDup(WithIdentity(files, identity))
    decreases |files|
  {
    if files != [] {
      var before, last := files[..|files| - 1], files[|files| - 1];
      assert forall i, k :: 0 <= i < k < |before| ==> files[i] != files[k];
      WithIdentityNoDup(before, identity);
      WithIdentityMembers(before, identity);
      assert last !in before;
    }
  }

  lemma {:induction false} MissingRowsDistinct(snap: Snapshot, group: seq<File>, owner: SourceId)
    requires ValidSnapshot(snap) && DistinctKeys(group)
    ensures DistinctRows(MissingRows(snap, group, owner))
    decreases |group|
  {
    if group != [] {
      var before, last := group[..|group| - 1], group[|group| - 1];
      assert group == before + [last];
      assert DistinctKeys(before) by {
        assert forall i, k :: 0 <= i < k < |before| ==> group[i] != group[k];
      }
      MissingRowsDistinct(snap, before, owner);
      MissingRowsMembers(snap, before, owner);
      forall n | n in MissingRows(snap, before, owner) ensures n.key != last.key {
        var f :| f in before && NeedsRow(snap, f.key, owner) && n == NewLocation(owner, f.key);
        var i :| 0 <= i < |before| && before[i] == f;
        assert group[i] != last;
      }
    }
  }

  lemma {:induction false} InsertedDistinct(names: Naming, snap: Snapshot, files: seq<File>, gs: seq<Identity>)
    requires ValidSnapshot(snap) && DistinctKeys(files) && NoDup(gs)
    ensures DistinctRows(InsertedRows(names, snap, files, gs))
    decreases |gs|
  {
    if gs != [] {
      var before, g := gs[..|gs| - 1], gs[|gs| - 1];
      assert gs == before + [g];
      assert forall i, k :: 0 <= i < k < |before| ==> gs[i] != gs[k];
      InsertedDistinct(names, snap, files, before);
      InsertedMembers(names, snap, files, before);
      GroupMembers(files, g);
      WithIdentityNoDup(files, g);
      SortNoDup(FileKey, WithIdentity(files, g));
      MissingRowsDistinct(snap, Group(files, g), Owner(names, snap, g));
      MissingRowsMembers(snap, Group(files, g), Owner(names, snap, g));
      forall a, b | a in InsertedRows(names, snap, files, before)
                    && b in MissingRows(snap, Group(files, g), Owner(names, snap, g))
        ensures a.key != b.key
      {
        var f :| f in files && f.identity in before && Inserts(names, snap, f, a);
        assert f !in Group(files, g);
      }
    }
  }
}
