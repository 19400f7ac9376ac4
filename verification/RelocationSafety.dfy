/** What every run of the relocation protocol keeps, when it ends, and where it ends. */
module RelocationSafety {
  import opened Wrappers
  import opened StorageRelocation

  // ---------------------------------------------------------------- starting point

  ghost predicate WellFormed(m: Manifest) {
    && !Overlaps(m.source, m.destination)
    && (forall i :: 0 <= i < |m.files| ==> m.DestinationOf(i) != m.Temporary())
    && (forall i, k :: 0 <= i < k < |m.files| ==> m.files[i].relative != m.files[k].relative)
    && (forall i :: 0 <= i < |m.files| && m.files[i].managed ==> !IsNfo(m.SourceOf(i)))
  }

  ghost predicate IsSource(m: Manifest, p: Path) {
    exists i :: 0 <= i < |m.files| && m.SourceOf(i) == p
  }

  ghost predicate IsManagedSource(m: Manifest, p: Path) {
    exists i :: 0 <= i < |m.files| && m.files[i].managed && m.SourceOf(i) == p
  }

  ghost predicate IsDestination(m: Manifest, p: Path) {
    exists i :: 0 <= i < |m.files| && m.DestinationOf(i) == p
  }

  predicate Resolves(h: Hash, w: World, id: string) {
    id in w.publications && HasHash(h, w.files, w.publications[id].path, w.publications[id].contentSha256)
  }

  /** A current publication under the old root, the rows whose content a move must keep reachable. */
  predicate IsOwnedCurrent(w: World, m: Manifest, id: string) {
    id in w.publications && w.publications[id].current && Under(w.publications[id].path, m.source)
  }

  /** The old tree is what the manifest says, and the new root holds nothing. */
  ghost predicate Recorded(h: Hash, files: Tree, m: Manifest) {
    && (forall i :: 0 <= i < |m.files| ==> HasHash(h, files, m.SourceOf(i), m.files[i].sha256))
    && (forall p :: p in files && Under(p, m.source) ==> IsSource(m, p))
    && (forall p :: p in files ==> !Under(p, m.destination))
  }

  /** A move has just been accepted: the journal is fresh and current publications match their rows. */
  ghost predicate Started(h: Hash, w: World) {
    && w.config.state.Migrating?
    && w.config.migration.Some?
    && var j := w.config.migration.value;
       && j.phase.Copying? && j.cursor == 0 && j.failureReason.None?
       && w.config.outputRoot == j.manifest.source
       && WellFormed(j.manifest)
       && Recorded(h, w.files, j.manifest)
       && (forall id :: IsOwnedCurrent(w, j.manifest, id) ==> Resolves(h, w, id))
  }

  // ---------------------------------------------------------------- which files are managed

  /** A path lies under a root when it continues it; moved along, it continues the other root in the same way. */
  lemma PathsContinue(path: Path, root: Path, other: Path)
    ensures Under(path, root) <==> exists rest: Path :: path == root + rest
    ensures forall rest: Path :: path == root + rest ==> Rebase(path, root, other) == other + rest
    ensures (forall rest: Path :: path != root + rest) ==> Rebase(path, root, other) == path
  {
    if Under(path, root) {
      assert path == root + path[|root|..];
    }
    forall rest: Path | path == root + rest ensures Rebase(path, root, other) == other + rest {
      assert path[..|root|] == root && path[|root|..] == rest;
    }
  }

  /** Some publication row, or some artwork row with a path, names this file. */
  ghost predicate NamedByRow(w: World, p: Path) {
    || (exists id :: id in w.publications && w.publications[id].path == p)
    || (exists id :: id in w.artwork && w.artwork[id] == Some(p))
  }

  /** The file name has something before a last dot and the letters n, f, o, in either case, after it. */
  ghost predicate HasNfoName(p: Path) {
    && p != []
    && var name := p[|p| - 1];
       && |name| > 4 && name[|name| - 4] == '.'
       && name[|name| - 3] in {'n', 'N'} && name[|name| - 2] in {'f', 'F'} && name[|name| - 1] in {'o', 'O'}
  }

  lemma NfoNames(p: Path)
    ensures IsNfo(p) <==> HasNfoName(p)
  {
    if p != [] {
      var name := p[|p| - 1];
      var dot := LastDot(name);
      LowerIs('n', 'N', name);
      LowerIs('f', 'F', name);
      LowerIs('o', 'O', name);
      if HasNfoName(p) {
        assert dot == |name| - 4;
      }
    }
  }

  lemma LowerIs(small: char, capital: char, name: string)
    requires 'a' <= small <= 'z' && small as int == capital as int + 32
    ensures forall c :: c in name ==> (Lower(c) == small <==> c == small || c == capital)
  {
  }

  /** A move marks the files that rows name, except those with the reserved suffix. */
  ghost predicate MarkedByRows(w: World)
    requires w.config.migration.Some?
  {
    var m := w.config.migration.value.manifest;
    forall i :: 0 <= i < |m.files| ==>
      (m.files[i].managed <==> NamedByRow(w, m.SourceOf(i)) && !HasNfoName(m.SourceOf(i)))
  }

  // ---------------------------------------------------------------- invariant

  predicate SameAt(a: Tree, b: Tree, p: Path) {
    (p in a <==> p in b) && (p in a ==> a[p] == b[p])
  }

  predicate Copied(h: Hash, files: Tree, m: Manifest, i: int) {
    0 <= i < |m.files| ==> HasHash(h, files, m.DestinationOf(i), m.files[i].sha256)
  }

  ghost predicate CopyingTree(h: Hash, m: Manifest, origin: Tree, files: Tree, cursor: nat) {
    && (forall p :: !IsDestination(m, p) && p != m.Temporary() ==> SameAt(origin, files, p))
    && (forall i :: 0 <= i < cursor ==> Copied(h, files, m, i))
    && (forall i :: cursor <= i < |m.files| && m.DestinationOf(i) in files ==> i == cursor && Copied(h, files, m, i))
    && (m.Temporary() in files ==> cursor < |m.files| && m.DestinationOf(cursor) !in files)
  }

  ghost predicate CleanupTree(h: Hash, m: Manifest, origin: Tree, files: Tree, cursor: nat) {
    && (forall p :: !IsDestination(m, p) && !IsManagedSource(m, p) && p != m.Temporary() ==> SameAt(origin, files, p))
    && (forall i :: 0 <= i < |m.files| ==> Copied(h, files, m, i))
    && m.Temporary() !in files
    && (forall i :: 0 <= i < cursor && i < |m.files| && m.files[i].managed ==> m.SourceOf(i) !in files)
    && (forall i :: cursor <= i < |m.files| && (i == cursor ==> m.SourceOf(i) in files)
          ==> SameAt(origin, files, m.SourceOf(i)))
  }

  ghost predicate Inv(h: Hash, w0: World, w: World) {
    && Started(h, w0)
    && w.config.migration.Some?
    && var m, j := w0.config.migration.value.manifest, w.config.migration.value;
       && j.manifest == m && j.cursor <= |m.files|
       && w.config.state == (if j.phase.Complete? then Ready else Migrating)
       && (j.phase.Complete? ==> j.cursor == |m.files| && j.failureReason.None?)
       && (if j.phase.Copying? then
             && w.config.outputRoot == m.source && w.config.generation == w0.config.generation
             && w.publications == w0.publications && w.artwork == w0.artwork
             && CopyingTree(h, m, w0.files, w.files, j.cursor)
           else
             && w.config.outputRoot == m.destination && w.config.generation == w0.config.generation + 1
             && w.publications == RebasedPublications(w0.publications, m)
             && w.artwork == RebasedArtwork(w0.artwork, m)
             && CleanupTree(h, m, w0.files, w.files, j.cursor))
  }

  // ---------------------------------------------------------------- paths stay apart

  lemma CommonDescendantOverlaps(a: Path, b: Path, p: Path)
    requires Under(p, a) && Under(p, b)
    ensures Overlaps(a, b)
  {
    if |a| <= |b| {
      assert a == p[..|a|] == b[..|a|];
    } else {
      assert b == p[..|b|] == a[..|b|];
    }
  }

  lemma PathsApart(m: Manifest, i: nat)
    requires WellFormed(m) && i < |m.files|
    ensures !IsDestination(m, m.SourceOf(i)) && m.SourceOf(i) != m.Temporary()
    ensures !IsManagedSource(m, m.DestinationOf(i)) && m.DestinationOf(i) != m.Temporary()
    ensures forall k :: 0 <= k < |m.files| && k != i ==>
              m.SourceOf(k) != m.SourceOf(i) && m.DestinationOf(k) != m.DestinationOf(i)
    ensures forall k :: 0 <= k < |m.files| ==> m.DestinationOf(k) != m.SourceOf(i)
  {
    assert Under(m.SourceOf(i), m.source) && Under(m.Temporary(), m.destination);
    if m.SourceOf(i) == m.Temporary() {
      CommonDescendantOverlaps(m.source, m.destination, m.Temporary());
    }
    forall k | 0 <= k < |m.files|
      ensures m.SourceOf(k) != m.DestinationOf(i) && m.DestinationOf(k) != m.SourceOf(i)
      ensures k != i ==> m.SourceOf(k) != m.SourceOf(i) && m.DestinationOf(k) != m.DestinationOf(i)
    {
      assert Under(m.SourceOf(k), m.source) && Under(m.DestinationOf(i), m.destination);
      assert Under(m.DestinationOf(k), m.destination);
      if m.SourceOf(k) == m.DestinationOf(i) {
        CommonDescendantOverlaps(m.source, m.destination, m.SourceOf(k));
      }
      if m.DestinationOf(k) == m.SourceOf(i) {
        CommonDescendantOverlaps(m.source, m.destination, m.SourceOf(i));
      }
      assert m.files[k].relative == m.SourceOf(k)[|m.source|..] == m.DestinationOf(k)[|m.destination|..];
      assert m.files[i].relative == m.SourceOf(i)[|m.source|..] == m.DestinationOf(i)[|m.destination|..];
    }
  }

  lemma StartedInv(h: Hash, w: World)
    requires Started(h, w)
    ensures Inv(h, w, w)
  {
    var m := w.config.migration.value.manifest;
    forall i | 0 <= i < |m.files| ensures m.DestinationOf(i) !in w.files {
      assert Under(m.DestinationOf(i), m.destination);
    }
    assert Under(m.Temporary(), m.destination);
  }

  // ---------------------------------------------------------------- every step

  /** What one copy attempt can do to the tree, however it ends. */
  lemma CopyEffectShape(h: Hash, files: Tree, m: Manifest, item: Item, fault: Fault)
    ensures var effect, target := CopyEffect(h, files, m, item, fault), m.destination + item.relative;
            && (forall p :: p != target && p != m.Temporary() ==> SameAt(files, effect.files, p))
            && (effect.files == files
                || (target !in files && effect.files.Keys == files.Keys + {m.Temporary()})
                || (target !in files && m.Temporary() !in effect.files - {target}
                   && HasHash(h, effect.files, target, item.sha256)))
            && (effect.result.Done? && effect.files == files ==> HasHash(h, files, target, item.sha256))
            && (effect.result.Done? && effect.files != files ==> HasHash(h, effect.files, target, item.sha256))
  {
  }

  lemma CopyKeepsTree(h: Hash, m: Manifest, origin: Tree, files: Tree, cursor: nat, fault: Fault)
    requires WellFormed(m) && Recorded(h, origin, m) && cursor < |m.files|
    requires CopyingTree(h, m, origin, files, cursor)
    ensures var effect := CopyEffect(h, files, m, m.files[cursor], fault);
            && CopyingTree(h, m, origin, effect.files, cursor)
            && (effect.result.Done? ==> CopyingTree(h, m, origin, effect.files, cursor + 1))
            && (fault.NoFault? ==> effect.result.Done?)
  {
    var effect := CopyEffect(h, files, m, m.files[cursor], fault);
    PathsApart(m, cursor);
    CopyEffectShape(h, files, m, m.files[cursor], fault);
    assert IsDestination(m, m.DestinationOf(cursor));
    assert SameAt(origin, files, m.SourceOf(cursor));
    forall i | 0 <= i < |m.files| && i != cursor
      ensures SameAt(files, effect.files, m.DestinationOf(i))
      ensures Copied(h, files, m, i) ==> Copied(h, effect.files, m, i)
    {
    }
  }

  lemma RemoveEffectShape(h: Hash, files: Tree, m: Manifest, item: Item, fault: Fault)
    ensures var effect, source := RemoveEffect(h, files, m, item, fault), m.source + item.relative;
            && (forall p :: p != source ==> SameAt(files, effect.files, p))
            && (effect.files == files || (item.managed && effect.files == files - {source}))
            && (effect.result.Done? && item.managed ==> source !in effect.files)
  {
  }

  lemma RemoveKeepsFile(h: Hash, m: Manifest, files: Tree, cursor: nat, fault: Fault, i: nat)
    requires WellFormed(m) && cursor < |m.files| && i < |m.files| && Copied(h, files, m, i)
    ensures var effect := RemoveEffect(h, files, m, m.files[cursor], fault);
            && Copied(h, effect.files, m, i)
            && (i != cursor ==> SameAt(files, effect.files, m.SourceOf(i)))
  {
    PathsApart(m, cursor);
    RemoveEffectShape(h, files, m, m.files[cursor], fault);
    assert m.DestinationOf(i) != m.SourceOf(cursor);
  }

  /** A cleanup tree that loses nothing, or one managed old file, is still one. */
  lemma CleanupGoesOn(h: Hash, m: Manifest, origin: Tree, files: Tree, cursor: nat, after: Tree)
    requires WellFormed(m) && cursor < |m.files| && CleanupTree(h, m, origin, files, cursor)
    requires after == files || (m.files[cursor].managed && after == files - {m.SourceOf(cursor)})
    requires forall i :: 0 <= i < |m.files| ==> Copied(h, after, m, i)
    requires forall i :: 0 <= i < |m.files| && i != cursor ==> SameAt(files, after, m.SourceOf(i))
    ensures CleanupTree(h, m, origin, after, cursor)
    ensures (m.files[cursor].managed ==> m.SourceOf(cursor) !in after) ==> CleanupTree(h, m, origin, after, cursor + 1)
  {
    assert m.files[cursor].managed ==> IsManagedSource(m, m.SourceOf(cursor));
  }

  lemma RemoveKeepsTree(h: Hash, m: Manifest, origin: Tree, files: Tree, cursor: nat, fault: Fault)
    requires WellFormed(m) && Recorded(h, origin, m) && cursor < |m.files|
    requires CleanupTree(h, m, origin, files, cursor)
    ensures var effect := RemoveEffect(h, files, m, m.files[cursor], fault);
            && CleanupTree(h, m, origin, effect.files, cursor)
            && (effect.result.Done? ==> CleanupTree(h, m, origin, effect.files, cursor + 1))
            && (!fault.Raise? && !fault.Crash? ==> effect.result.Done?)
  {
    var effect := RemoveEffect(h, files, m, m.files[cursor], fault);
    forall i | 0 <= i < |m.files|
      ensures Copied(h, effect.files, m, i)
      ensures i != cursor ==> SameAt(files, effect.files, m.SourceOf(i))
    {
      RemoveKeepsFile(h, m, files, cursor, fault, i);
    }
    RemoveEffectShape(h, files, m, m.files[cursor], fault);
    CleanupGoesOn(h, m, origin, files, cursor, effect.files);
    if !fault.Raise? && !fault.Crash? {
      RemoveSucceeds(h, m, origin, files, cursor, fault);
    }
  }

  lemma RemoveSucceeds(h: Hash, m: Manifest, origin: Tree, files: Tree, cursor: nat, fault: Fault)
    requires WellFormed(m) && Recorded(h, origin, m) && cursor < |m.files|
    requires CleanupTree(h, m, origin, files, cursor) && !fault.Raise? && !fault.Crash?
    ensures RemoveEffect(h, files, m, m.files[cursor], fault).result.Done?
  {
    assert Copied(h, files, m, cursor);
  }

  lemma SwitchTree(h: Hash, m: Manifest, origin: Tree, files: Tree)
    requires WellFormed(m) && CopyingTree(h, m, origin, files, |m.files|)
    ensures AllCopied(h, files, m) && CleanupTree(h, m, origin, files, 0)
  {
    forall i | 0 <= i < |m.files|
      ensures HasHash(h, files, m.DestinationOf(i), m.files[i].sha256) && SameAt(origin, files, m.SourceOf(i))
    {
      assert Copied(h, files, m, i);
      PathsApart(m, i);
    }
  }

  lemma CopyStep(h: Hash, w0: World, w: World, fault: Fault)
    requires Inv(h, w0, w) && w.config.migration.value.phase.Copying?
    requires w.config.migration.value.cursor < |w.config.migration.value.manifest.files|
    ensures Inv(h, w0, Resume(h, w, fault).0)
    ensures fault.NoFault? ==> Resume(h, w, fault).1.Committed?
  {
    var j := w.config.migration.value;
    CopyKeepsTree(h, j.manifest, w0.files, w.files, j.cursor, fault);
  }

  lemma SwitchStep(h: Hash, w0: World, w: World, fault: Fault)
    requires Inv(h, w0, w) && w.config.migration.value.phase.Copying?
    requires w.config.migration.value.cursor == |w.config.migration.value.manifest.files|
    ensures Inv(h, w0, Resume(h, w, fault).0)
    ensures fault.NoFault? ==> Resume(h, w, fault).1.Committed?
  {
    SwitchTree(h, w.config.migration.value.manifest, w0.files, w.files);
  }

  lemma RemoveStep(h: Hash, w0: World, w: World, fault: Fault)
    requires Inv(h, w0, w) && w.config.migration.value.phase.Cleanup?
    requires w.config.migration.value.cursor < |w.config.migration.value.manifest.files|
    ensures Inv(h, w0, Resume(h, w, fault).0)
    ensures fault.NoFault? ==> Resume(h, w, fault).1.Committed?
  {
    var j := w.config.migration.value;
    RemoveKeepsTree(h, j.manifest, w0.files, w.files, j.cursor, fault);
  }

  lemma FinishStep(h: Hash, w0: World, w: World, fault: Fault)
    requires Inv(h, w0, w) && w.config.migration.value.phase.Cleanup?
    requires w.config.migration.value.cursor == |w.config.migration.value.manifest.files|
    ensures Inv(h, w0, Resume(h, w, fault).0)
    ensures fault.NoFault? ==> Resume(h, w, fault).1.Committed?
  {
  }

  /** Every step keeps the invariant, whatever interrupts it, and only an interruption can stop one. */
  lemma StepKeepsInv(h: Hash, w0: World, w: World, fault: Fault)
    requires Inv(h, w0, w)
    ensures Inv(h, w0, Resume(h, w, fault).0)
    ensures fault.NoFault? && w.config.state.Migrating? ==> Resume(h, w, fault).1.Committed?
  {
    var j := w.config.migration.value;
    match j.phase
    case Copying => if j.cursor < |j.manifest.files| { CopyStep(h, w0, w, fault); }
      else { SwitchStep(h, w0, w, fault); }
    case Cleanup => if j.cursor < |j.manifest.files| { RemoveStep(h, w0, w, fault); }
      else { FinishStep(h, w0, w, fault); }
    case Complete =>
  }

  // ---------------------------------------------------------------- every run

  lemma {:induction false} RunKeepsInv(h: Hash, w0: World, faults: seq<Fault>)
    requires Started(h, w0)
    ensures Inv(h, w0, Run(h, w0, faults))
    decreases |faults|
  {
    if faults == [] {
      StartedInv(h, w0);
    } else {
      var before := faults[..|faults| - 1];
      RunKeepsInv(h, w0, before);
      StepKeepsInv(h, w0, Run(h, w0, before), faults[|faults| - 1]);
    }
  }

  /** At any crash point every manifest file has a verified copy under the root the configuration names. */
  lemma ManifestStaysReachable(h: Hash, w0: World, faults: seq<Fault>, i: nat)
    requires Started(h, w0) && i < |w0.config.migration.value.manifest.files|
    ensures var w, item := Run(h, w0, faults), w0.config.migration.value.manifest.files[i];
            HasHash(h, w.files, w.config.outputRoot + item.relative, item.sha256)
  {
    RunKeepsInv(h, w0, faults);
    var w := Run(h, w0, faults);
    var m := w0.config.migration.value.manifest;
    PathsApart(m, i);
    if w.config.migration.value.phase.Copying? {
      assert SameAt(w0.files, w.files, m.SourceOf(i));
    } else {
      assert Copied(h, w.files, m, i);
    }
  }

  /** A current publication the move owns resolves to its recorded content in every state of every run. */
  lemma PublicationsStayReachable(h: Hash, w0: World, faults: seq<Fault>, id: string)
    requires Started(h, w0) && IsOwnedCurrent(w0, w0.config.migration.value.manifest, id)
    ensures Resolves(h, Run(h, w0, faults), id)
    ensures Run(h, w0, faults).publications[id].contentSha256 == w0.publications[id].contentSha256
    ensures Under(Run(h, w0, faults).publications[id].path, Run(h, w0, faults).config.outputRoot)
  {
    var w, m, path := Run(h, w0, faults), w0.config.migration.value.manifest, w0.publications[id].path;
    assert Resolves(h, w0, id);
    assert IsSource(m, path);
    var i :| 0 <= i < |m.files| && m.SourceOf(i) == path;
    ManifestStaysReachable(h, w0, faults, i);
    RunKeepsInv(h, w0, faults);
    assert path[|m.source|..] == m.files[i].relative;
    if w.config.migration.value.phase.Copying? {
      PathsApart(m, i);
      assert SameAt(w0.files, w.files, m.SourceOf(i));
    } else {
      assert w.publications[id].path == m.DestinationOf(i);
    }
  }

  /** An artwork file the move owns keeps being found, with the content it had, where its row says. */
  lemma ArtworkStaysReachable(h: Hash, w0: World, faults: seq<Fault>, id: string, path: Path)
    requires Started(h, w0) && id in w0.artwork && w0.artwork[id] == Some(path)
    requires Under(path, w0.config.outputRoot) && path in w0.files
    ensures var w := Run(h, w0, faults);
            && id in w.artwork && w.artwork[id].Some? && Under(w.artwork[id].value, w.config.outputRoot)
            && w.artwork[id].value in w.files && h(w.files[w.artwork[id].value]) == h(w0.files[path])
  {
    var w, m := Run(h, w0, faults), w0.config.migration.value.manifest;
    assert IsSource(m, path);
    var i :| 0 <= i < |m.files| && m.SourceOf(i) == path;
    assert HasHash(h, w0.files, m.SourceOf(i), m.files[i].sha256);
    ManifestStaysReachable(h, w0, faults, i);
    RunKeepsInv(h, w0, faults);
    assert path[|m.source|..] == m.files[i].relative;
    if w.config.migration.value.phase.Copying? {
      assert w.artwork[id].value == m.SourceOf(i);
    } else {
      assert w.artwork[id].value == m.DestinationOf(i);
    }
  }

  /** Rows elsewhere stand in every state of every run, and of the others nothing but the path can change. */
  lemma OtherRowsStand(h: Hash, w0: World, faults: seq<Fault>)
    requires Started(h, w0)
    ensures var w := Run(h, w0, faults);
            && w.publications.Keys == w0.publications.Keys && w.artwork.Keys == w0.artwork.Keys
            && (forall id :: id in w0.publications ==>
                  && w.publications[id] == w0.publications[id].(path := w.publications[id].path)
                  && (!Under(w0.publications[id].path, w0.config.outputRoot) ==>
                        w.publications[id] == w0.publications[id]))
            && (forall id ::
                  (id in w0.artwork && (w0.artwork[id] == None
                                        || !Under(w0.artwork[id].value, w0.config.outputRoot)))
                  ==> w.artwork[id] == w0.artwork[id])
  {
    RunKeepsInv(h, w0, faults);
  }

  /** Files with the reserved suffix, and every file the library does not manage, are never touched. */
  lemma UnmanagedFilesSurvive(h: Hash, w0: World, faults: seq<Fault>, p: Path)
    requires Started(h, w0) && p in w0.files
    requires IsNfo(p) || !IsManagedSource(w0.config.migration.value.manifest, p)
    ensures p in Run(h, w0, faults).files && Run(h, w0, faults).files[p] == w0.files[p]
  {
    RunKeepsInv(h, w0, faults);
    var m := w0.config.migration.value.manifest;
    forall i | 0 <= i < |m.files| ensures Under(m.DestinationOf(i), m.destination) {
    }
    assert Under(m.Temporary(), m.destination);
    assert SameAt(w0.files, Run(h, w0, faults).files, p);
  }

  /** A step that does not commit leaves the root, the generation, the rows, the phase and the cursor alone. */
  lemma UncommittedStepKeepsRows(h: Hash, w: World, fault: Fault)
    requires !Resume(h, w, fault).1.Committed?
    ensures var w' := Resume(h, w, fault).0;
            && w'.publications == w.publications && w'.artwork == w.artwork
            && w'.config == w.config.(migration := w'.config.migration)
            && w'.config.migration.Some? == w.config.migration.Some?
            && (w.config.migration.Some? ==>
                  w'.config.migration.value ==
                  w.config.migration.value.(failureReason := w'.config.migration.value.failureReason))
  {
  }

  /** How a step reports: a failure is recorded in the journal, a commit clears it, and a crash loses all but files. */
  lemma StepReports(h: Hash, w: World, fault: Fault)
    ensures var (w', outcome) := Resume(h, w, fault);
            && (outcome == Idle <==> w.config.state == Ready) && (outcome == Idle ==> w' == w)
            && (outcome == Lost ==> w' == w.(files := w'.files))
            && (outcome.Raised? && w.config.migration.Some? ==>
                  w' == w.(files := w'.files, config := w.config.(migration :=
                    Some(w.config.migration.value.(failureReason := Some(outcome.reason))))))
            && (outcome.Raised? && w.config.migration.None? ==> w' == w)
            && (outcome == Committed ==>
                  w.config.migration.Some? && w'.config.migration.Some?
                  && w'.config.migration.value.failureReason == None
                  && w'.config.migration.value.manifest == w.config.migration.value.manifest)
  {
  }

  /** What a committed step advances: the cursor, or at its end the phase. */
  lemma CommittedStepAdvances(h: Hash, w: World, fault: Fault)
    requires Resume(h, w, fault).1 == Committed && w.config.migration.Some?
    ensures var w', j := Resume(h, w, fault).0, w.config.migration.value;
            w'.config.migration.Some? &&
            var next := w'.config.migration.value;
            if j.cursor < |j.manifest.files| then
              next.phase == j.phase && next.cursor == j.cursor + 1 && w'.config.state == w.config.state
            else if j.phase == Copying then
              && next.phase == Cleanup && next.cursor == 0 && w'.config.state == w.config.state
              && w'.config.outputRoot == j.manifest.destination && w'.config.generation == w.config.generation + 1
            else next.phase == Complete && next.cursor == j.cursor && w'.config.state == Ready
  {
  }

  // ---------------------------------------------------------------- progress

  function StepsLeft(w: World): int {
    if w.config.state.Ready? || w.config.migration.None? then 0
    else
      var j := w.config.migration.value;
      var n := |j.manifest.files|;
      if j.phase.Copying? then (n - j.cursor) + 1 + n + 1 else (n - j.cursor) + 1
  }

  /** With n files a run is finished exactly when 2n+2 of its steps have committed. */
  lemma {:induction false} CommittedStepsCount(h: Hash, w0: World, faults: seq<Fault>)
    requires Started(h, w0)
    ensures CommittedSteps(h, w0, faults) + StepsLeft(Run(h, w0, faults))
            == 2 * |w0.config.migration.value.manifest.files| + 2
    ensures StepsLeft(Run(h, w0, faults)) >= 0
    ensures Run(h, w0, faults).config.state.Ready? <==>
            CommittedSteps(h, w0, faults) == 2 * |w0.config.migration.value.manifest.files| + 2
    decreases |faults|
  {
    RunKeepsInv(h, w0, faults);
    if faults != [] {
      var before, fault := faults[..|faults| - 1], faults[|faults| - 1];
      CommittedStepsCount(h, w0, before);
      RunKeepsInv(h, w0, before);
      OneStepCounts(h, w0, Run(h, w0, before), fault);
    }
  }

  lemma OneStepCounts(h: Hash, w0: World, w: World, fault: Fault)
    requires Inv(h, w0, w)
    ensures StepsLeft(Resume(h, w, fault).0) == StepsLeft(w) - if Resume(h, w, fault).1.Committed? then 1 else 0
  {
    if !Resume(h, w, fault).1.Committed? {
      UncommittedStepKeepsRows(h, w, fault);
    }
  }

  /** A run continued by n steps that nothing interrupts. */
  function AndQuiet(faults: seq<Fault>, n: nat): seq<Fault> {
    if n == 0 then faults else AndQuiet(faults, n - 1) + [NoFault]
  }

  lemma QuietStep(h: Hash, w0: World, before: seq<Fault>, after: seq<Fault>)
    requires Started(h, w0) && after == before + [NoFault]
    ensures var left := LeftAfter(h, w0, before);
            left >= 0 && LeftAfter(h, w0, after) == if left == 0 then 0 else left - 1
  {
    assert after[..|after| - 1] == before;
    RunKeepsInv(h, w0, before);
    CommittedStepsCount(h, w0, before);
    StepKeepsInv(h, w0, Run(h, w0, before), NoFault);
    OneStepCounts(h, w0, Run(h, w0, before), NoFault);
  }

  /** Steps left of the world a run ends in. */
  function LeftAfter(h: Hash, w0: World, faults: seq<Fault>): int {
    StepsLeft(Run(h, w0, faults))
  }

  lemma {:induction false} Countdown(left: nat -> int, n: nat)
    requires left(0) >= 0 && forall k: nat :: left(k + 1) == if left(k) == 0 then 0 else left(k) - 1
    ensures left(n) == if n < left(0) then left(0) - n else 0
    decreases n
  {
    if n > 0 {
      Countdown(left, n - 1);
      assert left(n - 1 + 1) == if left(n - 1) == 0 then 0 else left(n - 1) - 1;
    }
  }

  lemma LeftAfterQuiet(h: Hash, w0: World, faults: seq<Fault>, n: nat)
    requires Started(h, w0)
    ensures var left := LeftAfter(h, w0, faults);
            left >= 0 && LeftAfter(h, w0, AndQuiet(faults, n)) == if n < left then left - n else 0
  {
    var left := (k: nat) => LeftAfter(h, w0, AndQuiet(faults, k));
    forall k: nat ensures left(k + 1) == if left(k) == 0 then 0 else left(k) - 1 {
      QuietStep(h, w0, AndQuiet(faults, k), AndQuiet(faults, k + 1));
    }
    NothingLeftIsReady(h, w0, faults);
    Countdown(left, n);
  }

  /** However a run was interrupted, as many quiet steps as are left finish it, and no fewer. */
  lemma QuietStepsFinish(h: Hash, w0: World, faults: seq<Fault>, n: nat)
    requires Started(h, w0)
    ensures n >= StepsLeft(Run(h, w0, faults)) <==> Run(h, w0, AndQuiet(faults, n)).config.state.Ready?
  {
    LeftAfterQuiet(h, w0, faults, n);
    NothingLeftIsReady(h, w0, AndQuiet(faults, n));
  }

  lemma NothingLeftIsReady(h: Hash, w0: World, faults: seq<Fault>)
    requires Started(h, w0)
    ensures LeftAfter(h, w0, faults) >= 0
    ensures LeftAfter(h, w0, faults) == 0 <==> Run(h, w0, faults).config.state.Ready?
  {
    CommittedStepsCount(h, w0, faults);
  }

  // ---------------------------------------------------------------- the end state

  /** Of the old tree a finished move leaves exactly what no row named, and what has the reserved suffix. */
  lemma FinishedMoveEmptiesOldRoot(h: Hash, w0: World, faults: seq<Fault>, p: Path)
    requires Started(h, w0) && MarkedByRows(w0) && Run(h, w0, faults).config.state.Ready?
    requires p in w0.files && Under(p, w0.config.outputRoot)
    ensures p in Run(h, w0, faults).files <==> !NamedByRow(w0, p) || HasNfoName(p)
  {
    var m := w0.config.migration.value.manifest;
    assert IsSource(m, p);
    var i :| 0 <= i < |m.files| && m.SourceOf(i) == p;
    RunKeepsInv(h, w0, faults);
    PathsApart(m, i);
    if !m.files[i].managed {
      assert forall k :: 0 <= k < |m.files| && m.SourceOf(k) == p ==> k == i;
      UnmanagedFilesSurvive(h, w0, faults, p);
    }
  }

  ghost predicate CollisionFree(h: Hash) {
    forall a, b :: h(a) == h(b) ==> a == b
  }

  /** The tree an uninterrupted relocation is meant to leave behind. */
  ghost predicate Relocated(w0: World, w: World, m: Manifest) {
    && (forall p :: p in w.files <==>
          (p in w0.files && !IsManagedSource(m, p)) || IsDestination(m, p))
    && (forall p :: p in w.files && !IsDestination(m, p) ==> w.files[p] == w0.files[p])
    && (forall i :: 0 <= i < |m.files| && m.SourceOf(i) in w0.files && m.DestinationOf(i) in w.files ==>
          w.files[m.DestinationOf(i)] == w0.files[m.SourceOf(i)])
  }

  lemma FinishedTree(h: Hash, w0: World, w: World)
    requires CollisionFree(h) && Inv(h, w0, w) && w.config.state.Ready?
    ensures Relocated(w0, w, w0.config.migration.value.manifest)
  {
    var m := w0.config.migration.value.manifest;
    assert Under(m.Temporary(), m.destination);
    forall p ensures p in w.files <==> (p in w0.files && !IsManagedSource(m, p)) || IsDestination(m, p) {
      if IsDestination(m, p) {
        var i :| 0 <= i < |m.files| && m.DestinationOf(i) == p;
        assert Copied(h, w.files, m, i);
      } else if IsManagedSource(m, p) {
        var i :| 0 <= i < |m.files| && m.files[i].managed && m.SourceOf(i) == p;
      } else if p != m.Temporary() {
        assert SameAt(w0.files, w.files, p);
      }
    }
    forall p | p in w.files && !IsDestination(m, p) ensures w.files[p] == w0.files[p] {
      assert SameAt(w0.files, w.files, p);
    }
    forall i | 0 <= i < |m.files| ensures w.files[m.DestinationOf(i)] == w0.files[m.SourceOf(i)] {
      assert Copied(h, w.files, m, i);
    }
  }

  lemma SameFinalFiles(h: Hash, w0: World, a: World, b: World, m: Manifest)
    requires Relocated(w0, a, m) && Relocated(w0, b, m) && Recorded(h, w0.files, m)
    ensures a.files == b.files
  {
    forall p | p in a.files ensures a.files[p] == b.files[p] {
      if IsDestination(m, p) {
        var i :| 0 <= i < |m.files| && m.DestinationOf(i) == p;
        assert HasHash(h, w0.files, m.SourceOf(i), m.files[i].sha256);
      }
    }
  }

  lemma FinishedWorldsAgree(h: Hash, w0: World, a: World, b: World)
    requires CollisionFree(h) && Inv(h, w0, a) && Inv(h, w0, b) && a.config.state.Ready? && b.config.state.Ready?
    ensures w0.config.migration.Some? && a == b
    ensures Relocated(w0, a, w0.config.migration.value.manifest)
    ensures a.config.generation == w0.config.generation + 1
  {
    FinishedTree(h, w0, a);
    FinishedTree(h, w0, b);
    SameFinalFiles(h, w0, a, b, w0.config.migration.value.manifest);
  }

  /** Any two finished runs of one move, however interrupted, end in the same trees, rows and configuration. */
  lemma FinishedRunsAgree(h: Hash, w0: World, faults: seq<Fault>, others: seq<Fault>)
    requires CollisionFree(h) && Started(h, w0)
    requires Run(h, w0, faults).config.state.Ready? && Run(h, w0, others).config.state.Ready?
    ensures Run(h, w0, faults) == Run(h, w0, others)
    ensures Relocated(w0, Run(h, w0, faults), w0.config.migration.value.manifest)
    ensures Run(h, w0, faults).config.generation == w0.config.generation + 1
  {
    RunKeepsInv(h, w0, faults);
    RunKeepsInv(h, w0, others);
    FinishedWorldsAgree(h, w0, Run(h, w0, faults), Run(h, w0, others));
  }
}
