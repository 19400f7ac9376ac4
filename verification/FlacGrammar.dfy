/** The parser accepts exactly the serialized containers, and its layout tiles the file. */
module FlacGrammar {
  import opened Wrappers
  import opened FlacBytes
  import opened FlacContainer

  /** These bytes stand at this offset. */
  predicate At(file: Bytes, offset: nat, bytes: Bytes) {
    offset + |bytes| <= |file| && file[offset..offset + |bytes|] == bytes
  }

  lemma AtConcat(file: Bytes, offset: nat, a: Bytes, b: Bytes)
    ensures At(file, offset, a + b) <==> At(file, offset, a) && At(file, offset + |a|, b)
  {
    if At(file, offset, a + b) {
      var both := file[offset..offset + |a + b|];
      assert both[..|a|] == (a + b)[..|a|] == a && both[|a|..] == (a + b)[|a|..] == b;
      assert file[offset..offset + |a|] == both[..|a|];
      assert file[offset + |a|..offset + |a| + |b|] == both[|a|..];
    }
    if At(file, offset, a) && At(file, offset + |a|, b) {
      assert file[offset..offset + |a + b|] == file[offset..offset + |a|] + file[offset + |a|..offset + |a| + |b|];
    }
  }

  lemma AtRead(file: Bytes, offset: nat, bytes: Bytes)
    requires At(file, offset, bytes)
    ensures Read(file, offset, |bytes|) == bytes
  {
  }

  // ---------------------------------------------------------------- blocks

  /** The header the parser reads where a serialized block starts. */
  lemma HeaderRead(file: Bytes, offset: nat, b: Block, last: bool)
    requires IsBlock(b) && At(file, offset, BlockBytes(b, last))
    ensures var header := Read(file, offset, 4);
            && |header| == 4 && KindOf(header) == b.kind && (IsLast(header) <==> last)
            && SizeOf(header) == |b.payload|
    ensures |BlockBytes(b, last)| == 4 + |b.payload| && At(file, offset + 4, b.payload)
  {
    var header := HeaderBytes(b.kind, last, |b.payload|);
    AtConcat(file, offset, header, b.payload);
    AtRead(file, offset, header);
  }

  ghost predicate WellOrdered(blocks: seq<Block>, first: bool) {
    && blocks != [] && AreBlocks(blocks)
    && (first ==> blocks[0].kind == 0 && |blocks[0].payload| == 34)
    && (forall i :: (if first then 1 else 0) <= i < |blocks| ==> blocks[i].kind != 0)
  }

  lemma LastBlock(blocks: seq<Block>, offset: nat)
    requires |blocks| == 1 && AreBlocks(blocks)
    ensures BlocksBytes(blocks) == BlockBytes(blocks[0], true)
    ensures Positions(blocks, offset) == [BlockAt(offset, blocks[0].kind, |blocks[0].payload|)]
  {
    assert BlocksBytes(blocks[1..]) == [] && Positions(blocks[1..], offset + 4 + |blocks[0].payload|) == [];
  }

  /** A header the walk accepts, and what the walk then is. */
  lemma WalkFolds(file: Bytes, offset: nat, kind: nat, size: nat, last: bool, first: bool)
    requires |Read(file, offset, 4)| == 4 && offset + 4 + size <= |file|
    requires KindOf(Read(file, offset, 4)) == kind && (IsLast(Read(file, offset, 4)) <==> last)
    requires SizeOf(Read(file, offset, 4)) == size
    requires if first then kind == 0 && size == 34 else kind != 0
    ensures WalkBlocks(file, offset, first)
            == if last then Some(Walk([BlockAt(offset, kind, size)], offset + 4 + size))
               else Prefixed([BlockAt(offset, kind, size)], WalkBlocks(file, offset + 4 + size, false))
  {
  }

  /** The header of the first of some blocks is read as it was written. */
  lemma FirstBlockRead(file: Bytes, offset: nat, blocks: seq<Block>, first: bool)
    requires WellOrdered(blocks, first) && At(file, offset, BlocksBytes(blocks))
    ensures var here := BlockAt(offset, blocks[0].kind, |blocks[0].payload|);
            var end := offset + 4 + here.size;
            && At(file, end, BlocksBytes(blocks[1..]))
            && WalkBlocks(file, offset, first)
               == if |blocks| == 1 then Some(Walk([here], end)) else Prefixed([here], WalkBlocks(file, end, false))
  {
    var head, size := blocks[0], |blocks[0].payload|;
    AtConcat(file, offset, BlockBytes(head, |blocks| == 1), BlocksBytes(blocks[1..]));
    HeaderRead(file, offset, head, |blocks| == 1);
    WalkFolds(file, offset, head.kind, size, |blocks| == 1, first);
  }

  lemma MoreBlocks(blocks: seq<Block>, offset: nat)
    requires |blocks| > 1 && AreBlocks(blocks)
    ensures |BlocksBytes(blocks)| == 4 + |blocks[0].payload| + |BlocksBytes(blocks[1..])|
    ensures Positions(blocks, offset)
            == [BlockAt(offset, blocks[0].kind, |blocks[0].payload|)]
               + Positions(blocks[1..], offset + 4 + |blocks[0].payload|)
  {
  }

  /** The walk over some blocks laid out from an offset. */
  function WalkOver(blocks: seq<Block>, offset: nat): Walk
    requires AreBlocks(blocks)
  {
    Walk(Positions(blocks, offset), offset + |BlocksBytes(blocks)|)
  }

  lemma WalkOverOne(blocks: seq<Block>, offset: nat)
    requires |blocks| == 1 && AreBlocks(blocks)
    ensures var here := BlockAt(offset, blocks[0].kind, |blocks[0].payload|);
            WalkOver(blocks, offset) == Walk([here], offset + 4 + here.size)
  {
    LastBlock(blocks, offset);
  }

  lemma WalkOverMore(blocks: seq<Block>, offset: nat)
    requires |blocks| > 1 && AreBlocks(blocks)
    ensures var here := BlockAt(offset, blocks[0].kind, |blocks[0].payload|);
            Some(WalkOver(blocks, offset)) == Prefixed([here], Some(WalkOver(blocks[1..], offset + 4 + here.size)))
  {
    MoreBlocks(blocks, offset);
  }

  lemma LaterBlocksOrdered(blocks: seq<Block>, first: bool)
    requires WellOrdered(blocks, first) && |blocks| > 1
    ensures WellOrdered(blocks[1..], false)
  {
  }

  lemma {:induction false} WalkComplete(file: Bytes, offset: nat, blocks: seq<Block>, first: bool)
    requires WellOrdered(blocks, first) && At(file, offset, BlocksBytes(blocks))
    ensures WalkBlocks(file, offset, first) == Some(WalkOver(blocks, offset))
    decreases |blocks|
  {
    FirstBlockRead(file, offset, blocks, first);
    if |blocks| == 1 {
      WalkOverOne(blocks, offset);
    } else {
      WalkOverMore(blocks, offset);
      LaterBlocksOrdered(blocks, first);
      WalkComplete(file, offset + 4 + |blocks[0].payload|, blocks[1..], false);
    }
  }

  /** The blocks a walk found, cut out of the file. */
  function CutBlocks(file: Bytes, blocks: seq<BlockAt>): seq<Block> {
    if blocks == [] then []
    else
      [Block(blocks[0].kind, Read(file, blocks[0].offset + 4, blocks[0].size))] + CutBlocks(file, blocks[1..])
  }

  /** A complete header and payload are the bytes of one block. */
  lemma BlockCut(file: Bytes, offset: nat)
    requires |Read(file, offset, 4)| == 4 && offset + 4 + SizeOf(Read(file, offset, 4)) <= |file|
    ensures var header := Read(file, offset, 4); var size := SizeOf(header);
            var here := Block(KindOf(header), Read(file, offset + 4, size));
            && IsBlock(here) && |here.payload| == size
            && At(file, offset, BlockBytes(here, IsLast(header)))
  {
    var header := Read(file, offset, 4);
    var size := SizeOf(header);
    var here := Block(KindOf(header), Read(file, offset + 4, size));
    HeaderIsRead(header);
    AtConcat(file, offset, header, here.payload);
  }

  /** What a walk says: well-ordered blocks standing at these positions, up to its end. */
  ghost predicate Tiles(file: Bytes, offset: nat, walk: Walk, first: bool) {
    var blocks := CutBlocks(file, walk.blocks);
    && WellOrdered(blocks, first) && At(file, offset, BlocksBytes(blocks))
    && walk.end == offset + |BlocksBytes(blocks)| && walk.blocks == Positions(blocks, offset)
  }

  lemma OneBlockTiles(file: Bytes, offset: nat, here: Block, first: bool)
    requires IsBlock(here) && At(file, offset, BlockBytes(here, true))
    requires here.payload == Read(file, offset + 4, |here.payload|)
    requires if first then here.kind == 0 && |here.payload| == 34 else here.kind != 0
    ensures Tiles(file, offset, Walk([BlockAt(offset, here.kind, |here.payload|)], offset + 4 + |here.payload|), first)
  {
    var only := [BlockAt(offset, here.kind, |here.payload|)];
    assert CutBlocks(file, only[1..]) == [] && CutBlocks(file, only) == [here];
    LastBlock([here], offset);
  }

  lemma LongerTiles(file: Bytes, offset: nat, here: Block, rest: Walk, first: bool)
    requires IsBlock(here) && At(file, offset, BlockBytes(here, false))
    requires here.payload == Read(file, offset + 4, |here.payload|)
    requires if first then here.kind == 0 && |here.payload| == 34 else here.kind != 0
    requires Tiles(file, offset + 4 + |here.payload|, rest, false)
    ensures Tiles(file, offset, Walk([BlockAt(offset, here.kind, |here.payload|)] + rest.blocks, rest.end), first)
  {
    var tail := CutBlocks(file, rest.blocks);
    CutFirst(file, offset, here, rest.blocks);
    BlocksWithFirst(here, tail, offset);
    AtConcat(file, offset, BlockBytes(here, false), BlocksBytes(tail));
  }

  lemma CutFirst(file: Bytes, offset: nat, here: Block, rest: seq<BlockAt>)
    requires here.payload == Read(file, offset + 4, |here.payload|)
    ensures CutBlocks(file, [BlockAt(offset, here.kind, |here.payload|)] + rest) == [here] + CutBlocks(file, rest)
  {
    var all := [BlockAt(offset, here.kind, |here.payload|)] + rest;
    assert all[1..] == rest;
  }

  lemma BlocksWithFirst(here: Block, tail: seq<Block>, offset: nat)
    requires IsBlock(here) && AreBlocks(tail) && tail != []
    ensures AreBlocks([here] + tail)
    ensures BlocksBytes([here] + tail) == BlockBytes(here, false) + BlocksBytes(tail)
    ensures Positions([here] + tail, offset)
            == [BlockAt(offset, here.kind, |here.payload|)] + Positions(tail, offset + 4 + |here.payload|)
  {
    assert ([here] + tail)[1..] == tail;
  }

  /** What a successful walk read at its first header. */
  lemma WalkUnfolds(file: Bytes, offset: nat, first: bool)
    requires WalkBlocks(file, offset, first).Some?
    ensures var header := Read(file, offset, 4);
            var here := BlockAt(offset, KindOf(header), SizeOf(header));
            var end := offset + 4 + here.size;
            && |header| == 4 && end <= |file|
            && (if first then here.kind == 0 && here.size == 34 else here.kind != 0)
            && if IsLast(header) then WalkBlocks(file, offset, first) == Some(Walk([here], end))
               else
                 && WalkBlocks(file, end, false).Some?
                 && WalkBlocks(file, offset, first)
                    == Some(Walk([here] + WalkBlocks(file, end, false).value.blocks,
                       WalkBlocks(file, end, false).value.end))
  {
  }

  lemma LastTiles(file: Bytes, offset: nat, first: bool)
    requires WalkBlocks(file, offset, first).Some? && IsLast(Read(file, offset, 4))
    ensures Tiles(file, offset, WalkBlocks(file, offset, first).value, first)
  {
    WalkUnfolds(file, offset, first);
    BlockCut(file, offset);
    var header := Read(file, offset, 4);
    OneBlockTiles(file, offset, Block(KindOf(header), Read(file, offset + 4, SizeOf(header))), first);
  }

  lemma NextTiles(file: Bytes, offset: nat, first: bool)
    requires WalkBlocks(file, offset, first).Some? && !IsLast(Read(file, offset, 4))
    requires var end := offset + 4 + SizeOf(Read(file, offset, 4));
             WalkBlocks(file, end, false).Some? && Tiles(file, end, WalkBlocks(file, end, false).value, false)
    ensures Tiles(file, offset, WalkBlocks(file, offset, first).value, first)
  {
    WalkUnfolds(file, offset, first);
    BlockCut(file, offset);
    var header := Read(file, offset, 4);
    var size := SizeOf(header);
    var here := Block(KindOf(header), Read(file, offset + 4, size));
    LongerTiles(file, offset, here, WalkBlocks(file, offset + 4 + size, false).value, first);
  }

  lemma NextWalk(file: Bytes, offset: nat, first: bool)
    requires WalkBlocks(file, offset, first).Some?
    ensures |Read(file, offset, 4)| == 4
    ensures var end := offset + 4 + SizeOf(Read(file, offset, 4));
            end <= |file| && (IsLast(Read(file, offset, 4)) || WalkBlocks(file, end, false).Some?)
  {
    WalkUnfolds(file, offset, first);
  }

  lemma {:induction false} WalkSound(file: Bytes, offset: nat, first: bool)
    requires WalkBlocks(file, offset, first).Some?
    ensures Tiles(file, offset, WalkBlocks(file, offset, first).value, first)
    decreases |file| - offset
  {
    if |Read(file, offset, 4)| == 4 && IsLast(Read(file, offset, 4)) {
      LastTiles(file, offset, first);
    } else {
      NextWalk(file, offset, first);
      WalkSound(file, offset + 4 + SizeOf(Read(file, offset, 4)), false);
      NextTiles(file, offset, first);
    }
  }

  // ---------------------------------------------------------------- the leading tag

  lemma TagAccepted(file: Bytes, lead: Bytes)
    requires IsTag(lead) && At(file, 0, lead)
    ensures LeadingTag(file) == Some(|lead|)
  {
    assert Read(file, 0, 10) == lead[..10];
    assert lead[..10][..3] == lead[..3];
    if FooterSize(lead[..10]) != 0 {
      assert Read(file, |lead| - 10, 10) == lead[|lead| - 10..];
    }
  }

  lemma TagSound(file: Bytes)
    requires LeadingTag(file).Some?
    ensures var n := LeadingTag(file).value; n <= |file| && (n == 0 || IsTag(file[..n]))
  {
    var n := LeadingTag(file).value;
    if n != 0 {
      assert file[..n][..10] == Read(file, 0, 10);
      if FooterSize(Read(file, 0, 10)) != 0 {
        assert file[..n][n - 10..] == Read(file, n - 10, 10);
      }
    }
  }

  lemma NoTagWithMarker(file: Bytes)
    requires At(file, 0, MARKER)
    ensures LeadingTag(file) == Some(0)
  {
    assert Read(file, 0, 10)[0] == file[0] == file[0..4][0] == 0x66;
  }

  // ---------------------------------------------------------------- whole files

  function LayoutOf(c: Container): Layout
    requires IsContainer(c)
  {
    var audioStart := |c.lead| + 4 + |BlocksBytes(c.blocks)|;
    var audioEnd := audioStart + |c.audio|;
    var blocks := Positions(c.blocks, |c.lead| + 4);
    Layout(
      |c.lead|, blocks, c.blocks[0].payload, audioStart, audioEnd,
      LeadFindings(|c.lead|) + Dropped(blocks)
      + (if c.trailer != [] then [Finding(TrailingTagRemoved, audioEnd, 128)] else []),
      c.trailer != [])
  }

  /** The pieces of a container stand one after the other and fill the file. */
  ghost predicate Laid(file: Bytes, c: Container)
    requires AreBlocks(c.blocks)
  {
    var start := |c.lead| + 4 + |BlocksBytes(c.blocks)|;
    && At(file, 0, c.lead) && At(file, |c.lead|, MARKER) && At(file, |c.lead| + 4, BlocksBytes(c.blocks))
    && At(file, start, c.audio) && At(file, start + |c.audio|, c.trailer)
    && |file| == start + |c.audio| + |c.trailer|
  }

  lemma SerializedIsLaid(file: Bytes, c: Container)
    requires AreBlocks(c.blocks)
    ensures Laid(file, c) <==> file == Serialize(c)
  {
    var all := Serialize(c);
    AtConcat(file, 0, c.lead + MARKER + BlocksBytes(c.blocks) + c.audio, c.trailer);
    AtConcat(file, 0, c.lead + MARKER + BlocksBytes(c.blocks), c.audio);
    AtConcat(file, 0, c.lead + MARKER, BlocksBytes(c.blocks));
    AtConcat(file, 0, c.lead, MARKER);
    assert At(file, 0, all) && |file| == |all| <==> file == all by {
      assert file[0..|file|] == file;
    }
  }

  lemma TrailerFound(file: Bytes, start: nat, audio: Bytes, trailer: Bytes)
    requires if trailer == [] then !EndsInTag(audio) else |trailer| == 128 && trailer[..3] == TAG
    requires At(file, start, audio) && At(file, start + |audio|, trailer)
    requires |file| == start + |audio| + |trailer|
    ensures HasTrailer(file, start) <==> trailer != []
  {
    if trailer != [] {
      assert Read(file, |file| - 128, 3) == trailer[..3];
    } else if |audio| >= 128 {
      assert Read(file, |file| - 128, 3) == audio[|audio| - 128..][..3];
    }
  }

  lemma LeadRead(file: Bytes, c: Container)
    requires IsContainer(c) && Laid(file, c)
    ensures LeadingTag(file) == Some(|c.lead|) && Read(file, |c.lead|, 4) == MARKER
  {
    AtRead(file, |c.lead|, MARKER);
    if c.lead == [] {
      NoTagWithMarker(file);
    } else {
      TagAccepted(file, c.lead);
    }
  }

  lemma StreaminfoRead(file: Bytes, c: Container)
    requires IsContainer(c) && Laid(file, c)
    ensures Read(file, |c.lead| + 8, 34) == c.blocks[0].payload
  {
    var head := BlockBytes(c.blocks[0], |c.blocks| == 1);
    AtConcat(file, |c.lead| + 4, head, BlocksBytes(c.blocks[1..]));
    HeaderRead(file, |c.lead| + 4, c.blocks[0], |c.blocks| == 1);
    AtRead(file, |c.lead| + 8, c.blocks[0].payload);
  }

  lemma LayoutIsLaidOut(file: Bytes, c: Container, walk: Walk)
    requires IsContainer(c)
    requires walk == WalkOver(c.blocks, |c.lead| + 4)
    requires |file| == walk.end + |c.audio| + |c.trailer|
    requires HasTrailer(file, walk.end) <==> c.trailer != []
    requires Read(file, |c.lead| + 8, 34) == c.blocks[0].payload
    ensures LayoutFrom(file, |c.lead|, walk) == Some(LayoutOf(c))
  {
  }

  lemma ParsedWith(file: Bytes, marker: nat, walk: Walk, layout: Layout)
    requires LeadingTag(file) == Some(marker) && Read(file, marker, 4) == MARKER
    requires Metadata(file, marker) == Some(walk) && walk.end <= |file|
    requires LayoutFrom(file, marker, walk) == Some(layout)
    ensures ParseSpec(file) == Some(layout)
  {
  }

  lemma BlocksAreOrdered(c: Container)
    requires IsContainer(c)
    ensures WellOrdered(c.blocks, true)
  {
  }

  lemma MetadataIs(file: Bytes, marker: nat, blocks: seq<Block>)
    requires WellOrdered(blocks, true) && At(file, marker + 4, BlocksBytes(blocks))
    ensures Metadata(file, marker) == Some(WalkOver(blocks, marker + 4))
  {
    WalkComplete(file, marker + 4, blocks, true);
  }

  lemma MetadataRead(file: Bytes, c: Container)
    requires IsContainer(c) && Laid(file, c)
    ensures Metadata(file, |c.lead|) == Some(WalkOver(c.blocks, |c.lead| + 4))
  {
    BlocksAreOrdered(c);
    MetadataIs(file, |c.lead|, c.blocks);
  }

  lemma LayoutRead(file: Bytes, c: Container)
    requires IsContainer(c) && Laid(file, c)
    ensures var walk := WalkOver(c.blocks, |c.lead| + 4);
            walk.end <= |file| && LayoutFrom(file, |c.lead|, walk) == Some(LayoutOf(c))
  {
    var walk := WalkOver(c.blocks, |c.lead| + 4);
    TrailerFound(file, walk.end, c.audio, c.trailer);
    StreaminfoRead(file, c);
    LayoutIsLaidOut(file, c, walk);
  }

  lemma LaidParses(file: Bytes, c: Container)
    requires IsContainer(c) && Laid(file, c)
    ensures ParseSpec(file) == Some(LayoutOf(c))
  {
    LeadRead(file, c);
    var walk := LaidWalk(file, c);
    ParsedWith(file, |c.lead|, walk, LayoutOf(c));
  }

  lemma LaidWalk(file: Bytes, c: Container) returns (walk: Walk)
    requires IsContainer(c) && Laid(file, c)
    ensures Metadata(file, |c.lead|) == Some(walk) && walk.end <= |file|
    ensures LayoutFrom(file, |c.lead|, walk) == Some(LayoutOf(c))
  {
    walk := WalkOver(c.blocks, |c.lead| + 4);
    MetadataRead(file, c);
    LayoutRead(file, c);
  }

  /** Every container of the grammar parses back to its own layout. */
  lemma ParseSerialized(c: Container)
    requires IsContainer(c)
    ensures ParseSpec(Serialize(c)) == Some(LayoutOf(c))
  {
    SerializedIsLaid(Serialize(c), c);
    LaidParses(Serialize(c), c);
  }

  /** The pieces of an accepted file, in order, with nothing between them and nothing left over. */
  function Cut(file: Bytes, l: Layout): Container
    requires l.marker <= |file| && l.audioStart <= l.audioEnd <= |file|
  {
    Container(file[..l.marker], CutBlocks(file, l.blocks), file[l.audioStart..l.audioEnd], file[l.audioEnd..])
  }

  lemma CutTrailer(file: Bytes, start: nat, end: nat)
    requires start < end <= |file| && end == if HasTrailer(file, start) then |file| - 128 else |file|
    ensures if file[end..] == [] then !EndsInTag(file[start..end])
            else |file[end..]| == 128 && file[end..][..3] == TAG
  {
    if HasTrailer(file, start) {
      assert file[end..][..3] == Read(file, |file| - 128, 3);
    } else if |file| - start >= 128 {
      var audio := file[start..end];
      assert audio[|audio| - 128..][..3] == Read(file, |file| - 128, 3);
    }
  }

  lemma LayoutFromFacts(file: Bytes, marker: nat, walk: Option<Walk>)
    requires walk.Some? ==> walk.value.end <= |file|
    requires LayoutOfWalk(file, marker, walk).Some?
    ensures var l := LayoutOfWalk(file, marker, walk).value;
            && l.marker == marker && walk == Some(Walk(l.blocks, l.audioStart))
            && l.audioStart < l.audioEnd <= |file|
            && l.audioEnd == (if HasTrailer(file, l.audioStart) then |file| - 128 else |file|)
  {
  }

  lemma LayoutFacts(file: Bytes)
    requires ParseSpec(file).Some?
    ensures var l := ParseSpec(file).value;
            && LeadingTag(file) == Some(l.marker) && Read(file, l.marker, 4) == MARKER
            && Metadata(file, l.marker) == Some(Walk(l.blocks, l.audioStart))
            && l.audioStart < l.audioEnd <= |file|
            && l.audioEnd == (if HasTrailer(file, l.audioStart) then |file| - 128 else |file|)
  {
    var marker := LeadingTag(file).value;
    LayoutFromFacts(file, marker, Metadata(file, marker));
  }

  lemma SlicesStand(file: Bytes, a: nat, b: nat)
    requires a <= b <= |file|
    ensures At(file, 0, file[..a]) && At(file, a, file[a..b]) && At(file, b, file[b..])
  {
  }

  lemma MarkerStands(file: Bytes, marker: nat)
    requires Read(file, marker, 4) == MARKER
    ensures At(file, marker, MARKER)
  {
  }

  lemma CutIsContainer(file: Bytes, l: Layout)
    requires l.marker <= |file| && l.audioStart < l.audioEnd <= |file|
    requires l.marker == 0 || IsTag(file[..l.marker])
    requires WellOrdered(CutBlocks(file, l.blocks), true)
    requires l.audioEnd == (if HasTrailer(file, l.audioStart) then |file| - 128 else |file|)
    ensures IsContainer(Cut(file, l))
  {
    CutTrailer(file, l.audioStart, l.audioEnd);
  }

  lemma CutIsLaid(file: Bytes, l: Layout)
    requires l.marker <= |file| && l.audioStart < l.audioEnd <= |file| && Read(file, l.marker, 4) == MARKER
    requires Tiles(file, l.marker + 4, Walk(l.blocks, l.audioStart), true)
    ensures Laid(file, Cut(file, l))
  {
    MarkerStands(file, l.marker);
    SlicesStand(file, l.marker, l.audioStart);
    SlicesStand(file, l.audioStart, l.audioEnd);
  }

  lemma MetadataTiles(file: Bytes, marker: nat)
    requires Metadata(file, marker).Some?
    ensures Tiles(file, marker + 4, Metadata(file, marker).value, true)
  {
    WalkSound(file, marker + 4, true);
  }

  lemma ParsedIsLaid(file: Bytes)
    requires ParseSpec(file).Some?
    ensures var l := ParseSpec(file).value;
            && l.marker <= |file| && l.audioStart < l.audioEnd <= |file|
            && IsContainer(Cut(file, l)) && Laid(file, Cut(file, l))
  {
    LayoutFacts(file);
    var l := ParseSpec(file).value;
    TagSound(file);
    MetadataTiles(file, l.marker);
    CutIsContainer(file, l);
    CutIsLaid(file, l);
  }

  /** Whatever the parser accepts is a container of the grammar, cut at the layout's own offsets. */
  lemma ParsedIsContainer(file: Bytes)
    requires ParseSpec(file).Some?
    ensures var l := ParseSpec(file).value;
            && l.marker <= |file| && l.audioStart < l.audioEnd <= |file|
            && IsContainer(Cut(file, l)) && Serialize(Cut(file, l)) == file && LayoutOf(Cut(file, l)) == l
  {
    var c := Cut(file, ParseSpec(file).value);
    ParsedIsLaid(file);
    SerializedIsLaid(file, c);
    LaidParses(file, c);
  }
}
