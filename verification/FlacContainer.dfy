/**
 The sanitizer's container parser (RFC 9639, sections 8.1 and 8.2; ID3v2.4.0 structure,
 sections 3.1, 3.4 and 6.2), and the grammar of the files it accepts.
 */
module FlacContainer {
  import opened Wrappers
  import opened FlacBytes

  const MARKER: Bytes := [0x66, 0x4C, 0x61, 0x43]
  const ID3: Bytes := [0x49, 0x44, 0x33]
  const FOOTER: Bytes := [0x33, 0x44, 0x49]
  const TAG: Bytes := [0x54, 0x41, 0x47]

  datatype BlockAt = BlockAt(offset: nat, kind: nat, size: nat)

  datatype Walk = Walk(blocks: seq<BlockAt>, end: nat)

  datatype FindingKind = LeadingTagRemoved | TrailingTagRemoved | MetadataBlockDropped

  datatype Finding = Finding(kind: FindingKind, offset: nat, size: nat)

  datatype Layout = Layout(
    marker: nat, blocks: seq<BlockAt>, streaminfo: Bytes, audioStart: nat, audioEnd: nat,
    findings: seq<Finding>, hasTrailer: bool)

  // ---------------------------------------------------------------- what the parser computes

  /** The ten bytes of a tag header: identifier, version, flags and a synchsafe size. */
  predicate IsTagHeader(h: Bytes) {
    |h| == 10 && h[..3] == ID3 && h[3] in [2, 3, 4] && h[5] % 16 == 0 && IsSynchsafe(h[6..10])
  }

  function FooterSize(h: Bytes): nat
    requires |h| == 10
  {
    if h[3] == 4 && h[5] / 16 % 2 == 1 then 10 else 0
  }

  function TagSize(h: Bytes): nat
    requires |h| == 10
  {
    10 + MaskedSize(h[6..10]) + FooterSize(h)
  }

  /** Bytes taken by a leading tag: 0 without one, nothing when it is malformed. */
  function LeadingTag(file: Bytes): Option<nat> {
    var payload := Read(file, 0, 10);
    if !(ID3 <= payload) then Some(0)
    else if !IsTagHeader(payload) then None
    else
      var total := TagSize(payload);
      if total > |file| then None
      else if FooterSize(payload) != 0 && Read(file, total - 10, 10) != FOOTER + payload[3..10] then None
      else Some(total)
  }

  function WalkBlocks(file: Bytes, offset: nat, first: bool): (r: Option<Walk>)
    ensures r.Some? ==> r.value.blocks != [] && offset + 4 <= r.value.end <= |file|
    decreases |file| - offset
  {
    var header := Read(file, offset, 4);
    if |header| != 4 then None
    else
      var kind, size := KindOf(header), SizeOf(header);
      var end := offset + 4 + size;
      if end > |file| || (first && (kind != 0 || size != 34)) || (!first && kind == 0) then None
      else if IsLast(header) then Some(Walk([BlockAt(offset, kind, size)], end))
      else Prefixed([BlockAt(offset, kind, size)], WalkBlocks(file, end, false))
  }

  function Prefixed(blocks: seq<BlockAt>, rest: Option<Walk>): Option<Walk> {
    match rest
    case None => None
    case Some(walk) => Some(Walk(blocks + walk.blocks, walk.end))
  }

  function Dropped(blocks: seq<BlockAt>): seq<Finding> {
    if blocks == [] then []
    else
      var last := blocks[|blocks| - 1];
      Dropped(blocks[..|blocks| - 1])
      + if last.kind == 0 then [] else [Finding(MetadataBlockDropped, last.offset, last.size)]
  }

  function LeadFindings(marker: nat): seq<Finding> {
    if marker == 0 then [] else [Finding(LeadingTagRemoved, 0, marker)]
  }

  predicate HasTrailer(file: Bytes, end: nat) {
    |file| - end >= 128 && Read(file, |file| - 128, 3) == TAG
  }

  /** The layout once the tag and the metadata blocks are known; nothing when no audio is left. */
  function LayoutFrom(file: Bytes, marker: nat, walk: Walk): Option<Layout>
    requires walk.end <= |file|
  {
    var audioEnd := if HasTrailer(file, walk.end) then |file| - 128 else |file|;
    if audioEnd <= walk.end then None
    else Some(Layout(
      marker, walk.blocks, Read(file, marker + 8, 34), walk.end, audioEnd,
      LeadFindings(marker) + Dropped(walk.blocks)
      + (if HasTrailer(file, walk.end) then [Finding(TrailingTagRemoved, audioEnd, 128)] else []),
      HasTrailer(file, walk.end)))
  }

  /** The metadata blocks after a marker. */
  function Metadata(file: Bytes, marker: nat): (r: Option<Walk>)
    ensures r.Some? ==> r.value.end <= |file|
  {
    WalkBlocks(file, marker + 4, true)
  }

  function LayoutOfWalk(file: Bytes, marker: nat, walk: Option<Walk>): Option<Layout>
    requires walk.Some? ==> walk.value.end <= |file|
  {
    if walk.None? then None else LayoutFrom(file, marker, walk.value)
  }

  function ParseSpec(file: Bytes): Option<Layout> {
    var marker := LeadingTag(file);
    if marker.None? || Read(file, marker.value, 4) != MARKER then None
    else LayoutOfWalk(file, marker.value, Metadata(file, marker.value))
  }

  // ---------------------------------------------------------------- the parser

  /** Why a header stops the walk; nothing when its block is accepted. */
  predicate Rejected(file: Bytes, offset: nat, first: bool) {
    var header := Read(file, offset, 4);
    || |header| != 4
    || offset + 4 + SizeOf(header) > |file|
    || (first && (KindOf(header) != 0 || SizeOf(header) != 34))
    || (!first && KindOf(header) == 0)
  }

  lemma WalkStep(file: Bytes, offset: nat, blocks: seq<BlockAt>, first: bool)
    ensures Rejected(file, offset, first) ==> WalkBlocks(file, offset, first).None?
    ensures !Rejected(file, offset, first) ==>
              var header := Read(file, offset, 4);
              var here := BlockAt(offset, KindOf(header), SizeOf(header));
              var end := offset + 4 + here.size;
              Prefixed(blocks, WalkBlocks(file, offset, first)) ==
              if IsLast(header) then Some(Walk(blocks + [here], end))
              else Prefixed(blocks + [here], WalkBlocks(file, end, false))
  {
    if !Rejected(file, offset, first) {
      var header := Read(file, offset, 4);
      var here := BlockAt(offset, KindOf(header), SizeOf(header));
      var rest := WalkBlocks(file, offset + 4 + here.size, false);
      assert rest.Some? ==> blocks + ([here] + rest.value.blocks) == blocks + [here] + rest.value.blocks;
    }
  }

  /** The metadata loop: block headers are read, payloads are skipped, and the first payload is kept. */
  method ReadBlocks(file: Bytes, start: nat, lead: seq<Finding>)
    returns (walk: Option<Walk>, streaminfo: Option<Bytes>, findings: seq<Finding>)
    ensures walk == WalkBlocks(file, start, true)
    ensures walk.Some? ==> streaminfo == Some(Read(file, start + 4, 34))
    ensures walk.Some? ==> findings == lead + Dropped(walk.value.blocks)
  {
    var offset, blocks := start, [];
    streaminfo, findings := None, lead;
    ghost var whole := WalkBlocks(file, start, true);
    assert whole.Some? ==> [] + whole.value.blocks == whole.value.blocks;
    var last := false;
    while !last
      invariant streaminfo == if blocks == [] then None else Some(Read(file, start + 4, 34))
      invariant blocks == [] ==> offset == start
      invariant findings == lead + Dropped(blocks)
      invariant last ==> whole == Some(Walk(blocks, offset)) && offset <= |file|
      invariant !last ==> whole == Prefixed(blocks, WalkBlocks(file, offset, blocks == []))
      decreases |file| - offset, !last
    {
      WalkStep(file, offset, blocks, blocks == []);
      var header := Read(file, offset, 4);
      if |header| != 4 {
        return None, streaminfo, findings;
      }
      var kind, size := KindOf(header), SizeOf(header);
      var end := offset + 4 + size;
      if end > |file| {
        return None, streaminfo, findings;
      }
      if blocks == [] && (kind != 0 || size != 34) {
        return None, streaminfo, findings;
      }
      if kind == 0 {
        if streaminfo.Some? {
          return None, streaminfo, findings;
        }
        streaminfo := Some(Read(file, offset + 4, size));
      } else {
        findings := findings + [Finding(MetadataBlockDropped, offset, size)];
      }
      assert (blocks + [BlockAt(offset, kind, size)])[..|blocks|] == blocks;
      blocks := blocks + [BlockAt(offset, kind, size)];
      last := IsLast(header);
      offset := end;
    }
    walk := Some(Walk(blocks, offset));
  }

  /** What follows the metadata: the trailer is set aside, and audio must be left. */
  method FinishLayout(
    file: Bytes, marker: nat, walk: Walk, streaminfo: Bytes, found: seq<Finding>) returns (r: Option<Layout>)
    requires walk.end <= |file| && streaminfo == Read(file, marker + 8, 34)
    requires found == LeadFindings(marker) + Dropped(walk.blocks)
    ensures r == LayoutFrom(file, marker, walk)
  {
    var hasTrailer := |file| - walk.end >= 128 && Read(file, |file| - 128, 3) == TAG;
    var audioEnd := if hasTrailer then |file| - 128 else |file|;
    if audioEnd <= walk.end {
      return None;
    }
    var findings := found;
    if hasTrailer {
      findings := findings + [Finding(TrailingTagRemoved, audioEnd, 128)];
    } else {
      assert findings == findings + [];
    }
    r := Some(Layout(marker, walk.blocks, streaminfo, walk.end, audioEnd, findings, hasTrailer));
  }

  method ParseLayout(file: Bytes) returns (r: Option<Layout>)
    ensures r == ParseSpec(file)
  {
    var marker := LeadingTag(file);
    if marker.None? || Read(file, marker.value, 4) != MARKER {
      return None;
    }
    var walk, streaminfo, findings := ReadBlocks(file, marker.value + 4, LeadFindings(marker.value));
    if walk.None? {
      return None;
    }
    r := FinishLayout(file, marker.value, walk.value, streaminfo.value, findings);
  }

  // ---------------------------------------------------------------- the grammar

  datatype Block = Block(kind: nat, payload: Bytes)

  datatype Container = Container(lead: Bytes, blocks: seq<Block>, audio: Bytes, trailer: Bytes)

  /** A whole leading tag: header, body and, when flagged, the footer that repeats the header. */
  predicate IsTag(lead: Bytes) {
    && |lead| >= 10 && IsTagHeader(lead[..10]) && |lead| == TagSize(lead[..10])
    && (FooterSize(lead[..10]) != 0 ==> lead[|lead| - 10..] == FOOTER + lead[..10][3..10])
  }

  predicate IsBlock(b: Block) {
    b.kind < 128 && |b.payload| < 0x1000000
  }

  predicate AreBlocks(blocks: seq<Block>) {
    forall i :: 0 <= i < |blocks| ==> IsBlock(blocks[i])
  }

  predicate EndsInTag(audio: Bytes) {
    |audio| >= 128 && audio[|audio| - 128..][..3] == TAG
  }

  /** What makes a file acceptable: one STREAMINFO, first; audio; and no ambiguity about the trailer. */
  predicate IsContainer(c: Container) {
    && (c.lead == [] || IsTag(c.lead))
    && c.blocks != [] && AreBlocks(c.blocks)
    && c.blocks[0].kind == 0 && |c.blocks[0].payload| == 34
    && (forall i :: 0 < i < |c.blocks| ==> c.blocks[i].kind != 0)
    && c.audio != []
    && (if c.trailer == [] then !EndsInTag(c.audio) else |c.trailer| == 128 && c.trailer[..3] == TAG)
  }

  function BlockBytes(b: Block, last: bool): Bytes
    requires IsBlock(b)
  {
    HeaderBytes(b.kind, last, |b.payload|) + b.payload
  }

  function BlocksBytes(blocks: seq<Block>): Bytes
    requires AreBlocks(blocks)
  {
    if blocks == [] then []
    else BlockBytes(blocks[0], |blocks| == 1) + BlocksBytes(blocks[1..])
  }

  function Serialize(c: Container): Bytes
    requires AreBlocks(c.blocks)
  {
    c.lead + MARKER + BlocksBytes(c.blocks) + c.audio + c.trailer
  }

  function Positions(blocks: seq<Block>, offset: nat): seq<BlockAt> {
    if blocks == [] then []
    else
      [BlockAt(offset, blocks[0].kind, |blocks[0].payload|)]
      + Positions(blocks[1..], offset + 4 + |blocks[0].payload|)
  }
}
