/** The two inspectors that read the same headers: the FLAC one, and the leading tag of the MP3 one. */
module FlacInspector {
  import opened Wrappers
  import opened FlacBytes
  import opened FlacContainer
  import opened FlacGrammar

  datatype InspectionKind =
    LeadingTagFound | MarkerFound | Streaminfo | VorbisComment | Picture | Application | Padding | MetadataBlock
    | TrailingTagFound | Malformed

  datatype Inspection = Inspection(kind: InspectionKind, offset: nat, size: Option<nat>)

  datatype Report = Report(findings: seq<Inspection>, malformed: bool)

  datatype Lead = Lead(offset: nat, found: bool, malformed: bool)

  function BlockKind(kind: nat): InspectionKind {
    if kind == 0 then Streaminfo
    else if kind == 1 then Padding
    else if kind == 2 then Application
    else if kind == 4 then VorbisComment
    else if kind == 6 then Picture
    else MetadataBlock
  }

  /** The inspector's own tag reader: it ignores version, flags and any footer. */
  function InspectLead(payload: Bytes, fileSize: nat): Lead {
    if !(ID3 <= payload) then Lead(0, false, false)
    else if |payload| < 10 || !IsSynchsafe(payload[6..10]) then Lead(0, false, true)
    else
      var total := 10 + SummedSize(payload[6..10]);
      if total > fileSize then Lead(0, false, true) else Lead(total, true, false)
  }

  function InspectBlocks(file: Bytes, offset: nat, first: bool): Report
    decreases |file| - offset
  {
    var header := Read(file, offset, 4);
    if |header| != 4 then Report([Inspection(Malformed, offset, None)], true)
    else
      var kind, size := KindOf(header), SizeOf(header);
      var end := offset + 4 + size;
      var here := Inspection(BlockKind(kind), offset, Some(size));
      if end > |file| then Report([Inspection(Malformed, offset, Some(size))], true)
      else if first && (kind != 0 || size != 34) then Report([here, Inspection(Malformed, offset, Some(size))], true)
      else if IsLast(header) then Report([here], false)
      else
        var rest := InspectBlocks(file, end, false);
        Report([here] + rest.findings, rest.malformed)
  }

  function TrailerFindings(file: Bytes): seq<Inspection> {
    if |file| >= 128 && Read(file, |file| - 128, 3) == TAG
    then [Inspection(TrailingTagFound, |file| - 128, Some(128))] else []
  }

  /** The findings on the metadata blocks after a marker. */
  function InspectMetadata(file: Bytes, marker: nat): Report {
    InspectBlocks(file, marker + 4, true)
  }

  function InspectSpec(file: Bytes): Report {
    var lead := InspectLead(Read(file, 0, 10), |file|);
    var tag := if lead.found then [Inspection(LeadingTagFound, 0, Some(lead.offset))] else [];
    if lead.malformed || Read(file, lead.offset, 4) != MARKER then
      Report(tag + [Inspection(Malformed, lead.offset, None)], true)
    else
      var blocks := InspectMetadata(file, lead.offset);
      Report(
        tag + [Inspection(MarkerFound, lead.offset, Some(4))] + blocks.findings
        + (if blocks.malformed then [] else TrailerFindings(file)),
        blocks.malformed)
  }

  // ---------------------------------------------------------------- the inspector's loop

  function Extended(found: seq<Inspection>, r: Report): Report {
    Report(found + r.findings, r.malformed)
  }

  /** What one header adds to the findings already made, case by case. */
  lemma InspectStep(file: Bytes, offset: nat, found: seq<Inspection>, first: bool)
    ensures var header := Read(file, offset, 4);
            var whole := Extended(found, InspectBlocks(file, offset, first));
            if |header| != 4 then whole == Report(found + [Inspection(Malformed, offset, None)], true)
            else
              var kind, size := KindOf(header), SizeOf(header);
              var here := found + [Inspection(BlockKind(kind), offset, Some(size))];
              var end := offset + 4 + size;
              if end > |file| then whole == Report(found + [Inspection(Malformed, offset, Some(size))], true)
              else if first && (kind != 0 || size != 34) then
                whole == Report(here + [Inspection(Malformed, offset, Some(size))], true)
              else if IsLast(header) then whole == Report(here, false)
              else whole == Extended(here, InspectBlocks(file, end, false))
  {
    var header := Read(file, offset, 4);
    if |header| == 4 {
      var size := SizeOf(header);
      var here := Inspection(BlockKind(KindOf(header)), offset, Some(size));
      var broken := Inspection(Malformed, offset, Some(size));
      assert found + [here, broken] == found + [here] + [broken];
      var rest := InspectBlocks(file, offset + 4 + size, false).findings;
      assert found + ([here] + rest) == found + [here] + rest;
    }
  }

  method InspectAllBlocks(file: Bytes, start: nat, found: seq<Inspection>) returns (r: Report)
    ensures r == Extended(found, InspectBlocks(file, start, true))
  {
    var offset, isLast, firstBlock, findings := start, false, true, found;
    ghost var whole := Extended(found, InspectBlocks(file, start, true));
    while !isLast
      invariant isLast ==> Report(findings, false) == whole && offset <= |file|
      invariant !isLast ==> whole == Extended(findings, InspectBlocks(file, offset, firstBlock))
      decreases |file| - offset, !isLast
    {
      InspectStep(file, offset, findings, firstBlock);
      var header := Read(file, offset, 4);
      if |header| != 4 {
        return Report(findings + [Inspection(Malformed, offset, None)], true);
      }
      isLast := IsLast(header);
      var kind, size := KindOf(header), SizeOf(header);
      if offset + 4 + size > |file| {
        return Report(findings + [Inspection(Malformed, offset, Some(size))], true);
      }
      findings := findings + [Inspection(BlockKind(kind), offset, Some(size))];
      if firstBlock && (kind != 0 || size != 34) {
        return Report(findings + [Inspection(Malformed, offset, Some(size))], true);
      }
      firstBlock := false;
      offset := offset + 4 + size;
    }
    r := Report(findings, false);
  }

  method ParseFlac(file: Bytes) returns (r: Report)
    ensures r == InspectSpec(file)
  {
    var lead := InspectLead(Read(file, 0, 10), |file|);
    var findings := if lead.found then [Inspection(LeadingTagFound, 0, Some(lead.offset))] else [];
    if lead.malformed || Read(file, lead.offset, 4) != MARKER {
      return Report(findings + [Inspection(Malformed, lead.offset, None)], true);
    }
    findings := findings + [Inspection(MarkerFound, lead.offset, Some(4))];
    var blocks := InspectAllBlocks(file, lead.offset + 4, findings);
    return Extended(blocks.findings, Report(if blocks.malformed then [] else TrailerFindings(file), blocks.malformed));
  }

  // ---------------------------------------------------------------- agreement with the sanitizer

  function BlockFindings(blocks: seq<BlockAt>): seq<Inspection> {
    if blocks == [] then []
    else [Inspection(BlockKind(blocks[0].kind), blocks[0].offset, Some(blocks[0].size))] + BlockFindings(blocks[1..])
  }

  lemma {:induction false} SameBlocks(file: Bytes, offset: nat, first: bool)
    requires WalkBlocks(file, offset, first).Some?
    ensures InspectBlocks(file, offset, first)
            == Report(BlockFindings(WalkBlocks(file, offset, first).value.blocks), false)
    decreases |file| - offset
  {
    var header := Read(file, offset, 4);
    var here := BlockAt(offset, KindOf(header), SizeOf(header));
    if IsLast(header) {
      assert BlockFindings([here]) == [Inspection(BlockKind(here.kind), offset, Some(here.size))]
        + BlockFindings([here][1..]);
    } else {
      var end := offset + 4 + here.size;
      SameBlocks(file, end, false);
      assert ([here] + WalkBlocks(file, end, false).value.blocks)[1..] == WalkBlocks(file, end, false).value.blocks;
    }
  }

  lemma SameMetadata(file: Bytes, marker: nat)
    requires Metadata(file, marker).Some?
    ensures InspectMetadata(file, marker) == Report(BlockFindings(Metadata(file, marker).value.blocks), false)
  {
    SameBlocks(file, marker + 4, true);
  }

  /** A leading tag that carries a footer. */
  predicate HasFooter(file: Bytes) {
    var payload := Read(file, 0, 10);
    ID3 <= payload && |payload| == 10 && FooterSize(payload) != 0
  }

  /** Where the sanitizer accepts a tag, the inspector finds its end, short of the footer it does not know. */
  lemma SameLead(file: Bytes)
    requires LeadingTag(file).Some?
    ensures var n := LeadingTag(file).value;
            InspectLead(Read(file, 0, 10), |file|)
            == if n == 0 then Lead(0, false, false) else Lead(if HasFooter(file) then n - 10 else n, true, false)
    ensures HasFooter(file) ==> LeadingTag(file).value >= 20
  {
    var payload := Read(file, 0, 10);
    if ID3 <= payload {
      DecodersAgree(payload[6..10]);
      assert payload[..3] == ID3;
    }
  }

  lemma FooterIsNoMarker(file: Bytes)
    requires LeadingTag(file).Some? && HasFooter(file)
    ensures Read(file, LeadingTag(file).value - 10, 4) != MARKER
  {
    SameLead(file);
    var n, payload := LeadingTag(file).value, Read(file, 0, 10);
    assert Read(file, n - 10, 10) == FOOTER + payload[3..10];
    assert Read(file, n - 10, 4) == Read(file, n - 10, 10)[..4];
    assert Read(file, n - 10, 4)[0] == 0x33;
  }

  function AgreedFindings(file: Bytes, marker: nat, blocks: seq<BlockAt>): seq<Inspection> {
    (if marker == 0 then [] else [Inspection(LeadingTagFound, 0, Some(marker))])
    + [Inspection(MarkerFound, marker, Some(4))] + BlockFindings(blocks) + TrailerFindings(file)
  }

  lemma InspectedWithoutFooter(file: Bytes, marker: nat, blocks: seq<BlockAt>)
    requires InspectLead(Read(file, 0, 10), |file|)
             == if marker == 0 then Lead(0, false, false) else Lead(marker, true, false)
    requires Read(file, marker, 4) == MARKER
    requires InspectMetadata(file, marker) == Report(BlockFindings(blocks), false)
    ensures InspectSpec(file) == Report(AgreedFindings(file, marker, blocks), false)
  {
  }

  lemma InspectedWithFooter(file: Bytes, offset: nat)
    requires InspectLead(Read(file, 0, 10), |file|) == Lead(offset, true, false)
    requires Read(file, offset, 4) != MARKER
    ensures InspectSpec(file).malformed
  {
  }

  /**
   The inspector calls a file the sanitizer accepts malformed if and only if its tag has a footer;
   otherwise both name the same marker offset and the same blocks.
   */
  lemma InspectorAgrees(file: Bytes)
    requires ParseSpec(file).Some?
    ensures InspectSpec(file).malformed <==> HasFooter(file)
    ensures !HasFooter(file) ==>
              var l := ParseSpec(file).value;
              InspectSpec(file).findings == AgreedFindings(file, l.marker, l.blocks)
  {
    LayoutFacts(file);
    SameLead(file);
    var l := ParseSpec(file).value;
    if HasFooter(file) {
      FooterIsNoMarker(file);
      InspectedWithFooter(file, l.marker - 10);
    } else {
      SameMetadata(file, l.marker);
      InspectedWithoutFooter(file, l.marker, l.blocks);
    }
  }

  const EMPTY_TAG: Bytes := ID3 + [4, 0, 0x10, 0, 0, 0, 0] + (FOOTER + [4, 0, 0x10, 0, 0, 0, 0])

  lemma EmptyTagIsTag()
    ensures IsTag(EMPTY_TAG) && FooterSize(EMPTY_TAG[..10]) == 10
  {
    var header := EMPTY_TAG[..10];
    assert header == ID3 + [4, 0, 0x10, 0, 0, 0, 0];
    assert header[..3] == ID3 && header[6..10] == [0, 0, 0, 0];
    assert EMPTY_TAG[10..] == FOOTER + header[3..10];
  }

  /** An empty ID3v2.4 tag with a footer, a STREAMINFO block and one byte of audio: accepted, and called malformed. */
  lemma FooterIsCalledMalformed(streaminfo: Bytes, audio: Byte)
    requires |streaminfo| == 34
    ensures var file := Serialize(Container(EMPTY_TAG, [Block(0, streaminfo)], [audio], []));
            ParseSpec(file).Some? && InspectSpec(file).malformed
  {
    var c := Container(EMPTY_TAG, [Block(0, streaminfo)], [audio], []);
    EmptyTagIsTag();
    ParseSerialized(c);
    assert Read(Serialize(c), 0, 10) == EMPTY_TAG[..10];
    assert EMPTY_TAG[..10][..3] == ID3;
    InspectorAgrees(Serialize(c));
  }

  // ---------------------------------------------------------------- the MP3 inspector's leading tag

  /** Offset of the first byte after the tag, and whether the tag is malformed. */
  function Mp3Lead(payload: Bytes, fileSize: nat): Lead {
    if !(ID3 <= payload) then Lead(0, false, false)
    else if |payload| < 10 || payload[3] !in [2, 3, 4] || !IsSynchsafe(payload[6..10]) then Lead(0, false, true)
    else
      var total := 10 + SummedSize(payload[6..10]) + if payload[3] == 4 && payload[5] / 16 % 2 == 1 then 10 else 0;
      if total > fileSize then Lead(0, false, true) else Lead(total, true, false)
  }

  /** On every tag the sanitizer accepts, footer or not, the MP3 inspector skips the same bytes. */
  lemma Mp3SkipsTheSameTag(file: Bytes)
    requires LeadingTag(file).Some?
    ensures Mp3Lead(Read(file, 0, 10), |file|) == Lead(LeadingTag(file).value, LeadingTag(file).value != 0, false)
  {
    var payload := Read(file, 0, 10);
    if ID3 <= payload {
      DecodersAgree(payload[6..10]);
      assert payload[..3] == ID3;
    }
  }
}
