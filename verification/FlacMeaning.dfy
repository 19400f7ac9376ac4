/** What the parser, the sanitizer and the inspectors say of a file, in terms of its bytes alone. */
module FlacMeaning {
  import opened Wrappers
  import opened FlacBytes
  import opened FlacContainer
  import opened FlacGrammar
  import opened FlacSanitizer
  import opened FlacInspector

  // ---------------------------------------------------------------- the leading tag

  ghost predicate StartsWithId3(file: Bytes) {
    |file| >= 3 && file[0] == 0x49 && file[1] == 0x44 && file[2] == 0x33
  }

  /** The size four bytes of seven bits each spell. */
  ghost function SevenBitSize(file: Bytes): nat
    requires |file| >= 10
  {
    file[6] as int * 2097152 + file[7] as int * 16384 + file[8] as int * 128 + file[9] as int
  }

  /** Version 2.4 with the footer flag. */
  ghost predicate FlagsFooter(file: Bytes)
    requires |file| >= 10
  {
    file[3] == 4 && file[5] / 16 % 2 == 1
  }

  ghost predicate HasPlainSize(file: Bytes)
    requires |file| >= 10
  {
    file[6] < 128 && file[7] < 128 && file[8] < 128 && file[9] < 128
  }

  /** A whole tag of n bytes leads the file: a known version, no unknown flag, and the footer it announces. */
  ghost predicate IsLeadingTag(file: Bytes, n: nat) {
    && StartsWithId3(file) && |file| >= 10
    && (file[3] == 2 || file[3] == 3 || file[3] == 4) && file[5] % 16 == 0 && HasPlainSize(file)
    && n == 10 + SevenBitSize(file) + (if FlagsFooter(file) then 10 else 0) && n <= |file|
    && (FlagsFooter(file) ==>
          && file[n - 10] == 0x33 && file[n - 9] == 0x44 && file[n - 8] == 0x49
          && file[n - 7..n] == file[3..10])
  }

  lemma Id3Means(file: Bytes)
    ensures ID3 <= Read(file, 0, 10) <==> StartsWithId3(file)
    ensures |Read(file, 0, 10)| == 10 <==> |file| >= 10
    ensures forall i :: 0 <= i < |Read(file, 0, 10)| ==> Read(file, 0, 10)[i] == file[i]
  {
    if StartsWithId3(file) {
      assert Read(file, 0, 10)[..3] == ID3;
    }
  }

  lemma SizesMean(file: Bytes)
    requires |file| >= 10
    ensures IsSynchsafe(Read(file, 0, 10)[6..10]) <==> HasPlainSize(file)
    ensures SummedSize(Read(file, 0, 10)[6..10]) == SevenBitSize(file)
    ensures HasPlainSize(file) ==> MaskedSize(Read(file, 0, 10)[6..10]) == SevenBitSize(file)
  {
    var b := Read(file, 0, 10)[6..10];
    assert b == [file[6], file[7], file[8], file[9]];
    if HasPlainSize(file) {
      DecodersAgree(b);
    }
  }

  lemma FooterMeans(file: Bytes, n: nat)
    requires 20 <= n <= |file|
    ensures Read(file, n - 10, 10) == FOOTER + Read(file, 0, 10)[3..10] <==>
              && file[n - 10] == 0x33 && file[n - 9] == 0x44 && file[n - 8] == 0x49
              && file[n - 7..n] == file[3..10]
  {
    var footer := Read(file, n - 10, 10);
    assert footer == [file[n - 10], file[n - 9], file[n - 8]] + file[n - 7..n];
    assert Read(file, 0, 10)[3..10] == file[3..10];
    if footer == FOOTER + file[3..10] {
      assert footer[0] == 0x33 && footer[1] == 0x44 && footer[2] == 0x49 && footer[3..] == file[3..10];
    }
  }

  /** The bytes the sanitizer takes for a leading tag: none without the three letters, or a whole tag. */
  lemma LeadingTagMeans(file: Bytes, n: nat)
    ensures LeadingTag(file) == Some(n) <==>
            if StartsWithId3(file) then IsLeadingTag(file, n) else n == 0
  {
    Id3Means(file);
    if StartsWithId3(file) && |file| >= 10 {
      var payload := Read(file, 0, 10);
      SizesMean(file);
      assert payload[..3] == ID3;
      var total := 10 + SevenBitSize(file) + if FlagsFooter(file) then 10 else 0;
      if FlagsFooter(file) && total <= |file| {
        FooterMeans(file, total);
      }
    }
  }

  // ---------------------------------------------------------------- the metadata blocks

  ghost function SizeAt(file: Bytes, offset: nat): nat
    requires offset + 4 <= |file|
  {
    file[offset + 1] as int * 65536 + file[offset + 2] as int * 256 + file[offset + 3] as int
  }

  /** One block after the other, STREAMINFO of 34 bytes first and only first, up to the one flagged as the last. */
  ghost predicate IsChain(file: Bytes, offset: nat, first: bool, blocks: seq<BlockAt>, end: nat)
    decreases |blocks|
  {
    && blocks != [] && offset + 4 <= |file|
    && blocks[0] == BlockAt(offset, file[offset] % 128, SizeAt(file, offset))
    && offset + 4 + blocks[0].size <= |file|
    && (if first then blocks[0].kind == 0 && blocks[0].size == 34 else blocks[0].kind != 0)
    && if file[offset] >= 128 then |blocks| == 1 && end == offset + 4 + blocks[0].size
       else IsChain(file, offset + 4 + blocks[0].size, false, blocks[1..], end)
  }

  lemma HeaderMeans(file: Bytes, offset: nat)
    ensures |Read(file, offset, 4)| == 4 <==> offset + 4 <= |file|
    ensures offset + 4 <= |file| ==>
              var header := Read(file, offset, 4);
              && KindOf(header) == file[offset] % 128 && SizeOf(header) == SizeAt(file, offset)
              && (IsLast(header) <==> file[offset] >= 128)
  {
  }

  lemma {:induction false} WalkIsChain(file: Bytes, offset: nat, first: bool)
    requires WalkBlocks(file, offset, first).Some?
    ensures var walk := WalkBlocks(file, offset, first).value; IsChain(file, offset, first, walk.blocks, walk.end)
    decreases |file| - offset
  {
    HeaderMeans(file, offset);
    var size := SizeAt(file, offset);
    if file[offset] < 128 {
      WalkIsChain(file, offset + 4 + size, false);
      var rest := WalkBlocks(file, offset + 4 + size, false).value;
      assert ([BlockAt(offset, file[offset] % 128, size)] + rest.blocks)[1..] == rest.blocks;
    }
  }

  lemma {:induction false} ChainIsWalked(file: Bytes, offset: nat, first: bool, blocks: seq<BlockAt>, end: nat)
    requires IsChain(file, offset, first, blocks, end)
    ensures WalkBlocks(file, offset, first) == Some(Walk(blocks, end))
    decreases |blocks|
  {
    HeaderMeans(file, offset);
    var here := blocks[0];
    WalkFolds(file, offset, here.kind, here.size, file[offset] >= 128, first);
    if file[offset] < 128 {
      assert blocks == [here] + blocks[1..];
      ChainIsWalked(file, offset + 4 + here.size, false, blocks[1..], end);
    } else {
      assert blocks == [here];
    }
  }

  // ---------------------------------------------------------------- the whole layout

  ghost predicate EndsInTrailer(file: Bytes, start: nat) {
    && start + 128 <= |file|
    && file[|file| - 128] == 0x54 && file[|file| - 127] == 0x41 && file[|file| - 126] == 0x47
  }

  /** One finding for a leading tag, one for each block but the first, in order, and one for a trailer. */
  ghost predicate IsFindings(findings: seq<Finding>, marker: nat, blocks: seq<BlockAt>, audioEnd: nat, trailer: bool) {
    var lead := if marker > 0 then [Finding(LeadingTagRemoved, 0, marker)] else [];
    var last := if trailer then [Finding(TrailingTagRemoved, audioEnd, 128)] else [];
    exists dropped :: findings == lead + dropped + last && DropsBlocks(dropped, blocks)
  }

  ghost predicate DropsBlocks(dropped: seq<Finding>, blocks: seq<BlockAt>) {
    |dropped| + 1 == |blocks| && forall i :: 0 <= i < |dropped| ==>
      dropped[i] == Finding(MetadataBlockDropped, blocks[i + 1].offset, blocks[i + 1].size)
  }

  ghost predicate IsMarkerAt(file: Bytes, offset: nat) {
    && offset + 4 <= |file| && file[offset] == 0x66 && file[offset + 1] == 0x4C
    && file[offset + 2] == 0x61 && file[offset + 3] == 0x43
  }

  /** Tag, marker, blocks, audio and trailer, one after the other. */
  ghost predicate IsLayout(file: Bytes, l: Layout) {
    && (if StartsWithId3(file) then IsLeadingTag(file, l.marker) else l.marker == 0)
    && IsMarkerAt(file, l.marker) && IsChain(file, l.marker + 4, true, l.blocks, l.audioStart)
    && l.marker + 42 <= |file| && l.streaminfo == file[l.marker + 8..l.marker + 42]
    && (l.hasTrailer <==> EndsInTrailer(file, l.audioStart))
    && l.audioEnd == (if l.hasTrailer then |file| - 128 else |file|) && l.audioStart < l.audioEnd
    && IsFindings(l.findings, l.marker, l.blocks, l.audioEnd, l.hasTrailer)
  }

  lemma MarkerMeans(file: Bytes, offset: nat)
    ensures Read(file, offset, 4) == MARKER <==> IsMarkerAt(file, offset)
  {
    var read := Read(file, offset, 4);
    if offset + 4 <= |file| {
      assert read == [file[offset], file[offset + 1], file[offset + 2], file[offset + 3]];
    }
    if read == MARKER {
      assert read[0] == 0x66 && read[1] == 0x4C && read[2] == 0x61 && read[3] == 0x43;
    }
  }

  lemma TrailerMeans(file: Bytes, start: nat)
    ensures HasTrailer(file, start) <==> EndsInTrailer(file, start)
  {
    if start + 128 <= |file| {
      var read := Read(file, |file| - 128, 3);
      assert read == [file[|file| - 128], file[|file| - 127], file[|file| - 126]];
      if read == TAG {
        assert read[0] == 0x54 && read[1] == 0x41 && read[2] == 0x47;
      }
    }
  }

  lemma {:induction false} ChainKinds(file: Bytes, offset: nat, first: bool, blocks: seq<BlockAt>, end: nat)
    requires IsChain(file, offset, first, blocks, end)
    ensures first ==> blocks[0].kind == 0
    ensures forall i :: (if first then 1 else 0) <= i < |blocks| ==> blocks[i].kind != 0
    decreases |blocks|
  {
    if file[offset] < 128 {
      ChainKinds(file, offset + 4 + blocks[0].size, false, blocks[1..], end);
      forall i | 0 < i < |blocks| ensures blocks[i].kind != 0 {
        assert blocks[1..][i - 1] == blocks[i];
      }
    }
  }

  lemma {:induction false} DroppedIs(blocks: seq<BlockAt>)
    requires blocks != [] && blocks[0].kind == 0 && forall i :: 1 <= i < |blocks| ==> blocks[i].kind != 0
    ensures DropsBlocks(Dropped(blocks), blocks)
    decreases |blocks|
  {
    var before := blocks[..|blocks| - 1];
    if before == [] {
      assert Dropped(before) == [];
    } else {
      assert before[0] == blocks[0];
      DroppedIs(before);
    }
  }

  lemma DropsBlocksOnce(a: seq<Finding>, b: seq<Finding>, blocks: seq<BlockAt>)
    requires DropsBlocks(a, blocks) && DropsBlocks(b, blocks)
    ensures a == b
  {
  }

  /** What the parser found before it looked for audio. */
  lemma ParsedHas(file: Bytes) returns (marker: nat, walk: Walk)
    requires ParseSpec(file).Some?
    ensures LeadingTag(file) == Some(marker) && Read(file, marker, 4) == MARKER
    ensures WalkBlocks(file, marker + 4, true) == Some(walk) && walk.end <= |file|
    ensures LayoutFrom(file, marker, walk) == ParseSpec(file)
  {
    marker := LeadingTag(file).value;
    walk := Metadata(file, marker).value;
  }

  lemma FindingsMean(file: Bytes, marker: nat, walk: Walk)
    requires walk.end <= |file| && LayoutFrom(file, marker, walk).Some?
    requires DropsBlocks(Dropped(walk.blocks), walk.blocks)
    ensures var l := LayoutFrom(file, marker, walk).value;
            IsFindings(l.findings, marker, walk.blocks, l.audioEnd, l.hasTrailer)
  {
    var l := LayoutFrom(file, marker, walk).value;
    assert l.findings == LeadFindings(marker) + Dropped(walk.blocks)
                         + (if l.hasTrailer then [Finding(TrailingTagRemoved, l.audioEnd, 128)] else []);
  }

  lemma ParsedIsLayout(file: Bytes)
    requires ParseSpec(file).Some?
    ensures IsLayout(file, ParseSpec(file).value)
  {
    var marker, walk := ParsedHas(file);
    WalkIsChain(file, marker + 4, true);
    ChainKinds(file, marker + 4, true, walk.blocks, walk.end);
    DroppedIs(walk.blocks);
    FindingsMean(file, marker, walk);
    LayoutHolds(file, marker, walk, ParseSpec(file).value);
  }

  lemma LayoutHolds(file: Bytes, marker: nat, walk: Walk, l: Layout)
    requires LeadingTag(file) == Some(marker) && Read(file, marker, 4) == MARKER
    requires IsChain(file, marker + 4, true, walk.blocks, walk.end)
    requires walk.end <= |file| && LayoutFrom(file, marker, walk) == Some(l)
    requires IsFindings(l.findings, marker, walk.blocks, l.audioEnd, l.hasTrailer)
    ensures IsLayout(file, l)
  {
    LeadingTagMeans(file, marker);
    MarkerMeans(file, marker);
    TrailerMeans(file, walk.end);
    FirstBlockHolds(file, marker, walk);
  }

  lemma FirstBlockHolds(file: Bytes, marker: nat, walk: Walk)
    requires IsChain(file, marker + 4, true, walk.blocks, walk.end)
    ensures marker + 42 <= |file| && Read(file, marker + 8, 34) == file[marker + 8..marker + 42]
  {
  }

  lemma LayoutIsParsed(file: Bytes, l: Layout)
    requires IsLayout(file, l)
    ensures ParseSpec(file) == Some(l)
  {
    LeadingTagMeans(file, l.marker);
    MarkerMeans(file, l.marker);
    ChainIsWalked(file, l.marker + 4, true, l.blocks, l.audioStart);
    ChainKinds(file, l.marker + 4, true, l.blocks, l.audioStart);
    DroppedIs(l.blocks);
    TrailerMeans(file, l.audioStart);
    var last := if l.hasTrailer then [Finding(TrailingTagRemoved, l.audioEnd, 128)] else [];
    var dropped :| l.findings == LeadFindings(l.marker) + dropped + last && DropsBlocks(dropped, l.blocks);
    DropsBlocksOnce(dropped, Dropped(l.blocks), l.blocks);
    ParsedWith(file, l.marker, Walk(l.blocks, l.audioStart), l);
  }

  /** The parser accepts a file with this layout exactly when its bytes have it. */
  lemma LayoutMeans(file: Bytes, l: Layout)
    ensures ParseSpec(file) == Some(l) <==> IsLayout(file, l)
  {
    if ParseSpec(file) == Some(l) {
      ParsedIsLayout(file);
    }
    if IsLayout(file, l) {
      LayoutIsParsed(file, l);
    }
  }

  // ---------------------------------------------------------------- the stream identity

  ghost function FourBytes(p: Bytes, i: nat): nat
    requires i + 4 <= |p|
  {
    p[i] as int * 16777216 + p[i + 1] as int * 65536 + p[i + 2] as int * 256 + p[i + 3] as int
  }

  lemma FromEight(b: Bytes)
    requires |b| == 8
    ensures FromBytes(b) == FourBytes(b, 0) * 4294967296 + FourBytes(b, 4)
  {
    var a := [b[0], b[1], b[2], b[3]];
    assert b == a + [b[4], b[5], b[6], b[7]];
    FromFour(a);
    FromFourMore(a, [b[4], b[5], b[6], b[7]]);
  }

  lemma OneMoreByte(b: Bytes, last: Byte)
    ensures FromBytes(b + [last]) == FromBytes(b) * 256 + last as int
  {
    assert (b + [last])[..|b|] == b;
  }

  lemma FromFour(b: Bytes)
    requires |b| == 4
    ensures FromBytes(b) == FourBytes(b, 0)
  {
    FromFourMore([], b);
    assert [] + b == b;
  }

  lemma FromFourMore(a: Bytes, b: Bytes)
    requires |b| == 4
    ensures FromBytes(a + b) == FromBytes(a) * 4294967296 + FourBytes(b, 0)
  {
    OneMoreByte(a, b[0]);
    OneMoreByte(a + [b[0]], b[1]);
    OneMoreByte(a + [b[0]] + [b[1]], b[2]);
    OneMoreByte(a + [b[0]] + [b[1]] + [b[2]], b[3]);
    assert a + [b[0]] + [b[1]] + [b[2]] + [b[3]] == a + b;
  }

  /** The fields of STREAMINFO where they stand: 20 bits of rate, 3 of channels, 5 of depth and 36 of samples. */
  lemma IdentityMeans(p: Bytes)
    requires |p| == 34
    ensures var i := IdentityOf(p);
            && i.md5 == p[18..34]
            && i.sampleRate == p[10] as int * 4096 + p[11] as int * 16 + p[12] as int / 16
            && i.channels == p[12] as int / 2 % 8 + 1
            && i.bitsPerSample == p[12] as int % 2 * 16 + p[13] as int / 16 + 1
            && i.totalSamples == p[13] as int % 16 * 4294967296 + FourBytes(p, 14)
  {
    var high := p[10] as int * 65536 + p[11] as int * 256 + p[12] as int;
    PackedIs(p);
    PackedDigits(high, p[13], FourBytes(p, 14));
    RateDigits(p[10], p[11], p[12]);
    ChannelDigits(p[10], p[11], p[12]);
    DepthDigits(p[10], p[11], p[12], p[13]);
  }

  lemma PackedIs(p: Bytes)
    requires |p| == 34
    ensures FourBytes(p, 14) < 4294967296
    ensures FromBytes(p[10..18])
            == ((p[10] as int * 65536 + p[11] as int * 256 + p[12] as int) * 256 + p[13] as int) * 4294967296
               + FourBytes(p, 14)
  {
    var b := p[10..18];
    FromEight(b);
    assert FourBytes(b, 0) == FourBytes(p, 10) && FourBytes(b, 4) == FourBytes(p, 14);
  }

  lemma PackedDigits(high: nat, middle: Byte, low: nat)
    requires low < 4294967296
    ensures var n := (high * 256 + middle as int) * 4294967296 + low;
            && n / 0x1000000000 == high * 16 + middle as int / 16
            && n / 0x20000000000 == high / 2 && n / 0x100000000000 == high / 16
            && n % 0x1000000000 == middle as int % 16 * 4294967296 + low
  {
    var n := (high * 256 + middle as int) * 4294967296 + low;
    var q, r := high * 16 + middle as int / 16, middle as int % 16 * 4294967296 + low;
    assert n == q * 0x1000000000 + r && 0 <= r < 0x1000000000;
    assert n / 0x1000000000 == q && n % 0x1000000000 == r;
    assert n / 0x1000000000 / 32 == n / 0x20000000000 && q / 32 == high / 2;
    assert n / 0x1000000000 / 256 == n / 0x100000000000 && q / 256 == high / 16;
  }

  lemma RateDigits(a: Byte, b: Byte, c: Byte)
    ensures (a as int * 65536 + b as int * 256 + c as int) / 16 == a as int * 4096 + b as int * 16 + c as int / 16
  {
  }

  lemma ChannelDigits(a: Byte, b: Byte, c: Byte)
    ensures (a as int * 65536 + b as int * 256 + c as int) / 2 % 8 == c as int / 2 % 8
  {
    assert (a as int * 65536 + b as int * 256 + c as int) / 2 == (a as int * 4096 + b as int * 16) * 8 + c as int / 2;
  }

  lemma DepthDigits(a: Byte, b: Byte, c: Byte, d: Byte)
    ensures ((a as int * 65536 + b as int * 256 + c as int) * 16 + d as int / 16) % 32
            == c as int % 2 * 16 + d as int / 16
  {
    var k := a as int * 32768 + b as int * 128 + c as int / 2;
    assert (a as int * 65536 + b as int * 256 + c as int) * 16 + d as int / 16
        == k * 32 + (c as int % 2 * 16 + d as int / 16);
  }

  // ---------------------------------------------------------------- the sanitizer's verdicts

  /** A trailer or a leading tag, which a decoder may reject although the stream is sound. */
  ghost predicate IsWrapped(l: Layout) {
    l.hasTrailer || l.marker > 0
  }

  lemma WrapperMeans(file: Bytes)
    requires ParseSpec(file).Some?
    ensures HasRepairableWrapper(ParseSpec(file).value) <==> IsWrapped(ParseSpec(file).value)
  {
    var l := ParseSpec(file).value;
    ParsedIsLayout(file);
    var last := if l.hasTrailer then [Finding(TrailingTagRemoved, l.audioEnd, 128)] else [];
    var lead := if l.marker > 0 then [Finding(LeadingTagRemoved, 0, l.marker)] else [];
    var dropped :| l.findings == lead + dropped + last && DropsBlocks(dropped, l.blocks);
    if l.marker > 0 {
      assert l.findings[0].kind.LeadingTagRemoved?;
    } else {
      NoLeadFinding(l.findings, dropped, last, l.blocks);
    }
  }

  lemma NoLeadFinding(findings: seq<Finding>, dropped: seq<Finding>, last: seq<Finding>, blocks: seq<BlockAt>)
    requires findings == [] + dropped + last && DropsBlocks(dropped, blocks)
    requires forall i :: 0 <= i < |last| ==> last[i].kind.TrailingTagRemoved?
    ensures forall i :: 0 <= i < |findings| ==> !findings[i].kind.LeadingTagRemoved?
  {
    assert findings == dropped + last;
    forall i | 0 <= i < |findings| ensures !findings[i].kind.LeadingTagRemoved? {
      assert findings[i] == if i < |dropped| then dropped[i] else last[i - |dropped|];
    }
  }

  /** The audio ends in 128 bytes that begin with the letters of a trailing tag. */
  ghost predicate EndsLikeTrailer(audio: Bytes) {
    && |audio| >= 128
    && audio[|audio| - 128] == 0x54 && audio[|audio| - 127] == 0x41 && audio[|audio| - 126] == 0x47
  }

  lemma EndsMean(audio: Bytes)
    ensures EndsInTag(audio) <==> EndsLikeTrailer(audio)
  {
    if |audio| >= 128 {
      var end := audio[|audio| - 128..][..3];
      assert end == [audio[|audio| - 128], audio[|audio| - 127], audio[|audio| - 126]];
      if end == TAG {
        assert end[0] == 0x54 && end[1] == 0x41 && end[2] == 0x47;
      }
    }
  }

  ghost predicate IsTolerated(pre: ToolState, l: Layout) {
    pre == Success || (pre == Failed && IsWrapped(l))
  }

  /** Every verdict of the sanitizer: what is wrong first, or marker, bare STREAMINFO header, payload and audio. */
  lemma SanitizerVerdict(file: Bytes, pre: ToolState, post: ToolState)
    ensures ParseSpec(file) == None ==> SanitizeSpec(file, pre, post) == Err(MalformedContainer)
    ensures ParseSpec(file) != None ==>
              var l := ParseSpec(file).value;
              && l.audioStart <= l.audioEnd <= |file|
              && var audio := file[l.audioStart..l.audioEnd];
                 SanitizeSpec(file, pre, post) ==
                 if !IsTolerated(pre, l) then Err(PreflightFailed)
                 else if EndsLikeTrailer(audio) then Err(if |audio| == 128 then MalformedContainer else FrameMismatch)
                 else if post != Success then Err(PostflightFailed)
                 else Ok([0x66, 0x4C, 0x61, 0x43, 0x80, 0, 0, 0x22] + l.streaminfo + audio)
  {
    if ParseSpec(file).Some? {
      var l := ParseSpec(file).value;
      WrapperMeans(file);
      LayoutFacts(file);
      ParsedAudio(file);
      var audio := AudioOf(file);
      assert audio == file[l.audioStart..l.audioEnd];
      EndsMean(audio);
      CheckedMeans(l, audio, post);
      assert MARKER + HEADER == [0x66, 0x4C, 0x61, 0x43, 0x80, 0, 0, 0x22];
    }
  }

  lemma CheckedMeans(l: Layout, audio: Bytes, post: ToolState)
    requires |l.streaminfo| == 34 && audio != [] && |audio| == l.audioEnd - l.audioStart
    ensures var written := Written(l.streaminfo, audio);
            Checked(l, written, post) ==
            if EndsInTag(audio) then Err(if |audio| == 128 then MalformedContainer else FrameMismatch)
            else if post != Success then Err(PostflightFailed) else Ok(written)
  {
    if EndsInTag(audio) {
      TaggedOutput(l.streaminfo, audio);
    } else {
      CleanOutput(l.streaminfo, audio);
    }
  }

  // ---------------------------------------------------------------- the inspector

  /** The name the inspector gives a block of this type. */
  ghost predicate IsNamed(kind: nat, name: InspectionKind) {
    if kind == 0 then name == Streaminfo
    else if kind == 1 then name == Padding
    else if kind == 2 then name == Application
    else if kind == 4 then name == VorbisComment
    else if kind == 6 then name == Picture
    else name == MetadataBlock
  }

  /** Where the inspector takes the marker to be: after a tag of any version, flags and footer ignored. */
  ghost predicate IsInspectedLead(file: Bytes, lead: Lead) {
    if !StartsWithId3(file) then lead == Lead(0, false, false)
    else if |file| < 10 || !HasPlainSize(file) || 10 + SevenBitSize(file) > |file| then lead == Lead(0, false, true)
    else lead == Lead(10 + SevenBitSize(file), true, false)
  }

  lemma InspectedLeadMeans(file: Bytes)
    ensures IsInspectedLead(file, InspectLead(Read(file, 0, 10), |file|))
  {
    Id3Means(file);
    if |file| >= 10 {
      SizesMean(file);
    }
  }

  /** What the blocks from here on are called, up to the last one or the first that is wrong. */
  ghost predicate IsBlockReport(file: Bytes, offset: nat, first: bool, r: Report)
    decreases |r.findings|
  {
    var malformed := Report([Inspection(Malformed, offset, None)], true);
    if offset + 4 > |file| then r == malformed
    else
      var kind, size := file[offset] % 128, SizeAt(file, offset);
      if offset + 4 + size > |file| then r == Report([Inspection(Malformed, offset, Some(size))], true)
      else
        && r.findings != [] && r.findings[0].offset == offset && r.findings[0].size == Some(size)
        && IsNamed(kind, r.findings[0].kind)
        && if first && (kind != 0 || size != 34) then
             r.findings[1..] == [Inspection(Malformed, offset, Some(size))] && r.malformed
           else if file[offset] >= 128 then r.findings[1..] == [] && !r.malformed
           else IsBlockReport(file, offset + 4 + size, false, Report(r.findings[1..], r.malformed))
  }

  lemma {:induction false} BlockReportMeans(file: Bytes, offset: nat, first: bool)
    ensures IsBlockReport(file, offset, first, InspectBlocks(file, offset, first))
    decreases |file| - offset
  {
    HeaderMeans(file, offset);
    var r := InspectBlocks(file, offset, first);
    if offset + 4 <= |file| {
      var next := offset + 4 + SizeAt(file, offset);
      if next <= |file| && file[offset] < 128 && !(first && (file[offset] % 128 != 0 || SizeAt(file, offset) != 34)) {
        BlockReportMeans(file, next, false);
        var rest := InspectBlocks(file, next, false);
        assert r.findings[1..] == rest.findings;
      }
    }
  }

  /** The whole report of any file: its tag, its marker, its blocks, and a trailer if the container is sound. */
  lemma InspectionMeans(file: Bytes) returns (lead: Lead, blocks: Report)
    ensures IsInspectedLead(file, lead)
    ensures IsBlockReport(file, lead.offset + 4, true, blocks)
    ensures var found := if lead.found then [Inspection(LeadingTagFound, 0, Some(lead.offset))] else [];
            InspectSpec(file) ==
            if lead.malformed || !IsMarkerAt(file, lead.offset)
            then Report(found + [Inspection(Malformed, lead.offset, None)], true)
            else
              Report(found + [Inspection(MarkerFound, lead.offset, Some(4))] + blocks.findings
                     + (if !blocks.malformed && EndsInTrailer(file, 0)
                        then [Inspection(TrailingTagFound, |file| - 128, Some(128))] else []),
                     blocks.malformed)
  {
    lead := InspectLead(Read(file, 0, 10), |file|);
    blocks := InspectMetadata(file, lead.offset);
    InspectedLeadMeans(file);
    BlockReportMeans(file, lead.offset + 4, true);
    MarkerMeans(file, lead.offset);
    TrailerMeans(file, 0);
  }

  /** The MP3 inspector's reading of a tag: known versions only, the footer skipped unread, other flags ignored. */
  lemma Mp3LeadMeans(file: Bytes)
    ensures Mp3Lead(Read(file, 0, 10), |file|) ==
            if !StartsWithId3(file) then Lead(0, false, false)
            else if |file| < 10 || !(file[3] == 2 || file[3] == 3 || file[3] == 4) || !HasPlainSize(file) then
              Lead(0, false, true)
            else
              var total := 10 + SevenBitSize(file) + if FlagsFooter(file) then 10 else 0;
              if total > |file| then Lead(0, false, true) else Lead(total, true, false)
  {
    Id3Means(file);
    if |file| >= 10 {
      SizesMean(file);
    }
  }
}
