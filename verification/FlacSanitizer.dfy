/** The sanitizer: keep STREAMINFO and the audio, drop everything else, and check the result by reparsing it. */
module FlacSanitizer {
  import opened Wrappers
  import opened FlacBytes
  import opened FlacContainer
  import opened FlacGrammar

  datatype ToolState = Success | Failed | Missing | ExecutionFailed | TimedOut

  datatype SanitizeError = MalformedContainer | PreflightFailed | PostflightFailed | IdentityMismatch | FrameMismatch

  datatype StreamIdentity = StreamIdentity(md5: Bytes, sampleRate: nat, channels: nat, bitsPerSample: nat,
    totalSamples: nat)

  const CHUNK: nat := 1024 * 1024

  const HEADER: Bytes := [0x80, 0x00, 0x00, 0x22]

  /** The packed fields of a STREAMINFO payload: 20, 3, 5 and 36 bits (RFC 9639, section 8.2). */
  function IdentityOf(payload: Bytes): StreamIdentity
    requires |payload| == 34
  {
    var packed := FromBytes(payload[10..18]);
    StreamIdentity(
      payload[18..34], packed / 0x100000000000, packed / 0x20000000000 % 8 + 1, packed / 0x1000000000 % 32 + 1,
      packed % 0x1000000000)
  }

  predicate HasRepairableWrapper(l: Layout) {
    l.hasTrailer || exists i :: 0 <= i < |l.findings| && l.findings[i].kind.LeadingTagRemoved?
  }

  function Written(streaminfo: Bytes, audio: Bytes): Bytes {
    MARKER + HEADER + streaminfo + audio
  }

  function ValidateOutput(source: Layout, output: Layout): Option<SanitizeError> {
    if output.streaminfo != source.streaminfo
       || (|source.streaminfo| == 34 && IdentityOf(output.streaminfo) != IdentityOf(source.streaminfo)) then
      Some(IdentityMismatch)
    else if output.audioEnd - output.audioStart != source.audioEnd - source.audioStart then Some(FrameMismatch)
    else if output.findings != [] || output.hasTrailer then Some(MalformedContainer)
    else None
  }

  /** The bytes a sanitized file holds; `pre` and `post` are what the decoder says of input and output. */
  function SanitizeSpec(file: Bytes, pre: ToolState, post: ToolState): Result<Bytes, SanitizeError> {
    var source := ParseSpec(file);
    if source.None? then Err(MalformedContainer)
    else if !pre.Success? && !(pre.Failed? && HasRepairableWrapper(source.value)) then Err(PreflightFailed)
    else
      var audio := Read(file, source.value.audioStart, source.value.audioEnd - source.value.audioStart);
      Checked(source.value, Written(source.value.streaminfo, audio), post)
  }

  /** The bytes written, once they reparse to the same stream and the decoder takes them. */
  function Checked(source: Layout, written: Bytes, post: ToolState): Result<Bytes, SanitizeError> {
    var output := ParseSpec(written);
    if output.None? then Err(MalformedContainer)
    else
      var mismatch := ValidateOutput(source, output.value);
      if mismatch.Some? then Err(mismatch.value)
      else if !post.Success? then Err(PostflightFailed)
      else Ok(written)
  }

  // ---------------------------------------------------------------- the writer

  /** Copy the audio range in bounded chunks. */
  method CopyAudioFrames(file: Bytes, l: Layout, output: Bytes) returns (r: Result<Bytes, SanitizeError>)
    requires l.audioStart <= l.audioEnd <= |file|
    ensures r == Ok(output + file[l.audioStart..l.audioEnd])
  {
    var remaining, at, out := l.audioEnd - l.audioStart, l.audioStart, output;
    while remaining > 0
      invariant remaining == l.audioEnd - at && l.audioStart <= at <= l.audioEnd
      invariant out == output + file[l.audioStart..at]
      decreases remaining
    {
      var chunk := Read(file, at, if CHUNK < remaining then CHUNK else remaining);
      if chunk == [] {
        return Err(FrameMismatch);
      }
      assert file[l.audioStart..at + |chunk|] == file[l.audioStart..at] + chunk;
      out, at, remaining := out + chunk, at + |chunk|, remaining - |chunk|;
    }
    return Ok(out);
  }

  method SanitizeFlac(file: Bytes, pre: ToolState, post: ToolState) returns (r: Result<Bytes, SanitizeError>)
    ensures r == SanitizeSpec(file, pre, post)
  {
    var source := ParseLayout(file);
    if source.None? {
      return Err(MalformedContainer);
    }
    if !pre.Success? && !(pre.Failed? && HasRepairableWrapper(source.value)) {
      return Err(PreflightFailed);
    }
    LayoutFacts(file);
    var copied := CopyAudioFrames(file, source.value, MARKER + HEADER + source.value.streaminfo);
    var written := copied.value;
    assert written == Written(source.value.streaminfo,
                              Read(file, source.value.audioStart, source.value.audioEnd - source.value.audioStart));
    r := CheckWritten(source.value, written, post);
  }

  method CheckWritten(source: Layout, written: Bytes, post: ToolState) returns (r: Result<Bytes, SanitizeError>)
    ensures r == Checked(source, written, post)
  {
    var output := ParseLayout(written);
    if output.None? {
      return Err(MalformedContainer);
    }
    var mismatch := ValidateOutput(source, output.value);
    if mismatch.Some? {
      return Err(mismatch.value);
    }
    if !post.Success? {
      return Err(PostflightFailed);
    }
    return Ok(written);
  }

  // ---------------------------------------------------------------- identity

  lemma PackedFields(n: nat)
    ensures n == n / 0x100000000000 * 0x100000000000 + n / 0x20000000000 % 8 * 0x20000000000
                 + n / 0x1000000000 % 32 * 0x1000000000 + n % 0x1000000000
  {
    assert n / 0x1000000000 / 32 == n / 0x20000000000;
    assert n / 0x20000000000 / 8 == n / 0x100000000000;
  }

  /** The five identity fields say no more and no less than bytes 10 to 34 of the payload. */
  lemma IdentityDeterminesBytes(a: Bytes, b: Bytes)
    requires |a| == |b| == 34
    ensures IdentityOf(a) == IdentityOf(b) <==> a[10..34] == b[10..34]
  {
    assert a[10..34] == a[10..18] + a[18..34] && b[10..34] == b[10..18] + b[18..34];
    if IdentityOf(a) == IdentityOf(b) {
      PackedFields(FromBytes(a[10..18]));
      PackedFields(FromBytes(b[10..18]));
      FromBytesInjective(a[10..18], b[10..18]);
    }
    if a[10..34] == b[10..34] {
      assert a[10..18] == a[10..34][..8] && b[10..18] == b[10..34][..8];
      assert a[18..34] == a[10..34][8..] && b[18..34] == b[10..34][8..];
    }
  }

  // ---------------------------------------------------------------- what is written

  function Plain(streaminfo: Bytes, audio: Bytes, trailer: Bytes): Container {
    Container([], [Block(0, streaminfo)], audio, trailer)
  }

  lemma PlainBlocks(streaminfo: Bytes)
    requires |streaminfo| == 34
    ensures BlocksBytes([Block(0, streaminfo)]) == HEADER + streaminfo
    ensures Positions([Block(0, streaminfo)], 4) == [BlockAt(4, 0, 34)] && Dropped([BlockAt(4, 0, 34)]) == []
  {
    LastBlock([Block(0, streaminfo)], 4);
    assert HeaderBytes(0, true, 34) == HEADER;
    assert Dropped([BlockAt(4, 0, 34)][..0]) == [];
  }

  lemma WrittenIsLaid(streaminfo: Bytes, audio: Bytes, trailer: Bytes)
    requires |streaminfo| == 34
    ensures Laid(Written(streaminfo, audio + trailer), Plain(streaminfo, audio, trailer))
  {
    var c := Plain(streaminfo, audio, trailer);
    PlainBlocks(streaminfo);
    assert Serialize(c) == Written(streaminfo, audio + trailer) by {
      assert [] + MARKER == MARKER;
      assert MARKER + (HEADER + streaminfo) + audio + trailer == MARKER + HEADER + streaminfo + (audio + trailer);
    }
    SerializedIsLaid(Written(streaminfo, audio + trailer), c);
  }

  function PlainLayout(streaminfo: Bytes, size: nat): Layout {
    Layout(0, [BlockAt(4, 0, 34)], streaminfo, 42, 42 + size, [], false)
  }

  /** Without a tag at the end of the audio the output reparses to the same stream with no findings. */
  lemma CleanOutput(streaminfo: Bytes, audio: Bytes)
    requires |streaminfo| == 34 && audio != [] && !EndsInTag(audio)
    ensures ParseSpec(Written(streaminfo, audio)) == Some(PlainLayout(streaminfo, |audio|))
    ensures Written(streaminfo, audio)[42..42 + |audio|] == audio
  {
    assert audio + [] == audio;
    WrittenIsLaid(streaminfo, audio, []);
    PlainBlocks(streaminfo);
    LaidParses(Written(streaminfo, audio), Plain(streaminfo, audio, []));
  }

  /** With one, the output is taken for a file with a trailer: it parses to less audio, or to none. */
  lemma TaggedOutput(streaminfo: Bytes, audio: Bytes)
    requires |streaminfo| == 34 && EndsInTag(audio)
    ensures ParseSpec(Written(streaminfo, audio)).Some? <==> |audio| > 128
    ensures |audio| > 128 ==>
              var l := ParseSpec(Written(streaminfo, audio)).value;
              l.streaminfo == streaminfo && l.audioEnd - l.audioStart == |audio| - 128
  {
    var n := |audio| - 128;
    var front, trailer := audio[..n], audio[n..];
    assert audio == front + trailer;
    WrittenIsLaid(streaminfo, front, trailer);
    PlainBlocks(streaminfo);
    if n > 0 {
      LaidParses(Written(streaminfo, audio), Plain(streaminfo, front, trailer));
    } else {
      OnlyTrailer(Written(streaminfo, audio), streaminfo, trailer);
    }
  }

  lemma OnlyTrailer(file: Bytes, streaminfo: Bytes, trailer: Bytes)
    requires |streaminfo| == 34 && |trailer| == 128 && trailer[..3] == TAG
    requires Laid(file, Plain(streaminfo, [], trailer))
    ensures ParseSpec(file).None?
  {
    PlainBlocks(streaminfo);
    NoTagWithMarker(file);
    AtRead(file, 0, MARKER);
    WalkComplete(file, 4, [Block(0, streaminfo)], true);
    TrailerFound(file, 42, [], trailer);
  }

  /** The stream a file of this form is parsed to: the last of its tags is the trailer, the other one is audio. */
  lemma TwoTagsParse(streaminfo: Bytes, tag: Bytes)
    requires |streaminfo| == 34 && |tag| == 128 && tag[..3] == TAG
    ensures var parsed := ParseSpec(Written(streaminfo, tag + tag));
            && parsed.Some? && parsed.value.streaminfo == streaminfo
            && Read(Written(streaminfo, tag + tag), parsed.value.audioStart,
                    parsed.value.audioEnd - parsed.value.audioStart) == tag
  {
    var file, c := Written(streaminfo, tag + tag), Plain(streaminfo, tag, tag);
    WrittenIsLaid(streaminfo, tag, tag);
    PlainBlocks(streaminfo);
    LaidParses(file, c);
    AtRead(file, 42, tag);
  }

  // ---------------------------------------------------------------- theorems

  predicate DecoderAllows(file: Bytes, pre: ToolState, post: ToolState) {
    && post.Success?
    && (pre.Success? || (pre.Failed? && ParseSpec(file).Some? && HasRepairableWrapper(ParseSpec(file).value)))
  }

  function AudioOf(file: Bytes): (audio: Bytes)
    requires ParseSpec(file).Some?
  {
    var l := ParseSpec(file).value;
    Read(file, l.audioStart, l.audioEnd - l.audioStart)
  }

  lemma ParsedAudio(file: Bytes)
    requires ParseSpec(file).Some?
    ensures var l := ParseSpec(file).value;
            |l.streaminfo| == 34 && |AudioOf(file)| == l.audioEnd - l.audioStart > 0
  {
    ParsedIsContainer(file);
    LayoutFacts(file);
  }

  /**
   A well-formed file the decoder accepts is sanitized if and only if its audio does not itself end in a
   tag block; the output then reparses to the same STREAMINFO and audio with no findings.
   */
  lemma SanitizerIsExact(file: Bytes, pre: ToolState, post: ToolState)
    requires DecoderAllows(file, pre, post)
    ensures SanitizeSpec(file, pre, post).Ok? <==> ParseSpec(file).Some? && !EndsInTag(AudioOf(file))
    ensures SanitizeSpec(file, pre, post).Ok? ==>
              var out, l := SanitizeSpec(file, pre, post).value, ParseSpec(file).value;
              && ParseSpec(out) == Some(PlainLayout(l.streaminfo, |AudioOf(file)|))
              && out[42..] == AudioOf(file)
  {
    if ParseSpec(file).Some? {
      var l, audio := ParseSpec(file).value, AudioOf(file);
      ParsedAudio(file);
      if EndsInTag(audio) {
        TaggedOutput(l.streaminfo, audio);
      } else {
        CleanOutput(l.streaminfo, audio);
      }
    }
  }

  /** A file with two tag blocks after its metadata parses, and its sanitized output is refused. */
  lemma TwoTagsAreRefused(streaminfo: Bytes, rest: Bytes)
    requires |streaminfo| == 34 && |rest| == 125
    ensures var file := Written(streaminfo, TAG + rest + (TAG + rest));
            && ParseSpec(file).Some? && AudioOf(file) == TAG + rest
            && SanitizeSpec(file, Success, Success) == Err(MalformedContainer)
  {
    var tag := TAG + rest;
    assert tag[..3] == TAG && tag[0..] == tag;
    assert TAG + rest + (TAG + rest) == tag + tag;
    TwoTagsParse(streaminfo, tag);
    TaggedOutput(streaminfo, tag);
  }

  /** Sanitizing a sanitized file changes no byte. */
  lemma SanitizerIsIdempotent(file: Bytes, pre: ToolState, post: ToolState)
    requires SanitizeSpec(file, pre, post).Ok?
    ensures SanitizeSpec(SanitizeSpec(file, pre, post).value, Success, Success) == SanitizeSpec(file, pre, post)
  {
    var out, l, audio := SanitizeSpec(file, pre, post).value, ParseSpec(file).value, AudioOf(file);
    ParsedAudio(file);
    SanitizerIsExact(file, pre, post);
    CleanOutput(l.streaminfo, audio);
    assert AudioOf(out) == audio;
  }
}
