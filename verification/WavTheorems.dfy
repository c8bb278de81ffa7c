/** What the recorder writes is accepted by the upload check, and no sample wraps. */
module WavTheorems {
  import opened Text
  import opened Wav

  // ---------------------------------------------------------------- fields

  lemma Le16ReadsBack(v: nat)
    requires v < 65536
    ensures FromLe16(Le16(v)) == v
  {
  }

  lemma Le32ReadsBack(v: nat)
    requires v < 0x1_0000_0000
    ensures FromLe32(Le32(v)) == v
  {
    assert Le32(v)[..2] == Le16(v) && Le32(v)[2..] == Le16(v / 65536);
    Low16(v);
    Le16ReadsBack(v / 65536);
  }

  lemma Low16(v: nat)
    ensures FromLe16(Le16(v)) == v % 65536
  {
    assert v % 65536 == v % 256 + 256 * (v / 256 % 256);
  }

  ghost predicate SevenBit(text: string) { forall i: nat | i < |text| :: text[i] as int < 128 }

  lemma AsciiAppend(bytes: seq<byte>, b: byte)
    ensures Ascii(bytes + [b]) == Ascii(bytes) + [(b % 128) as char]
  {
    assert (bytes + [b])[..|bytes|] == bytes;
  }

  lemma {:induction false} TagReadsBack(text: string)
    requires SevenBit(text)
    ensures Ascii(Tag(text)) == text
  {
    if text != "" {
      var k := |text| - 1;
      TagReadsBack(text[..k]);
      AsciiAppend(Tag(text[..k]), text[k] as int % 256);
    }
  }

  // ---------------------------------------------------------------- where the encoder puts them

  lemma RiffFields(n: nat, rest: seq<byte>)
    ensures var b := RiffHeader(n) + rest;
            b[0..4] == Tag(RIFF) && b[8..12] == Tag(WAVE)
  {
  }

  lemma FormatFields(n: nat, rate: nat, rest: seq<byte>)
    ensures var b := FormatStart(n, rate) + rest;
      && b[..12] == RiffHeader(n) && b[12..16] == Tag(FMT_TAG) && b[16..20] == Le32(16)
      && b[20..22] == Le16(1) && b[22..24] == Le16(1) && b[24..28] == Le32(rate)
  {
  }

  lemma HeaderFields(n: nat, rate: nat, rest: seq<byte>)
    ensures var b := Header(n, rate) + rest;
      && b[..28] == FormatStart(n, rate) && b[34..36] == Le16(16)
      && b[36..40] == Tag(DATA_TAG) && b[40..44] == Le32(n * 2)
  {
  }

  /** Every field the upload check reads. */
  lemma FileFields(samples: seq<real>, rate: nat)
    ensures var b, n := WavFile(samples, rate), |samples|;
      && |b| == 44 + 2 * n
      && b[0..4] == Tag(RIFF) && b[8..12] == Tag(WAVE) && b[12..16] == Tag(FMT_TAG) && b[16..20] == Le32(16)
      && b[20..22] == Le16(1) && b[22..24] == Le16(1) && b[24..28] == Le32(rate) && b[34..36] == Le16(16)
      && b[36..40] == Tag(DATA_TAG) && b[40..44] == Le32(n * 2)
  {
    var b, n := WavFile(samples, rate), |samples|;
    HeaderFields(n, rate, Data(samples));
    FormatFields(n, rate, b[28..]);
    assert b == FormatStart(n, rate) + b[28..];
    RiffFields(n, b[12..]);
    assert b == RiffHeader(n) + b[12..];
  }

  lemma RateFields(n: nat, rate: nat, rest: seq<byte>)
    ensures var b := Header(n, rate) + rest;
            b[28..32] == Le32(rate * 2) && b[32..34] == Le16(2)
  {
  }

  lemma SizeField(n: nat, rest: seq<byte>)
    ensures (RiffHeader(n) + rest)[4..8] == Le32(36 + n * 2)
  {
  }

  /** The sizes in the header: bytes behind the size field, bytes a second, bytes a sample. */
  lemma HeaderSizes(samples: seq<real>, rate: nat)
    requires 36 + 2 * |samples| < 0x1_0000_0000 && 2 * rate < 0x1_0000_0000
    ensures var b := WavFile(samples, rate);
      && |b| >= 44 && Read32(b, 4) == |b| - 8 && Read32(b, 24) == rate
      && Read32(b, 28) == 2 * rate && Read16(b, 32) == 2
  {
    var b, n := WavFile(samples, rate), |samples|;
    FileFields(samples, rate);
    RateFields(n, rate, Data(samples));
    HeaderFields(n, rate, Data(samples));
    FormatFields(n, rate, b[28..]);
    assert b == FormatStart(n, rate) + b[28..] && b == RiffHeader(n) + b[12..];
    SizeField(n, b[12..]);
    Le32ReadsBack(36 + n * 2);
    Le32ReadsBack(rate);
    Le32ReadsBack(rate * 2);
    Le16ReadsBack(2);
  }

  // ---------------------------------------------------------------- the round trip

  lemma ChunkStep(b: seq<byte>, offset: nat, size: nat, id: string, next: nat, rest: seq<Chunk>)
    requires offset + 8 + size <= |b| && b[offset..offset + 4] == Tag(id) && SevenBit(id)
    requires b[offset + 4..offset + 8] == Le32(size) && size < 0x1_0000_0000
    requires next == offset + 8 + size && size % 2 == 0 && Chunks(b, next) == Ok(rest)
    ensures Chunks(b, offset) == Ok([Chunk(id, offset + 8, size)] + rest)
  {
    TagReadsBack(id);
    Le32ReadsBack(size);
  }

  lemma DataChunk(b: seq<byte>, at: nat, size: nat)
    requires |b| == at + 8 + size && size < 0x1_0000_0000 && size % 2 == 0
    requires b[at..at + 4] == Tag(DATA_TAG) && b[at + 4..at + 8] == Le32(size)
    ensures Chunks(b, at) == Ok([Chunk(DATA_TAG, at + 8, size)])
  {
    var none: seq<Chunk> := [];
    ChunkStep(b, at, size, DATA_TAG, at + 8 + size, none);
    assert [Chunk(DATA_TAG, at + 8, size)] + none == [Chunk(DATA_TAG, at + 8, size)];
  }

  lemma FileChunks(samples: seq<real>, rate: nat)
    requires 36 + 2 * |samples| < 0x1_0000_0000
    ensures Chunks(WavFile(samples, rate), 12) == Ok([Chunk(FMT_TAG, 20, 16)] + [Chunk(DATA_TAG, 44, 2 * |samples|)])
  {
    var b, n := WavFile(samples, rate), |samples|;
    FileFields(samples, rate);
    DataChunk(b, 36, n * 2);
    ChunkStep(b, 12, 16, FMT_TAG, 36, [Chunk(DATA_TAG, 44, n * 2)]);
  }

  /** The format the upload check reads back. */
  lemma FileFormat(samples: seq<real>, rate: nat)
    requires rate < 0x1_0000_0000
    ensures FormatAt(WavFile(samples, rate), 20) == Format(1, 1, rate, 16)
  {
    FileFields(samples, rate);
    Le16ReadsBack(1);
    Le16ReadsBack(16);
    Le32ReadsBack(rate);
  }

  /** A recording is accepted iff its rate is 8 or 16 kHz and it has a sample; then the check sees it as it is. */
  lemma RecordingAcceptedIff(samples: seq<real>, rate: nat)
    requires 36 + 2 * |samples| < 0x1_0000_0000 && rate < 0x1_0000_0000
    ensures Verdict(WavFile(samples, rate))
         == if rate != 8000 && rate != 16000 then Err(BadRate)
            else if samples == [] then Err(NoAudio)
            else Ok(WavHeader(1, rate, 16, 2 * |samples|))
  {
    var b := WavFile(samples, rate);
    FileFields(samples, rate);
    TagReadsBack(RIFF);
    TagReadsBack(WAVE);
    FileChunks(samples, rate);
    FileFormat(samples, rate);
    TwoChunks(b, Chunk(FMT_TAG, 20, 16), Chunk(DATA_TAG, 44, 2 * |samples|));
  }

  lemma TwoChunks(b: seq<byte>, format: Chunk, data: Chunk)
    requires IsFormat(b, format) && data.id == DATA_TAG
    ensures LastFormat(b, [format] + [data]) == Some(FormatAt(b, format.body))
    ensures LastDataSize([format] + [data]) == data.size
  {
    LastStep(b, [], format);
    LastStep(b, [format], data);
    assert [] + [format] == [format];
  }

  // ---------------------------------------------------------------- samples

  /** A stored sample as a signed number. */
  function Signed(u: nat): int { if u >= 32768 then u - 65536 else u }

  lemma {:induction false} DataAt(samples: seq<real>, i: nat)
    requires i < |samples|
    ensures Data(samples)[2 * i..2 * i + 2] == Le16(SampleValue(samples[i]))
  {
    var k := |samples| - 1;
    if i < k {
      DataAt(samples[..k], i);
      assert Data(samples)[2 * i..2 * i + 2] == Data(samples[..k])[2 * i..2 * i + 2];
    }
  }

  /**
   * Sixteen bits hold every sample: full scale or louder is stored as the largest number of its sign,
   * anything else within one step of its exact value, and never beyond it.
   */
  lemma SampleFits(s: real)
    ensures -32768 <= SampleValue(s) <= 32767
    ensures s >= 1.0 ==> SampleValue(s) == 32767
    ensures s <= -1.0 ==> SampleValue(s) == -32768
    ensures 0.0 <= s < 1.0 ==> s * 32767.0 - 1.0 < SampleValue(s) as real <= s * 32767.0
    ensures -1.0 < s <= 0.0 ==> s * 32768.0 <= SampleValue(s) as real < s * 32768.0 + 1.0
  {
  }

  lemma SignedReadsBack(v: int)
    requires -32768 <= v <= 32767
    ensures Signed(FromLe16(Le16(v))) == v
  {
    assert FromLe16(Le16(v)) == v % 65536 by {
      assert v % 65536 == v % 256 + 256 * (v / 256 % 256);
    }
  }

  /** No stored sample wraps: it reads back as the truncated scaled value. */
  lemma SamplesReadBack(samples: seq<real>, rate: nat, i: nat)
    requires i < |samples|
    ensures Signed(Read16(WavFile(samples, rate), 44 + 2 * i)) == SampleValue(samples[i])
  {
    DataAt(samples, i);
    assert WavFile(samples, rate)[44 + 2 * i..44 + 2 * i + 2] == Data(samples)[2 * i..2 * i + 2];
    SampleFits(samples[i]);
    SignedReadsBack(SampleValue(samples[i]));
  }

  /** Overdriven input distorts instead of wrapping: a louder sample is never stored as a quieter one. */
  lemma SamplesKeepOrder(s: real, t: real)
    requires s <= t
    ensures SampleValue(s) <= SampleValue(t)
  {
    assert Scaled(s) <= Scaled(t);
  }

  // ---------------------------------------------------------------- arbitrary uploads

  /** Where the walk goes on after a chunk. */
  function Next(c: Chunk): nat { c.body + c.size + c.size % 2 }

  ghost predicate InFile(b: seq<byte>, c: Chunk)
  {
    && 8 <= c.body && c.body + c.size <= |b|
    && c.id == Ascii(b[c.body - 8..c.body - 4]) && c.size == Read32(b, c.body - 4)
  }

  /** Where chunk `i` starts when the first starts at `offset`. */
  function StartOf(offset: nat, chunks: seq<Chunk>, i: nat): nat
    requires i <= |chunks|
  {
    if i == 0 then offset else Next(chunks[i - 1])
  }

  ghost predicate InPlace(b: seq<byte>, offset: nat, chunks: seq<Chunk>, i: nat)
    requires i < |chunks|
  {
    InFile(b, chunks[i]) && chunks[i].body == 8 + StartOf(offset, chunks, i)
  }

  /** The chunks stand one behind the other from `offset` on, until no header fits any more. */
  ghost predicate Tiles(b: seq<byte>, offset: nat, chunks: seq<Chunk>)
  {
    && (forall i: nat | i < |chunks| :: InPlace(b, offset, chunks, i))
    && StartOf(offset, chunks, |chunks|) + 8 > |b|
  }

  lemma TilesTail(b: seq<byte>, offset: nat, chunks: seq<Chunk>)
    requires chunks != []
    ensures Tiles(b, offset, chunks) <==>
              InPlace(b, offset, chunks, 0) && Tiles(b, Next(chunks[0]), chunks[1..])
  {
    var tail, next := chunks[1..], Next(chunks[0]);
    forall i: nat | i < |tail| ensures InPlace(b, next, tail, i) <==> InPlace(b, offset, chunks, i + 1) {
      assert tail[i] == chunks[i + 1];
    }
    if InPlace(b, offset, chunks, 0) && Tiles(b, next, tail) {
      forall i: nat | i < |chunks| ensures InPlace(b, offset, chunks, i) {
        assert i > 0 ==> InPlace(b, next, tail, i - 1);
      }
    }
  }

  /** The walk finds the one decomposition into chunks, and fails iff there is none. */
  lemma {:induction false} WalkIsDecomposition(b: seq<byte>, offset: nat, chunks: seq<Chunk>)
    ensures Chunks(b, offset) == Ok(chunks) <==> Tiles(b, offset, chunks)
    decreases |chunks|
  {
    if chunks != [] {
      TilesTail(b, offset, chunks);
      if offset + 8 <= |b| {
        var first := Chunk(Ascii(b[offset..offset + 4]), offset + 8, Read32(b, offset + 4));
        WalkIsDecomposition(b, Next(first), chunks[1..]);
        assert chunks == [chunks[0]] + chunks[1..];
        if first.body + first.size <= |b| && Chunks(b, Next(first)).Ok? {
          assert Chunks(b, offset).value == [first] + Chunks(b, Next(first)).value;
          assert Chunks(b, offset).value[1..] == Chunks(b, Next(first)).value;
        }
      }
    }
  }

  ghost predicate LastFormatAt(b: seq<byte>, chunks: seq<Chunk>, k: nat)
  {
    k < |chunks| && IsFormat(b, chunks[k]) && forall j | k < j < |chunks| :: !IsFormat(b, chunks[j])
  }

  ghost predicate LastDataAt(chunks: seq<Chunk>, k: nat)
  {
    k < |chunks| && chunks[k].id == DATA_TAG && forall j | k < j < |chunks| :: chunks[j].id != DATA_TAG
  }

  lemma {:induction false} LastFormatFound(b: seq<byte>, chunks: seq<Chunk>)
    ensures LastFormat(b, chunks).None? ==> forall j | 0 <= j < |chunks| :: !IsFormat(b, chunks[j])
    ensures LastFormat(b, chunks).Some? ==>
              exists k: nat :: LastFormatAt(b, chunks, k) && LastFormat(b, chunks).value == FormatAt(b, chunks[k].body)
  {
    if chunks != [] {
      var n := |chunks| - 1;
      if IsFormat(b, chunks[n]) {
        assert LastFormatAt(b, chunks, n);
      } else {
        LastFormatFound(b, chunks[..n]);
        if LastFormat(b, chunks).Some? {
          var k: nat :| LastFormatAt(b, chunks[..n], k)
              && LastFormat(b, chunks).value == FormatAt(b, chunks[..n][k].body);
          assert LastFormatAt(b, chunks, k);
        }
      }
    }
  }

  lemma {:induction false} LastDataFound(chunks: seq<Chunk>)
    ensures LastDataSize(chunks) > 0
            ==> exists k: nat :: LastDataAt(chunks, k) && LastDataSize(chunks) == chunks[k].size
  {
    if chunks != [] {
      var n := |chunks| - 1;
      if chunks[n].id == DATA_TAG {
        assert LastDataAt(chunks, n);
      } else {
        LastDataFound(chunks[..n]);
        if LastDataSize(chunks) > 0 {
          var k: nat :| LastDataAt(chunks[..n], k) && LastDataSize(chunks) == chunks[..n][k].size;
          assert LastDataAt(chunks, k);
        }
      }
    }
  }

  lemma {:induction false} LastFormatIs(b: seq<byte>, chunks: seq<Chunk>, k: nat)
    requires LastFormatAt(b, chunks, k)
    ensures LastFormat(b, chunks) == Some(FormatAt(b, chunks[k].body))
  {
    if k < |chunks| - 1 {
      LastFormatIs(b, chunks[..|chunks| - 1], k);
    }
  }

  lemma {:induction false} LastDataIs(chunks: seq<Chunk>, k: nat)
    requires LastDataAt(chunks, k)
    ensures LastDataSize(chunks) == chunks[k].size
  {
    if k < |chunks| - 1 {
      LastDataIs(chunks[..|chunks| - 1], k);
    }
  }

  /** The file is these chunks, and `h` is its last format, playable, with its last, non-empty data chunk. */
  ghost predicate ReadAs(h: WavHeader, b: seq<byte>, chunks: seq<Chunk>, k: nat, d: nat)
  {
    && Tiles(b, 12, chunks) && LastFormatAt(b, chunks, k) && LastDataAt(chunks, d)
    && FormatAt(b, chunks[k].body) == Format(1, h.channels, h.sampleRate, h.bitsPerSample)
    && h.channels == 1 && h.bitsPerSample == 16 && (h.sampleRate == 8000 || h.sampleRate == 16000)
    && h.dataBytes == chunks[d].size > 0
  }

  ghost predicate Playable(h: WavHeader, b: seq<byte>)
  {
    exists chunks: seq<Chunk>, k: nat, d: nat :: ReadAs(h, b, chunks, k, d)
  }

  predicate IsWave(b: seq<byte>) { |b| >= 44 && Ascii(b[0..4]) == RIFF && Ascii(b[8..12]) == WAVE }

  lemma AcceptedIsPlayable(b: seq<byte>, h: WavHeader)
    requires Verdict(b) == Ok(h)
    ensures IsWave(b) && Playable(h, b)
  {
    var chunks := Chunks(b, 12).value;
    WalkIsDecomposition(b, 12, chunks);
    LastFormatFound(b, chunks);
    LastDataFound(chunks);
    var k: nat :| LastFormatAt(b, chunks, k) && LastFormat(b, chunks).value == FormatAt(b, chunks[k].body);
    var d: nat :| LastDataAt(chunks, d) && LastDataSize(chunks) == chunks[d].size;
    assert ReadAs(h, b, chunks, k, d);
  }

  /** What is wrong with a last format and the data behind it, the first fault first. */
  ghost function Fault(format: Option<Format>, dataBytes: nat): Option<WavError>
  {
    match format
    case None => Some(NoFormat)
    case Some(Format(audioFormat, channels, sampleRate, bitsPerSample)) =>
      if audioFormat != 1 then Some(NotPcm)
      else if channels != 1 then Some(NotMono)
      else if bitsPerSample != 16 then Some(NotSixteenBit)
      else if sampleRate != 8000 && sampleRate != 16000 then Some(BadRate)
      else if dataBytes == 0 then Some(NoAudio)
      else None
  }

  /** Why any upload is rejected: its size, its tags, a chunk that is cut off, or its last format and data. */
  lemma RejectedFor(b: seq<byte>)
    ensures |b| < 44 ==> Verdict(b) == Err(TooSmall)
    ensures |b| >= 44 && !IsWave(b) ==> Verdict(b) == Err(NotWave)
    ensures IsWave(b) && !(exists chunks :: Tiles(b, 12, chunks)) ==> Verdict(b) == Err(TruncatedChunk)
    ensures forall chunks | IsWave(b) && Tiles(b, 12, chunks) ::
              match Fault(LastFormat(b, chunks), LastDataSize(chunks))
              case Some(error) => Verdict(b) == Err(error)
              case None => Verdict(b).Ok?
  {
    if IsWave(b) && Chunks(b, 12).Ok? {
      WalkIsDecomposition(b, 12, Chunks(b, 12).value);
    }
    forall chunks | IsWave(b) && Tiles(b, 12, chunks) ensures Chunks(b, 12) == Ok(chunks) {
      WalkIsDecomposition(b, 12, chunks);
    }
  }

  /** For any bytes: the upload is accepted with header `h` iff it is a playable WAV file so described. */
  lemma AcceptedIff(b: seq<byte>, h: WavHeader)
    ensures Verdict(b) == Ok(h) <==> IsWave(b) && Playable(h, b)
  {
    if Verdict(b) == Ok(h) {
      AcceptedIsPlayable(b, h);
    }
    if IsWave(b) && Playable(h, b) {
      var chunks: seq<Chunk>, k: nat, d: nat :| ReadAs(h, b, chunks, k, d);
      WalkIsDecomposition(b, 12, chunks);
      LastFormatIs(b, chunks, k);
      LastDataIs(chunks, d);
    }
  }
}
