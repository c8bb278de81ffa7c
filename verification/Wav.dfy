/** WAV files: the recorder's encoder (frontend/src/audio.ts) and the upload check (backend/src/asterisk/sounds.ts). */
module Wav {
  import opened Text

  type byte = x: int | 0 <= x < 256

  const RIFF := "RIFF"
  const WAVE := "WAVE"
  const FMT_TAG := "fmt "
  const DATA_TAG := "data"

  // ---------------------------------------------------------------- little-endian fields

  /** `text.charCodeAt(i)` stored by `setUint8` */
  function Tag(text: string): (bytes: seq<byte>)
    ensures |bytes| == |text|
    ensures forall i: nat | i < |text| :: bytes[i] == text[i] as int % 256
  {
    if text == "" then [] else Tag(text[..|text| - 1]) + [text[|text| - 1] as int % 256]
  }

  /** `setUint16` and `setUint32` keep the low bits, lowest byte first. */
  function Le16(v: int): (bytes: seq<byte>)
    ensures |bytes| == 2
  {
    [v % 256, v / 256 % 256]
  }

  function Le32(v: int): (bytes: seq<byte>)
    ensures |bytes| == 4
  {
    Le16(v) + Le16(v / 65536)
  }

  function FromLe16(bytes: seq<byte>): nat
    requires |bytes| == 2
  {
    bytes[0] as int + 256 * (bytes[1] as int)
  }

  function FromLe32(bytes: seq<byte>): (v: nat)
    requires |bytes| == 4
  {
    FromLe16(bytes[..2]) + 65536 * FromLe16(bytes[2..])
  }

  /** `buffer.toString('ascii', ...)` drops the highest bit of every byte. */
  function Ascii(bytes: seq<byte>): (text: string)
    ensures |text| == |bytes|
    ensures forall i: nat | i < |bytes| :: text[i] == (bytes[i] % 128) as char
  {
    if bytes == [] then "" else Ascii(bytes[..|bytes| - 1]) + [(bytes[|bytes| - 1] % 128) as char]
  }

  // ---------------------------------------------------------------- encoding

  function Clamp(sample: real): real
  {
    if sample < -1.0 then -1.0 else if sample > 1.0 then 1.0 else sample
  }

  function Scaled(sample: real): real
  {
    var c := Clamp(sample);
    if c < 0.0 then c * 32768.0 else c * 32767.0
  }

  /** Conversion to an integer truncates toward zero. */
  function Truncate(x: real): int { if x >= 0.0 then x.Floor else -((-x).Floor) }

  function SampleValue(sample: real): int { Truncate(Scaled(sample)) }

  function Data(samples: seq<real>): (bytes: seq<byte>)
    ensures |bytes| == 2 * |samples|
  {
    if samples == [] then [] else Data(samples[..|samples| - 1]) + Le16(SampleValue(samples[|samples| - 1]))
  }

  function RiffHeader(n: nat): (bytes: seq<byte>)
    ensures |bytes| == 12
  {
    Tag(RIFF) + Le32(36 + n * 2) + Tag(WAVE)
  }

  /** The start of the format chunk: mono PCM at this rate. */
  function FormatStart(n: nat, rate: nat): (bytes: seq<byte>)
    ensures |bytes| == 28
  {
    RiffHeader(n) + Tag(FMT_TAG) + Le32(16) + Le16(1) + Le16(1) + Le32(rate)
  }

  function Header(n: nat, rate: nat): (bytes: seq<byte>)
    ensures |bytes| == 44
  {
    FormatStart(n, rate) + Le32(rate * 2) + Le16(2) + Le16(16) + Tag(DATA_TAG) + Le32(n * 2)
  }

  lemma DataStep(samples: seq<real>, i: nat)
    requires i < |samples|
    ensures Data(samples[..i + 1]) == Data(samples[..i]) + Le16(SampleValue(samples[i]))
  {
    assert samples[..i + 1][..i] == samples[..i];
  }

  /** The file a recording is stored as. */
  function WavFile(samples: seq<real>, rate: nat): seq<byte> { Header(|samples|, rate) + Data(samples) }

  method WriteAscii(view: array<byte>, offset: nat, text: string)
    requires offset + |text| <= view.Length
    modifies view
    ensures view[..offset + |text|] == old(view[..offset]) + Tag(text)
  {
    var i := 0;
    while i < |text|
      invariant 0 <= i <= |text|
      invariant view[..offset + i] == old(view[..offset]) + Tag(text)[..i]
    {
      view[offset + i] := text[i] as int % 256;
      assert view[..offset + i + 1] == view[..offset + i] + [view[offset + i]];
      i := i + 1;
    }
    assert Tag(text)[..i] == Tag(text);
  }

  method SetUint16(view: array<byte>, offset: nat, v: int)
    requires offset + 2 <= view.Length
    modifies view
    ensures view[..offset + 2] == old(view[..offset]) + Le16(v)
  {
    view[offset] := v % 256;
    view[offset + 1] := v / 256 % 256;
  }

  method SetUint32(view: array<byte>, offset: nat, v: int)
    requires offset + 4 <= view.Length
    modifies view
    ensures view[..offset + 4] == old(view[..offset]) + Le32(v)
  {
    SetUint16(view, offset, v);
    SetUint16(view, offset + 2, v / 65536);
  }

  method EncodeFormatStart(view: array<byte>, n: nat, rate: nat)
    requires view.Length >= 44
    modifies view
    ensures view[..28] == FormatStart(n, rate)
  {
    WriteAscii(view, 0, RIFF);
    SetUint32(view, 4, 36 + n * 2);
    WriteAscii(view, 8, WAVE);
    assert view[..12] == RiffHeader(n);
    WriteAscii(view, 12, FMT_TAG);
    SetUint32(view, 16, 16);
    SetUint16(view, 20, 1);
    SetUint16(view, 22, 1);
    SetUint32(view, 24, rate);
  }

  method EncodeHeader(view: array<byte>, n: nat, rate: nat)
    requires view.Length >= 44
    modifies view
    ensures view[..44] == Header(n, rate)
  {
    EncodeFormatStart(view, n, rate);
    SetUint32(view, 28, rate * 2);
    SetUint16(view, 32, 2);
    SetUint16(view, 34, 16);
    WriteAscii(view, 36, DATA_TAG);
    SetUint32(view, 40, n * 2);
  }

  method EncodeSamples(view: array<byte>, samples: seq<real>)
    requires view.Length == 44 + 2 * |samples|
    modifies view
    ensures view[..] == old(view[..44]) + Data(samples)
  {
    var i, offset := 0, 44;
    while i < |samples|
      invariant 0 <= i <= |samples| && offset == 44 + 2 * i
      invariant view[..offset] == old(view[..44]) + Data(samples[..i])
    {
      DataStep(samples, i);
      var clamped := Clamp(samples[i]);
      var scaled := if clamped < 0.0 then clamped * 32768.0 else clamped * 32767.0;
      SetUint16(view, offset, Truncate(scaled));
      offset := offset + 2;
      i := i + 1;
    }
    assert samples[..i] == samples && view[..offset] == view[..];
  }

  method EncodeWav(samples: seq<real>, rate: nat) returns (view: array<byte>)
    ensures fresh(view) && view[..] == WavFile(samples, rate)
  {
    view := new byte[44 + |samples| * 2];
    EncodeHeader(view, |samples|, rate);
    EncodeSamples(view, samples);
  }

  // ---------------------------------------------------------------- parsing

  datatype WavError =
    | TooSmall | NotWave | TruncatedChunk | NoFormat | NotPcm | NotMono | NotSixteenBit | BadRate | NoAudio

  datatype Format = Format(audioFormat: nat, channels: nat, sampleRate: nat, bitsPerSample: nat)

  datatype WavHeader = WavHeader(channels: nat, sampleRate: nat, bitsPerSample: nat, dataBytes: nat)

  datatype Result<+T> = Ok(value: T) | Err(error: WavError)

  datatype Chunk = Chunk(id: string, body: nat, size: nat)

  function Read16(b: seq<byte>, at: nat): nat
    requires at + 2 <= |b|
  {
    FromLe16(b[at..at + 2])
  }

  function Read32(b: seq<byte>, at: nat): nat
    requires at + 4 <= |b|
  {
    FromLe32(b[at..at + 4])
  }

  /** The chunks from `offset` on; each starts at the even position after the previous one. */
  function Chunks(b: seq<byte>, offset: nat): (r: Result<seq<Chunk>>)
    ensures r.Err? ==> r.error == TruncatedChunk
    decreases |b| - offset
  {
    if offset + 8 > |b| then Ok([])
    else
      var size, body := Read32(b, offset + 4), offset + 8;
      if body + size > |b| then Err(TruncatedChunk)
      else
        var rest := Chunks(b, body + size + size % 2);
        if rest.Err? then rest else Ok([Chunk(Ascii(b[offset..offset + 4]), body, size)] + rest.value)
  }

  /** Sixteen bytes must follow, whatever size the chunk itself claims. */
  predicate IsFormat(b: seq<byte>, c: Chunk) { c.id == FMT_TAG && c.body + 16 <= |b| }

  function FormatAt(b: seq<byte>, body: nat): Format
    requires body + 16 <= |b|
  {
    Format(Read16(b, body), Read16(b, body + 2), Read32(b, body + 4), Read16(b, body + 14))
  }

  function LastFormat(b: seq<byte>, chunks: seq<Chunk>): Option<Format>
  {
    if chunks == [] then None
    else if IsFormat(b, chunks[|chunks| - 1]) then Some(FormatAt(b, chunks[|chunks| - 1].body))
    else LastFormat(b, chunks[..|chunks| - 1])
  }

  /** The size of the last data chunk, 0 without one. */
  function LastDataSize(chunks: seq<Chunk>): nat
  {
    if chunks == [] then 0
    else if chunks[|chunks| - 1].id == DATA_TAG then chunks[|chunks| - 1].size
    else LastDataSize(chunks[..|chunks| - 1])
  }

  function Judge(format: Option<Format>, dataBytes: nat): Result<WavHeader>
  {
    match format
    case None => Err(NoFormat)
    case Some(f) =>
      if f.audioFormat != 1 then Err(NotPcm)
      else if f.channels != 1 then Err(NotMono)
      else if f.bitsPerSample != 16 then Err(NotSixteenBit)
      else if f.sampleRate != 8000 && f.sampleRate != 16000 then Err(BadRate)
      else if dataBytes == 0 then Err(NoAudio)
      else Ok(WavHeader(f.channels, f.sampleRate, f.bitsPerSample, dataBytes))
  }

  /** What the upload check says about a file, read off its chunk decomposition. */
  function Verdict(b: seq<byte>): Result<WavHeader>
  {
    if |b| < 44 then Err(TooSmall)
    else if Ascii(b[0..4]) != RIFF || Ascii(b[8..12]) != WAVE then Err(NotWave)
    else
      match Chunks(b, 12)
      case Err(e) => Err(e)
      case Ok(chunks) => Judge(LastFormat(b, chunks), LastDataSize(chunks))
  }

  predicate Resumes(whole: Result<seq<Chunk>>, done: seq<Chunk>, rest: Result<seq<Chunk>>)
  {
    if rest.Ok? then whole.Ok? && whole.value == done + rest.value else whole == rest
  }

  lemma ResumesStep(b: seq<byte>, whole: Result<seq<Chunk>>, done: seq<Chunk>, offset: nat)
    requires offset + 8 <= |b| && Resumes(whole, done, Chunks(b, offset))
    ensures var size, body := Read32(b, offset + 4), offset + 8;
      if body + size > |b| then whole == Err(TruncatedChunk)
      else Resumes(whole, done + [Chunk(Ascii(b[offset..offset + 4]), body, size)], Chunks(b, body + size + size % 2))
  {
  }

  lemma LastStep(b: seq<byte>, done: seq<Chunk>, c: Chunk)
    ensures LastFormat(b, done + [c]) == if IsFormat(b, c) then Some(FormatAt(b, c.body)) else LastFormat(b, done)
    ensures LastDataSize(done + [c]) == if c.id == DATA_TAG then c.size else LastDataSize(done)
  {
    assert (done + [c])[..|done|] == done;
  }

  datatype Scan = Scan(format: Option<Format>, dataBytes: nat)

  function Scanned(b: seq<byte>): Option<Scan>
  {
    match Chunks(b, 12)
    case Err(_) => None
    case Ok(chunks) => Some(Scan(LastFormat(b, chunks), LastDataSize(chunks)))
  }

  /** The chunk walk: None if a chunk is cut off, else the last format and the last data size. */
  method ScanChunks(b: seq<byte>) returns (r: Option<Scan>)
    ensures r == Scanned(b)
  {
    var offset := 12;
    var format: Option<Format>, dataBytes := None, 0;
    ghost var done: seq<Chunk> := [];
    while offset + 8 <= |b|
      invariant Resumes(Chunks(b, 12), done, Chunks(b, offset))
      invariant format == LastFormat(b, done) && dataBytes == LastDataSize(done)
      decreases |b| - offset
    {
      ResumesStep(b, Chunks(b, 12), done, offset);
      var id := Ascii(b[offset..offset + 4]);
      var chunkSize, body := Read32(b, offset + 4), offset + 8;
      if body + chunkSize > |b| { return None; }
      LastStep(b, done, Chunk(id, body, chunkSize));
      if id == FMT_TAG && body + 16 <= |b| {
        format := Some(FormatAt(b, body));
      } else if id == DATA_TAG {
        dataBytes := chunkSize;
      }
      done := done + [Chunk(id, body, chunkSize)];
      offset := body + chunkSize + chunkSize % 2;
    }
    assert done + [] == done;
    r := Some(Scan(format, dataBytes));
  }

  method ParseWav(b: seq<byte>) returns (r: Result<WavHeader>)
    ensures r == Verdict(b)
  {
    if |b| < 44 { return Err(TooSmall); }
    if Ascii(b[0..4]) != RIFF || Ascii(b[8..12]) != WAVE { return Err(NotWave); }
    var scanned := ScanChunks(b);
    if scanned.None? { return Err(TruncatedChunk); }
    var format, dataBytes := scanned.value.format, scanned.value.dataBytes;
    if format.None? { return Err(NoFormat); }
    if format.value.audioFormat != 1 { return Err(NotPcm); }
    if format.value.channels != 1 { return Err(NotMono); }
    if format.value.bitsPerSample != 16 { return Err(NotSixteenBit); }
    if format.value.sampleRate != 8000 && format.value.sampleRate != 16000 { return Err(BadRate); }
    if dataBytes == 0 { return Err(NoAudio); }
    r := Ok(WavHeader(format.value.channels, format.value.sampleRate, format.value.bitsPerSample, dataBytes));
  }
}
