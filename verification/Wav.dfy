/** The client's WAV writer and its chunk-walking reader. */
module Wav {
  import opened Bytes

  // ----- little-endian fields -----

  function Le16(v: u16): (r: Octets)
    ensures |r| == 2
  {
    [v % 0x100, v / 0x100]
  }

  function Le32(v: u32): (r: Octets)
    ensures |r| == 4
  {
    Le16(v % 0x1_0000) + Le16(v / 0x1_0000)
  }

  /** The 16-bit field at pos, if the bytes reach that far. */
  function Get16(b: Octets, pos: nat): u16
    requires pos + 2 <= |b|
  {
    Word16(b[pos + 1], b[pos])
  }

  function Get32(b: Octets, pos: nat): u32
    requires pos + 4 <= |b|
  {
    0x1_0000 * (Get16(b, pos + 2) as int) + Get16(b, pos)
  }

  lemma Field16(b: Octets, pos: nat, v: u16)
    requires pos + 2 <= |b| && b[pos..pos + 2] == Le16(v)
    ensures Get16(b, pos) == v
  {
    assert b[pos] == Le16(v)[0] && b[pos + 1] == Le16(v)[1];
    Word16OfBe16(v);
  }

  lemma Field32(b: Octets, pos: nat, v: u32)
    requires pos + 4 <= |b| && b[pos..pos + 4] == Le32(v)
    ensures Get32(b, pos) == v
  {
    hide Le16;
    assert b[pos..pos + 2] == b[pos..pos + 4][..2] && b[pos + 2..pos + 4] == b[pos..pos + 4][2..];
    Field16(b, pos, v % 0x1_0000);
    Field16(b, pos + 2, v / 0x1_0000);
  }

  /** The two's complement of a sample, in little-endian order. */
  function SampleBytes(x: i16): (r: Octets)
    ensures |r| == 2
  {
    Le16(if x < 0 then 0x1_0000 + x else x)
  }

  function SampleOf(lo: byte, hi: byte): i16 {
    var v := Word16(hi, lo);
    if v < 0x8000 then v else v - 0x1_0000
  }

  function Pack(samples: seq<i16>): (r: Octets)
    ensures |r| == 2 * |samples|
  {
    if samples == [] then [] else SampleBytes(samples[0]) + Pack(samples[1..])
  }

  function Unpack(b: Octets): (r: seq<i16>)
    ensures |r| == |b| / 2
  {
    if |b| < 2 then [] else [SampleOf(b[0], b[1])] + Unpack(b[2..])
  }

  lemma SampleReadBack(x: i16)
    ensures SampleOf(SampleBytes(x)[0], SampleBytes(x)[1]) == x
  {
    Word16OfBe16(if x < 0 then 0x1_0000 + x else x);
  }

  lemma {:induction false} UnpackOfPack(samples: seq<i16>)
    ensures Unpack(Pack(samples)) == samples
  {
    if samples != [] {
      assert Pack(samples)[2..] == Pack(samples[1..]);
      SampleReadBack(samples[0]);
      UnpackOfPack(samples[1..]);
    }
  }

  lemma {:induction false} PackPrefix(samples: seq<i16>, n: nat)
    requires n <= |samples|
    ensures Pack(samples)[..2 * n] == Pack(samples[..n])
  {
    if n > 0 {
      PackPrefix(samples[1..], n - 1);
      assert samples[..n][1..] == samples[1..][..n - 1];
      assert Pack(samples)[..2 * n] == SampleBytes(samples[0]) + Pack(samples[1..])[..2 * (n - 1)];
    }
  }

  // ----- files as lists of chunks -----

  type Tag = s: Octets | |s| == 4 witness [0, 0, 0, 0]

  const RIFF: Tag := [0x52, 0x49, 0x46, 0x46]
  const WAVE: Tag := [0x57, 0x41, 0x56, 0x45]
  const FMT: Tag := [0x66, 0x6D, 0x74, 0x20]
  const DATA: Tag := [0x64, 0x61, 0x74, 0x61]

  datatype Chunk = Chunk(id: Tag, body: Octets)

  /** The chunk's length fits its 32-bit field, and a format chunk holds the sixteen bytes the reader takes from it. */
  predicate WellFormed(c: Chunk) {
    |c.body| < 0x1_0000_0000 && (c.id == FMT ==> |c.body| >= 16)
  }

  predicate AllWellFormed(chunks: seq<Chunk>) {
    forall c :: c in chunks ==> WellFormed(c)
  }

  function ChunkBytes(c: Chunk): (r: Octets)
    requires WellFormed(c)
    ensures |r| == 8 + |c.body|
  {
    c.id + Le32(|c.body|) + c.body
  }

  function ChunksBytes(chunks: seq<Chunk>): Octets
    requires AllWellFormed(chunks)
  {
    if chunks == [] then [] else ChunkBytes(chunks[0]) + ChunksBytes(chunks[1..])
  }

  function FileBytes(riffSize: u32, chunks: seq<Chunk>): Octets
    requires AllWellFormed(chunks)
  {
    RIFF + Le32(riffSize) + WAVE + ChunksBytes(chunks)
  }

  // ----- writing -----

  function DataSize(samples: seq<i16>): u32 {
    2 * |samples| % 0x1_0000_0000
  }

  function FormatBody(rate: u32, channels: u16, bits: u16): (r: Octets)
    ensures |r| == 16
  {
    Le16(1) + Le16(channels) + Le32(rate)
    + Le32(rate * channels % 0x1_0000_0000 * (bits / 8) % 0x1_0000_0000)
    + Le16(channels * (bits / 8) % 0x1_0000) + Le16(bits)
  }

  /** The chunks of a written file; the data chunk holds as many bytes as its 32-bit size says. */
  function Written(samples: seq<i16>, rate: u32, channels: u16, bits: u16): (chunks: seq<Chunk>)
    ensures AllWellFormed(chunks)
  {
    [Chunk(FMT, FormatBody(rate, channels, bits)), Chunk(DATA, Pack(samples)[..DataSize(samples)])]
  }

  method WriteWav(samples: seq<i16>, rate: u32, channels: u16, bits: u16) returns (out: Octets)
    ensures out == FileBytes((36 + DataSize(samples)) % 0x1_0000_0000, Written(samples, rate, channels, bits))
  {
    hide Le16, Le32, Pack;
    var dataSize: u32 := 2 * |samples| % 0x1_0000_0000;
    var byteRate: u32 := rate * channels % 0x1_0000_0000 * (bits / 8) % 0x1_0000_0000;
    var blockAlign: u16 := channels * (bits / 8) % 0x1_0000;
    ghost var chunks := Written(samples, rate, channels, bits);

    out := RIFF;
    out := out + Le32((36 + dataSize) % 0x1_0000_0000);
    out := out + WAVE;
    ghost var head := out;
    var chunk: Octets := FMT + Le32(16);
    chunk := chunk + Le16(1);
    chunk := chunk + Le16(channels);
    chunk := chunk + Le32(rate);
    chunk := chunk + Le32(byteRate);
    chunk := chunk + Le16(blockAlign);
    chunk := chunk + Le16(bits);
    assert chunk == ChunkBytes(chunks[0]);
    out := out + chunk;
    chunk := DATA;
    chunk := chunk + Le32(dataSize);
    chunk := chunk + Pack(samples)[..dataSize];
    assert chunk == ChunkBytes(chunks[1]);
    out := out + chunk;
    assert ChunksBytes(chunks[1..]) == ChunkBytes(chunks[1]) by {
      assert chunks[1..][1..] == [];
    }
    assert out == head + (ChunkBytes(chunks[0]) + ChunkBytes(chunks[1]));
  }

  // ----- reading -----

  /** What the reader fills in: numSamples by the data chunk, 0 before it, the rest by the format chunk. */
  datatype Header = Header(channels: u16, rate: u32, bits: u16, numSamples: u32)

  datatype Failure = NotRiff | NotWave | NotPcm | NotSixteenBit | DataBeforeFormat | NoData

  /** Undefined: the program acts on bytes that a short read left unset, or reads an odd data chunk past its buffer. */
  datatype Outcome = Loaded(samples: seq<i16>, header: Header) | Failed(failure: Failure) | Undefined

  /** A format chunk, from the byte after its size field. */
  function Format(rest: Octets): Outcome {
    if |rest| < 2 then Undefined
    else if Get16(rest, 0) != 1 then Failed(NotPcm)
    else if |rest| < 16 then Undefined
    else if Get16(rest, 14) != 16 then Failed(NotSixteenBit)
    else Loaded([], Header(Get16(rest, 2), Get32(rest, 4), 16, 0))
  }

  function WithSamples(samples: seq<i16>, header: Header): Outcome {
    Loaded(samples, header.(numSamples := |samples| % 0x1_0000_0000))
  }

  /** The samples of a data chunk: a vector of zeros overwritten by what the file has. */
  function Load(rest: Octets, size: u32, header: Header): Outcome {
    if size % 2 == 1 && |rest| >= size then Undefined
    else
      var there := if |rest| < size then rest else rest[..size];
      WithSamples(Unpack(there + Zeros(size - size % 2 - |there|)), header)
  }

  /** The reader's loop, from a chunk's position on. */
  function Scan(file: Octets, pos: nat, header: Option<Header>): Outcome
    decreases |file| - pos
  {
    if pos + 4 > |file| then Failed(NoData)
    else if file[pos..pos + 4] == DATA && header.None? then Failed(DataBeforeFormat)
    else if pos + 8 > |file| then
      if file[pos..pos + 4] == FMT || file[pos..pos + 4] == DATA then Undefined else Failed(NoData)
    else
      var size: nat := Get32(file, pos + 4);
      if file[pos..pos + 4] == FMT then
        match Format(file[pos + 8..])
        case Loaded(_, h) => Scan(file, pos + 8 + (if size > 16 then size else 16), Some(h))
        case other => other
      else if file[pos..pos + 4] == DATA then Load(file[pos + 8..], size, header.value)
      else Scan(file, pos + 8 + size, header)
  }

  function Read(file: Octets): Outcome {
    if |file| < 4 then Undefined
    else if file[..4] != RIFF then Failed(NotRiff)
    else if |file| < 12 then Undefined
    else if file[8..12] != WAVE then Failed(NotWave)
    else Scan(file, 12, None)
  }

  method ReadWav(file: Octets) returns (r: Outcome)
    ensures r == Read(file)
  {
    hide Get16, Get32, Format, Load;
    if |file| < 4 { return Undefined; }
    if file[..4] != RIFF { return Failed(NotRiff); }
    if |file| < 12 { return Undefined; }
    if file[8..12] != WAVE { return Failed(NotWave); }
    var pos := 12;
    var header: Option<Header> := None;
    while pos + 4 <= |file|
      invariant 12 <= pos
      invariant Read(file) == Scan(file, pos, header)
      decreases |file| - pos
    {
      var id := file[pos..pos + 4];
      if id == DATA && header.None? { return Failed(DataBeforeFormat); }
      if pos + 8 > |file| { return if id == FMT || id == DATA then Undefined else Failed(NoData); }
      var size := Get32(file, pos + 4);
      pos := pos + 8;
      if id == FMT {
        var format := Format(file[pos..]);
        if !format.Loaded? { return format; }
        header := Some(format.header);
        pos := pos + 16;
        if size > 16 { pos := pos + (size - 16); }
      } else if id == DATA {
        return Load(file[pos..], size, header.value);
      } else {
        pos := pos + size;
      }
    }
    return Failed(NoData);
  }

  // ----- what a list of chunks means -----

  /** Reading chunk by chunk: the first data chunk, under the last format chunk before it. */
  function Meaning(chunks: seq<Chunk>, header: Option<Header>): Outcome {
    if chunks == [] then Failed(NoData)
    else
      var c := chunks[0];
      if c.id == FMT then
        match Format(c.body)
        case Loaded(_, h) => Meaning(chunks[1..], Some(h))
        case other => other
      else if c.id != DATA then Meaning(chunks[1..], header)
      else if header.None? then Failed(DataBeforeFormat)
      else if |c.body| % 2 == 1 then Undefined
      else WithSamples(Unpack(c.body), header.value)
  }

  /** The file goes on like this from pos to its end. */
  predicate At(file: Octets, pos: nat, bytes: Octets) {
    pos <= |file| && file[pos..] == bytes
  }

  /** The parts of a file from the start of a chunk on. */
  lemma FirstChunk(file: Octets, pos: nat, c: Chunk, tail: Octets)
    requires WellFormed(c) && At(file, pos, ChunkBytes(c) + tail)
    ensures pos + 8 <= |file| && file[pos..pos + 4] == c.id && Get32(file, pos + 4) == |c.body|
    ensures file[pos + 8..] == c.body + tail && At(file, pos + 8 + |c.body|, tail)
  {
    hide Le32, Get32;
    var b := ChunkBytes(c) + tail;
    assert b[..4] == c.id && b[4..8] == Le32(|c.body|) && b[8..] == c.body + tail && b[8 + |c.body|..] == tail;
    assert file[pos..][4..8] == file[pos + 4..pos + 8];
    Field32(file, pos + 4, |c.body|);
  }

  lemma FormatIsLocal(body: Octets, tail: Octets)
    requires |body| >= 16
    ensures Format(body + tail) == Format(body)
  {
    forall i | 0 <= i < 16 ensures (body + tail)[i] == body[i] {}
  }

  lemma LoadWhole(body: Octets, tail: Octets, header: Header)
    requires |body| < 0x1_0000_0000
    ensures Load(body + tail, |body|, header) == if |body| % 2 == 1 then Undefined
        else WithSamples(Unpack(body), header)
  {
    assert (body + tail)[..|body|] == body;
    assert body + Zeros(0) == body;
  }

  /** One round of the reader consumes one well-formed chunk. */
  lemma ScanOneChunk(file: Octets, pos: nat, c: Chunk, tail: Octets, header: Option<Header>)
    requires WellFormed(c) && At(file, pos, ChunkBytes(c) + tail)
    ensures var after := pos + 8 + |c.body|;
      Scan(file, pos, header) ==
      if c.id == FMT then
        (if Format(c.body).Loaded? then Scan(file, after, Some(Format(c.body).header)) else Format(c.body))
      else if c.id != DATA then Scan(file, after, header)
      else if header.None? then Failed(DataBeforeFormat)
      else if |c.body| % 2 == 1 then Undefined
      else WithSamples(Unpack(c.body), header.value)
    ensures At(file, pos + 8 + |c.body|, tail)
  {
    hide Format, Load, Unpack, Get32, Get16, ChunkBytes;
    FirstChunk(file, pos, c, tail);
    if c.id == FMT {
      FormatIsLocal(c.body, tail);
    } else if c.id == DATA && header.Some? {
      LoadWhole(c.body, tail, header.value);
    }
  }

  lemma NothingLeft(file: Octets, pos: nat, header: Option<Header>)
    requires At(file, pos, ChunksBytes([]))
    ensures Scan(file, pos, header) == Failed(NoData)
  {
  }

  lemma FirstAndRest(chunks: seq<Chunk>)
    requires AllWellFormed(chunks) && chunks != []
    ensures WellFormed(chunks[0]) && AllWellFormed(chunks[1..])
    ensures ChunksBytes(chunks) == ChunkBytes(chunks[0]) + ChunksBytes(chunks[1..])
  {
    hide WellFormed;
  }

  /** From a chunk boundary on, the reader sees exactly the chunks. */
  lemma {:induction false} ScanOfChunks(file: Octets, pos: nat, chunks: seq<Chunk>, header: Option<Header>)
    requires AllWellFormed(chunks) && At(file, pos, ChunksBytes(chunks))
    ensures Scan(file, pos, header) == Meaning(chunks, header)
    decreases |chunks|
  {
    hide At, Scan, Format, Unpack, ChunkBytes, ChunksBytes, WellFormed, AllWellFormed;
    if chunks == [] {
      NothingLeft(file, pos, header);
    } else {
      FirstAndRest(chunks);
      var c, tail, after := chunks[0], ChunksBytes(chunks[1..]), pos + 8 + |chunks[0].body|;
      ScanOneChunk(file, pos, c, tail, header);
      if c.id != FMT {
        ScanOfChunks(file, after, chunks[1..], header);
      } else if Format(c.body).Loaded? {
        ScanOfChunks(file, after, chunks[1..], Some(Format(c.body).header));
      }
    }
  }

  lemma ReadOfFile(riffSize: u32, chunks: seq<Chunk>)
    requires AllWellFormed(chunks)
    ensures Read(FileBytes(riffSize, chunks)) == Meaning(chunks, None)
  {
    hide Scan, Meaning, Le32;
    var file := FileBytes(riffSize, chunks);
    assert file[..4] == RIFF && file[8..12] == WAVE && file[12..] == ChunksBytes(chunks);
    ScanOfChunks(file, 12, chunks, None);
  }

  predicate Known(c: Chunk) { c.id == FMT || c.id == DATA }

  function OnlyKnown(chunks: seq<Chunk>): (r: seq<Chunk>)
    ensures forall c :: c in r ==> c in chunks
  {
    if chunks == [] then []
    else (if Known(chunks[0]) then [chunks[0]] else []) + OnlyKnown(chunks[1..])
  }

  lemma {:induction false} MeaningOfKnown(chunks: seq<Chunk>, header: Option<Header>)
    ensures Meaning(chunks, header) == Meaning(OnlyKnown(chunks), header)
  {
    if chunks != [] {
      var c, r := chunks[0], OnlyKnown(chunks);
      if Known(c) { assert r[0] == c && r[1..] == OnlyKnown(chunks[1..]); } else { assert r == OnlyKnown(chunks[1..]); }
      if c.id == FMT {
        match Format(c.body)
        case Loaded(_, h) => MeaningOfKnown(chunks[1..], Some(h));
        case _ =>
      } else if c.id != DATA {
        MeaningOfKnown(chunks[1..], header);
      }
    }
  }

  /** Two files that agree after dropping unknown chunks read alike, wherever those chunks stand. */
  lemma UnknownChunksDoNotMatter(size1: u32, chunks1: seq<Chunk>, size2: u32, chunks2: seq<Chunk>)
    requires AllWellFormed(chunks1) && AllWellFormed(chunks2)
    requires OnlyKnown(chunks1) == OnlyKnown(chunks2)
    ensures Read(FileBytes(size1, chunks1)) == Read(FileBytes(size2, chunks2))
  {
    ReadOfFile(size1, chunks1);
    ReadOfFile(size2, chunks2);
    MeaningOfKnown(chunks1, None);
    MeaningOfKnown(chunks2, None);
  }

  lemma FormatOfBody(rate: u32, channels: u16, bits: u16)
    ensures Format(FormatBody(rate, channels, bits))
      == if bits == 16 then Loaded([], Header(channels, rate, 16, 0)) else Failed(NotSixteenBit)
  {
    hide Le16, Le32, Get16, Get32;
    var b := FormatBody(rate, channels, bits);
    assert b[0..2] == Le16(1) && b[2..4] == Le16(channels) && b[4..8] == Le32(rate) && b[14..16] == Le16(bits);
    Field16(b, 0, 1);
    Field16(b, 2, channels);
    Field32(b, 4, rate);
    Field16(b, 14, bits);
  }

  /** What is read back from a written file, whatever the sizes. */
  lemma ReadOfWritten(riffSize: u32, samples: seq<i16>, rate: u32, channels: u16, bits: u16)
    ensures Read(FileBytes(riffSize, Written(samples, rate, channels, bits)))
      == if bits != 16 then Failed(NotSixteenBit)
         else Loaded(samples[..DataSize(samples) / 2], Header(channels, rate, 16, DataSize(samples) / 2))
  {
    hide FileBytes, Read, FormatBody, Format, Pack, Unpack;
    var chunks := Written(samples, rate, channels, bits);
    ReadOfFile(riffSize, chunks);
    FormatOfBody(rate, channels, bits);
    var n := DataSize(samples) / 2;
    assert DataSize(samples) == 2 * n;
    PackPrefix(samples, n);
    UnpackOfPack(samples[..n]);
  }

  /** Reading a written file gives the recording back exactly when it is 16-bit and its data fits 32 bits. */
  lemma WavRoundTrip(riffSize: u32, samples: seq<i16>, rate: u32, channels: u16, bits: u16)
    ensures Read(FileBytes(riffSize, Written(samples, rate, channels, bits)))
      == Loaded(samples, Header(channels, rate, bits, |samples| % 0x1_0000_0000))
      <==> bits == 16 && 2 * |samples| < 0x1_0000_0000
  {
    hide FileBytes, Read, Written;
    ReadOfWritten(riffSize, samples, rate, channels, bits);
    if 2 * |samples| < 0x1_0000_0000 {
      assert samples[..|samples|] == samples;
    }
  }

  // ----- the fields of a written file -----

  const WRAP := 0x1_0000_0000

  lemma WrapsAway(a: nat, k: nat)
    ensures (a + k * WRAP) % WRAP == a % WRAP
  {
  }

  /** Wrapping a product early does not change its remainder. */
  lemma WrappedProduct(x: nat, c: nat)
    ensures x % WRAP * c % WRAP == x * c % WRAP
  {
    var q, r := x / WRAP, x % WRAP;
    assert x * c == r * c + q * c * WRAP by {
      assert x == q * WRAP + r;
    }
    WrapsAway(r * c, q * c);
  }

  lemma FieldInside(file: Octets, at: nat, part: Octets, pos: nat)
    requires at + |part| <= |file| && file[at..at + |part|] == part && pos + 2 <= |part|
    ensures Get16(file, at + pos) == Get16(part, pos)
    ensures pos + 4 <= |part| ==> Get32(file, at + pos) == Get32(part, pos)
  {
    hide Word16;
    forall i | 0 <= i < |part| ensures file[at + i] == part[i] {
      assert file[at + i] == file[at..at + |part|][i];
    }
  }

  /** The fields of a format chunk: byte rate and block align are the products of rate, channels and bytes per
      sample in the width of their fields. */
  lemma FormatFields(rate: u32, channels: u16, bits: u16)
    ensures var b := FormatBody(rate, channels, bits);
      && Get16(b, 0) == 1 && Get16(b, 2) == channels && Get32(b, 4) == rate
      && Get32(b, 8) == rate * channels * (bits / 8) % 0x1_0000_0000
      && Get16(b, 12) == channels * (bits / 8) % 0x1_0000 && Get16(b, 14) == bits
  {
    hide Le16, Le32, Get16, Get32;
    var b := FormatBody(rate, channels, bits);
    var byteRate: u32 := rate * channels % 0x1_0000_0000 * (bits / 8) % 0x1_0000_0000;
    var align: u16 := channels * (bits / 8) % 0x1_0000;
    assert b[0..2] == Le16(1) && b[2..4] == Le16(channels) && b[4..8] == Le32(rate);
    assert b[8..12] == Le32(byteRate) && b[12..14] == Le16(align) && b[14..16] == Le16(bits);
    Field16(b, 0, 1);
    Field16(b, 2, channels);
    Field32(b, 4, rate);
    Field32(b, 8, byteRate);
    Field16(b, 12, align);
    Field16(b, 14, bits);
    WrappedProduct(rate * channels, bits / 8);
  }

  lemma Middle(file: Octets, at: nat, part: Octets, rest: Octets, from: nat, to: nat)
    requires at <= |file| && file[at..] == part + rest && from <= to <= |part|
    ensures at + to <= |file| && file[at + from..at + to] == part[from..to]
  {
    assert |file[at..]| == |part| + |rest|;
    forall i | from <= i < to ensures file[at + i] == part[i] {
      assert file[at + i] == file[at..][i];
    }
  }

  lemma WrittenPlaces(riffSize: u32, samples: seq<i16>, rate: u32, channels: u16, bits: u16)
    ensures var file := FileBytes(riffSize, Written(samples, rate, channels, bits));
      && |file| == 44 + DataSize(samples)
      && file[..4] == RIFF && file[4..8] == Le32(riffSize) && file[8..12] == WAVE
      && file[12..16] == FMT && file[16..20] == Le32(16) && file[20..36] == FormatBody(rate, channels, bits)
      && file[36..40] == DATA && file[40..44] == Le32(DataSize(samples))
          && file[44..] == Pack(samples)[..DataSize(samples)]
  {
    hide Le32, Le16, FormatBody, Pack;
    var chunks := Written(samples, rate, channels, bits);
    assert ChunksBytes(chunks[1..]) == ChunkBytes(chunks[1]) by {
      assert chunks[1..][1..] == [];
    }
    var file, front := FileBytes(riffSize, chunks), RIFF + Le32(riffSize) + WAVE;
    var first, second := ChunkBytes(chunks[0]), ChunkBytes(chunks[1]);
    assert file == front + first + second;
    Middle(file, 0, front, first + second, 0, 4);
    Middle(file, 0, front, first + second, 4, 8);
    Middle(file, 0, front, first + second, 8, 12);
    Middle(file, 12, first, second, 0, 4);
    Middle(file, 12, first, second, 4, 8);
    Middle(file, 12, first, second, 8, 24);
    Middle(file, 36, second, [], 0, 4);
    Middle(file, 36, second, [], 4, 8);
    assert file[44..] == file[36..][8..] == second[8..];
  }

  /** A written file: the RIFF size is the length of what follows it, and every field says what it should. */
  lemma WrittenFields(samples: seq<i16>, rate: u32, channels: u16, bits: u16)
    ensures var file := FileBytes((36 + DataSize(samples)) % 0x1_0000_0000, Written(samples, rate, channels, bits));
      && |file| == 44 + 2 * |samples| % 0x1_0000_0000
      && file[..4] == RIFF && file[8..12] == WAVE && file[12..16] == FMT && file[36..40] == DATA
      && Get32(file, 4) == (|file| - 8) % 0x1_0000_0000
      && Get32(file, 16) == 16 && Get16(file, 20) == 1 && Get16(file, 22) == channels && Get32(file, 24) == rate
      && Get32(file, 28) == rate * channels * (bits / 8) % 0x1_0000_0000
      && Get16(file, 32) == channels * (bits / 8) % 0x1_0000 && Get16(file, 34) == bits
      && Get32(file, 40) == |file| - 44
  {
    hide Le16, Le32, Get16, Get32, Pack, FormatBody, FileBytes, Written;
    var size := DataSize(samples);
    var riffSize: u32 := (36 + size as int) % 0x1_0000_0000;
    var file, body := FileBytes(riffSize, Written(samples, rate, channels, bits)), FormatBody(rate, channels, bits);
    WrittenPlaces(riffSize, samples, rate, channels, bits);
    FormatFields(rate, channels, bits);
    Field32(file, 4, riffSize);
    Field32(file, 16, 16);
    Field32(file, 40, size);
    FieldInside(file, 20, body, 0);
    FieldInside(file, 20, body, 2);
    FieldInside(file, 20, body, 4);
    FieldInside(file, 20, body, 8);
    FieldInside(file, 20, body, 12);
    FieldInside(file, 20, body, 14);
  }

  // ----- which files are read -----

  /** A format chunk for 16-bit PCM. */
  predicate IsPcm16(body: Octets) {
    |body| >= 16 && Get16(body, 0) == 1 && Get16(body, 14) == 16
  }

  function HeaderOf(body: Octets): Header
    requires IsPcm16(body)
  {
    Header(Get16(body, 2), Get32(body, 4), 16, 0)
  }

  /** A format chunk is refused for another coding, or else for another sample width. */
  lemma FormatMeans(body: Octets)
    requires |body| >= 16
    ensures Format(body) == if IsPcm16(body) then Loaded([], HeaderOf(body))
                            else if Get16(body, 0) != 1 then Failed(NotPcm) else Failed(NotSixteenBit)
  {
    hide Get16, Get32;
  }

  /** A data chunk that the file cuts short: the samples that are there, then silence up to the size of the chunk. */
  lemma CutDataMeans(rest: Octets, size: u32, header: Header)
    requires |rest| < size
    ensures var r := Load(rest, size, header);
      && r.Loaded? && |r.samples| == size / 2 && r.header == header.(numSamples := size / 2)
      && (forall i :: 0 <= i < |rest| / 2 ==> r.samples[i] == SampleOf(rest[2 * i], rest[2 * i + 1]))
      && (forall i :: (|rest| + 1) / 2 <= i < size / 2 ==> r.samples[i] == 0)
  {
    hide SampleOf;
    var padded := rest + Zeros(size - size % 2 - |rest|);
    SilentSample();
    forall i | 0 <= i < size / 2 ensures Unpack(padded)[i] == SampleOf(padded[2 * i], padded[2 * i + 1]) {
      UnpackAt(padded, i);
    }
  }

  lemma SilentSample()
    ensures SampleOf(0, 0) == 0
  {
    Word16Is(0, 0);
  }

  lemma {:induction false} UnpackAt(b: Octets, i: nat)
    requires 2 * i + 1 < |b|
    ensures Unpack(b)[i] == SampleOf(b[2 * i], b[2 * i + 1])
  {
    hide SampleOf;
    if i > 0 {
      UnpackAt(b[2..], i - 1);
    }
  }

  /** The chunks in front of chunk d hold no data, and all formats among them are 16-bit PCM. */
  predicate ReadableBefore(chunks: seq<Chunk>, d: nat)
    requires d <= |chunks|
  {
    forall i :: 0 <= i < d ==> chunks[i].id != DATA && (chunks[i].id == FMT ==> IsPcm16(chunks[i].body))
  }

  /** The last format in front of chunk d. */
  function LastFormat(chunks: seq<Chunk>, d: nat): (f: Option<nat>)
    requires d <= |chunks|
    ensures f.Some? ==> f.value < d && chunks[f.value].id == FMT && forall i :: f.value < i < d ==> chunks[i].id != FMT
    ensures f.None? ==> forall i :: 0 <= i < d ==> chunks[i].id != FMT
  {
    if d == 0 then None else if chunks[d - 1].id == FMT then Some(d - 1) else LastFormat(chunks, d - 1)
  }

  lemma {:induction false} MeaningFrom(chunks: seq<Chunk>, d: nat, k: nat, header: Option<Header>)
    requires AllWellFormed(chunks) && k <= d <= |chunks| && ReadableBefore(chunks, d)
    ensures Meaning(chunks[k..], header)
         == Meaning(chunks[d..], if LastFormat(chunks, d).Some? && LastFormat(chunks, d).value >= k
                                 then Some(HeaderOf(chunks[LastFormat(chunks, d).value].body)) else header)
    decreases d - k
  {
    hide IsPcm16, Format, HeaderOf, Unpack;
    if k < d {
      var c := chunks[k];
      assert chunks[k..][0] == c && chunks[k..][1..] == chunks[k + 1..] && c in chunks;
      if c.id == FMT {
        FormatMeans(c.body);
        MeaningFrom(chunks, d, k + 1, Some(HeaderOf(c.body)));
      } else {
        MeaningFrom(chunks, d, k + 1, header);
      }
    }
  }

  /** A well-formed file is read if its first data chunk has a format before it, all formats before it are 16-bit
      PCM and its length is even; then its samples come back under the last of those formats. */
  lemma ReadableFile(riffSize: u32, chunks: seq<Chunk>, d: nat)
    requires AllWellFormed(chunks) && d < |chunks| && chunks[d].id == DATA && ReadableBefore(chunks, d)
    ensures Read(FileBytes(riffSize, chunks))
         == match LastFormat(chunks, d)
            case None => Failed(DataBeforeFormat)
            case Some(f) =>
              if |chunks[d].body| % 2 == 1 then Undefined
              else WithSamples(Unpack(chunks[d].body), HeaderOf(chunks[f].body))
  {
    hide Read, FileBytes, IsPcm16, HeaderOf, Format, Unpack, WithSamples, ReadableBefore, AllWellFormed;
    ReadOfFile(riffSize, chunks);
    MeaningFrom(chunks, d, 0, None);
    assert chunks[0..] == chunks;
    assert chunks[d..][0] == chunks[d];
  }

  /** A file without data is refused, and so is one whose first format that is not 16-bit PCM stands before the
      data. */
  lemma UnreadableFile(riffSize: u32, chunks: seq<Chunk>, d: nat)
    requires AllWellFormed(chunks) && d <= |chunks| && ReadableBefore(chunks, d)
    requires d < |chunks| ==> chunks[d].id == FMT && !IsPcm16(chunks[d].body)
    ensures Read(FileBytes(riffSize, chunks))
         == if d == |chunks| then Failed(NoData)
            else if |chunks[d].body| >= 2 && Get16(chunks[d].body, 0) != 1 then Failed(NotPcm)
                else Failed(NotSixteenBit)
  {
    hide Read, FileBytes, IsPcm16, HeaderOf, Get16, Format;
    ReadOfFile(riffSize, chunks);
    MeaningFrom(chunks, d, 0, None);
    assert chunks[0..] == chunks;
    if d < |chunks| {
      assert chunks[d..][0] == chunks[d] && chunks[d] in chunks;
      FormatMeans(chunks[d].body);
    }
  }
}
