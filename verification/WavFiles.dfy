/** WAVE files as they are written, and what the loader and the validator of WaveFile make of them. */
module WavFiles {
  import opened Bytes
  import opened ChunkBodies
  import opened ChunkReader
  import opened Containers
  import opened WaveFile
  import Arithmetic

  /** A WAVE file made of chunks. */
  function WavBytes(chunks: seq<Chunk>): seq<Byte>
    requires Writable(chunks)
  {
    Container(LittleEndian, RIFF, WAVE, chunks)
  }

  predicate WavAt(mem: Memory, data: nat, chunks: seq<Chunk>) {
    ContainerAt(LittleEndian, RIFF, WAVE, mem, data, chunks)
  }

  /** Where the loader finds the chunks of such a file. */
  lemma WavChunkFound(mem: Memory, data: nat, chunks: seq<Chunk>, id: nat)
    requires WavAt(mem, data, chunks)
    ensures LandsOn(mem, data + 12, chunks, FirstVisible(chunks, id), WavChunk(mem, data, id))
  {
    ChunkFound(LittleEndian, RIFF, WAVE, mem, data, chunks, id);
  }

  lemma FmtRead(mem: Memory, data: nat, chunks: seq<Chunk>)
    requires WavAt(mem, data, chunks)
    requires FirstVisible(chunks, FMT) >= 0 && |chunks[FirstVisible(chunks, FMT)].body| >= 16
    ensures var fmt := chunks[FirstVisible(chunks, FMT)].body;
            && WavHeader(mem, data)
            && WavNum16(mem, data, 0) == Num16(LittleEndian, fmt, 0)
            && WavNum16(mem, data, 2) == Num16(LittleEndian, fmt, 2)
            && WavNum16(mem, data, 14) == Num16(LittleEndian, fmt, 14)
            && WavRate(mem, data) == Num32(LittleEndian, fmt, 4) as real
  {
    WavChunkFound(mem, data, chunks, FMT);
    var fmt, at := chunks[FirstVisible(chunks, FMT)].body, Cursor(WavChunk(mem, data, FMT));
    StoredNum(LittleEndian, mem, at, fmt, 0, 2);
    StoredNum(LittleEndian, mem, at, fmt, 2, 4);
    StoredNum(LittleEndian, mem, at, fmt, 4, 8);
    StoredNum(LittleEndian, mem, at, fmt, 14, 16);
  }

  /** The loop the chunks describe. */
  function LoopOf(chunks: seq<Chunk>): Loop {
    var s := FirstVisible(chunks, SMPL);
    if s < 0 then NoLoop else SmplLoop(chunks[s].body, Found(0))
  }

  /** The number of loops is there, and the first loop if there is one. */
  predicate SmplLongEnough(smpl: seq<Byte>) {
    |smpl| >= 0x20 && (Num32(LittleEndian, smpl, 0x1C) > 0 ==> |smpl| >= 0x34)
  }

  lemma {:induction false} SmplRead(mem: Memory, data: nat, chunks: seq<Chunk>)
    requires WavAt(mem, data, chunks)
    requires var s := FirstVisible(chunks, SMPL); s >= 0 ==> SmplLongEnough(chunks[s].body)
    ensures WavLoop(mem, data) == LoopOf(chunks)
  {
    WavChunkFound(mem, data, chunks, SMPL);
    var s := FirstVisible(chunks, SMPL);
    if s >= 0 {
      var smpl, b := chunks[s].body, Cursor(WavChunk(mem, data, SMPL));
      StoredNum(LittleEndian, mem, b, smpl, 0x1C, 0x20);
      if Num32(LittleEndian, smpl, 0x1C) > 0 {
        StoredNum(LittleEndian, mem, b, smpl, 0x2C, 0x30);
        StoredNum(LittleEndian, mem, b, smpl, 0x30, 0x34);
      }
    }
  }

  lemma DataRead(mem: Memory, data: nat, chunks: seq<Chunk>)
    requires WavAt(mem, data, chunks) && FirstVisible(chunks, DATA) >= 0
    ensures var d, f := FirstVisible(chunks, DATA), WavChunk(mem, data, DATA);
            && f == Found(data + 12 + OffsetOf(chunks, d) + 8)
            && Num32(LittleEndian, mem, f.body - 4) == |chunks[d].body|
            && Stored(mem, f.body, chunks[d].body)
  {
    WavChunkFound(mem, data, chunks, DATA);
    HeaderOf(LittleEndian, mem, data + 12, chunks, FirstVisible(chunks, DATA));
  }

  /** The format a list of chunks describes, read off their bodies. */
  function FormatOf(data: nat, chunks: seq<Chunk>): Format
    requires FirstVisible(chunks, FMT) >= 0 && FirstVisible(chunks, DATA) >= 0
  {
    var fmt, d := chunks[FirstVisible(chunks, FMT)].body, FirstVisible(chunks, DATA);
    Format(16, Num16(LittleEndian, fmt, 2), Num32(LittleEndian, fmt, 4) as real,
           FramesOf(|chunks[d].body|, Num16(LittleEndian, fmt, 2), 0), LoopOf(chunks),
           data + 12 + OffsetOf(chunks, d) + 8)
  }

  /** Chunks that fit a file, with a format chunk, a data chunk and possibly a sampler chunk that
      are long enough for their fields. */
  predicate WellFormed(chunks: seq<Chunk>) {
    && Writable(chunks) && 4 + TotalSize(chunks) < TWO_32
    && FirstVisible(chunks, FMT) >= 0 && |chunks[FirstVisible(chunks, FMT)].body| >= 16
    && FirstVisible(chunks, DATA) >= 0
    && (FirstVisible(chunks, SMPL) >= 0 ==> SmplLongEnough(chunks[FirstVisible(chunks, SMPL)].body))
  }

  /** Uncompressed samples of 16 bits. */
  predicate Pcm16(chunks: seq<Chunk>)
    requires FirstVisible(chunks, FMT) >= 0
  {
    var fmt := chunks[FirstVisible(chunks, FMT)].body;
    Num16(LittleEndian, fmt, 0) == 1 && Num16(LittleEndian, fmt, 14) == 16
  }

  lemma WavAtLoads(mem: Memory, data: nat, chunks: seq<Chunk>)
    requires WavAt(mem, data, chunks) && WellFormed(chunks)
    ensures WavLoads(mem, data) <==> Pcm16(chunks)
  {
    FmtRead(mem, data, chunks);
    DataRead(mem, data, chunks);
  }

  lemma WavAtFormat(mem: Memory, data: nat, chunks: seq<Chunk>)
    requires WavAt(mem, data, chunks) && WellFormed(chunks)
    ensures WavFormat(mem, data, 0) == FormatOf(data, chunks)
    ensures Stored(mem, FormatOf(data, chunks).data, chunks[FirstVisible(chunks, DATA)].body)
  {
    FmtRead(mem, data, chunks);
    SmplRead(mem, data, chunks);
    DataRead(mem, data, chunks);
  }

  /** Loading undoes writing: from a file written with a format chunk, a data chunk and possibly
      a sampler chunk, among any others, the loader recovers exactly what they say, and the data
      start points at the data that were written. */
  lemma WavRoundTrip(mem: Memory, data: nat, chunks: seq<Chunk>)
    requires WellFormed(chunks) && Even(data) == data && Stored(mem, data, WavBytes(chunks))
    ensures WavLoads(mem, data) <==> Pcm16(chunks)
    ensures WavFormat(mem, data, 0) == FormatOf(data, chunks)
    ensures Stored(mem, WavFormat(mem, data, 0).data, chunks[FirstVisible(chunks, DATA)].body)
  {
    ContainerWritten(LittleEndian, RIFF, WAVE, mem, data, chunks);
    WavAtLoads(mem, data, chunks);
    WavAtFormat(mem, data, chunks);
  }

  /** Among the chunks are these, as they are encoded. */
  predicate Holds(chunks: seq<Chunk>, fmt: Fmt, smpl: Option<Smpl>) {
    && Writable(chunks) && 4 + TotalSize(chunks) < TWO_32
    && FirstVisible(chunks, FMT) >= 0 && EncodeFmt(fmt) <= chunks[FirstVisible(chunks, FMT)].body
    && FirstVisible(chunks, DATA) >= 0
    && match smpl
       case None => FirstVisible(chunks, SMPL) < 0
       case Some(s) =>
         SmplFits(s) && FirstVisible(chunks, SMPL) >= 0 && EncodeSmpl(s) <= chunks[FirstVisible(chunks, SMPL)].body
  }

  /** The first loop written. */
  function LoopWritten(smpl: Option<Smpl>): Loop {
    match smpl
    case None => NoLoop
    case Some(s) => if s.loops == [] then NoLoop else Loop(S32(s.loops[0].start), S32(s.loops[0].end + 1))
  }

  lemma SmplHeld(chunks: seq<Chunk>, fmt: Fmt, smpl: Option<Smpl>)
    requires Holds(chunks, fmt, smpl)
    ensures FirstVisible(chunks, SMPL) >= 0 ==> SmplLongEnough(chunks[FirstVisible(chunks, SMPL)].body)
    ensures LoopOf(chunks) == LoopWritten(smpl)
  {
    if smpl.Some? {
      SmplFields(chunks[FirstVisible(chunks, SMPL)].body, smpl.value);
    }
  }

  /** The same from encoded fields: every field that was written comes back, and as many frames as
      the data chunk holds whole. */
  lemma WavFieldsRoundTrip(mem: Memory, data: nat, chunks: seq<Chunk>, fmt: Fmt, smpl: Option<Smpl>)
    requires Holds(chunks, fmt, smpl) && Even(data) == data && Stored(mem, data, WavBytes(chunks))
    ensures WavLoads(mem, data) <==> fmt.audioFmt == 1 && fmt.bits == 16
    ensures var d, f := FirstVisible(chunks, DATA), WavFormat(mem, data, 0);
            && f == Format(16, fmt.channels, fmt.rate as real, f.frames, LoopWritten(smpl), data + 12 + OffsetOf(chunks, d) + 8)
            && Stored(mem, f.data, chunks[d].body)
            && (fmt.channels > 0 ==> WholeFrames(f.frames, fmt.channels, |chunks[d].body|))
  {
    WavFieldsRead(mem, data, chunks, fmt, smpl);
    BodyFits(chunks, FirstVisible(chunks, DATA));
    if fmt.channels > 0 {
      FramesExact(|chunks[FirstVisible(chunks, DATA)].body|, fmt.channels, 0);
    }
  }

  lemma WavFieldsRead(mem: Memory, data: nat, chunks: seq<Chunk>, fmt: Fmt, smpl: Option<Smpl>)
    requires Holds(chunks, fmt, smpl) && Even(data) == data && Stored(mem, data, WavBytes(chunks))
    ensures WavLoads(mem, data) <==> fmt.audioFmt == 1 && fmt.bits == 16
    ensures var d := FirstVisible(chunks, DATA);
            && WavFormat(mem, data, 0)
            == Format(16, fmt.channels, fmt.rate as real, FramesOf(|chunks[d].body|, fmt.channels, 0), LoopWritten(smpl),
                      data + 12 + OffsetOf(chunks, d) + 8)
            && Stored(mem, WavFormat(mem, data, 0).data, chunks[d].body)
  {
    FmtFields(chunks[FirstVisible(chunks, FMT)].body, fmt);
    SmplHeld(chunks, fmt, smpl);
    WavRoundTrip(mem, data, chunks);
  }

  lemma {:induction false} BodyFits(chunks: seq<Chunk>, i: nat)
    requires Writable(chunks) && i < |chunks|
    ensures |chunks[i].body| < TWO_32
    decreases i
  {
    if i > 0 {
      BodyFits(chunks[1..], i - 1);
    }
  }

  /** Of a data chunk with so many frames of these samples, low byte first, exactly these frames are
      what the file holds. */
  lemma WavSamplesRoundTrip(mem: Memory, data: nat, chunks: seq<Chunk>, fmt: Fmt, smpl: Option<Smpl>, count: nat,
                            samples: seq<U16>)
    requires Holds(chunks, fmt, smpl) && Even(data) == data && Stored(mem, data, WavBytes(chunks))
    requires chunks[FirstVisible(chunks, DATA)].body == Words16(LittleEndian, samples) && |samples| == count * fmt.channels
    ensures WavFormat(mem, data, 0).data + 2 * |samples| <= TWO_32 ==>
              Recorded(mem, Wav, WavFormat(mem, data, 0).data, samples)
    ensures fmt.channels > 0 ==> WavFormat(mem, data, 0).frames == count
  {
    var body := chunks[FirstVisible(chunks, DATA)].body;
    WavFieldsRoundTrip(mem, data, chunks, fmt, smpl);
    if fmt.channels > 0 {
      WholeFramesOnly(WavFormat(mem, data, 0).frames, fmt.channels, |body|, count);
    }
    RecordedBody(mem, WavFormat(mem, data, 0).data, body, samples);
  }

  lemma RecordedBody(mem: Memory, at: nat, body: seq<Byte>, samples: seq<U16>)
    requires Stored(mem, at, body) && body == Words16(LittleEndian, samples)
    ensures at + 2 * |samples| <= TWO_32 ==> Recorded(mem, Wav, at, samples)
  {
  }

  /** What the validator makes of such a file, in terms of what was written. */
  lemma WavAcceptedExact(mem: Memory, data: nat, chunks: seq<Chunk>, dataLen: U32, ignoreSize: bool)
    requires WellFormed(chunks) && Even(data) == data && Stored(mem, data, WavBytes(chunks))
    ensures WavAccepted(mem, data, dataLen, ignoreSize)
       <==> Pcm16(chunks) && SizeAgrees(4 + TotalSize(chunks), dataLen, ignoreSize)
            && FormatAllowed(FormatOf(data, chunks), data, dataLen)
    ensures WavFormat(mem, data, 0) == FormatOf(data, chunks)
    ensures WavLoop(mem, data) == FormatOf(data, chunks).loop && WavFrames(mem, data, 0) == FormatOf(data, chunks).frames
  {
    ContainerWritten(LittleEndian, RIFF, WAVE, mem, data, chunks);
    WavRoundTrip(mem, data, chunks);
  }

  /** The data chunk lies inside the file. */
  lemma {:induction false} ChunkInside(chunks: seq<Chunk>, i: nat)
    requires i < |chunks|
    ensures OffsetOf(chunks, i) + 8 + |chunks[i].body| <= TotalSize(chunks)
    decreases i
  {
    if i == 0 {
      EvenIsRounding(|chunks[0].body|);
    } else {
      ChunkInside(chunks[1..], i - 1);
    }
  }

  lemma WholeHasRoom(dataLen: U32, offset: nat, channels: int, frames: int, size: nat)
    requires 1 <= channels <= 2 && WholeFrames(frames, channels, size) && offset + size <= dataLen
    ensures HasRoom(dataLen, offset, channels, frames)
  {
    assert frames <= (dataLen - offset) / (channels * 2);
  }

  /** In signed order, with its end inside so many bytes. */
  predicate LoopInside(loop: Loop, channels: int, size: nat) {
    loop == NoLoop || (loop.start < loop.end && loop.end * (2 * channels) <= size)
  }

  /** A loop ends inside the frames exactly when it ends inside their bytes, and then starts there too. */
  lemma LoopInBytes(loop: Loop, channels: int, frames: int, size: nat)
    requires 1 <= channels <= 2 && WholeFrames(frames, channels, size)
    ensures LoopAllowed(loop, frames) <==> LoopInside(loop, channels, size)
  {
  }

  lemma AllowedAsWritten(f: Format, start: nat, offset: nat, size: nat, dataLen: U32)
    requires f.channels > 0 ==> WholeFrames(f.frames, f.channels, size)
    requires f.data == start + offset && offset + size <= dataLen
    ensures FormatAllowed(f, start, dataLen)
       <==> 1 <= f.channels <= 2 && 4000.0 <= f.rate <= 48000.0 && LoopInside(f.loop, f.channels, size)
  {
    if 1 <= f.channels <= 2 {
      WholeHasRoom(dataLen, offset, f.channels, f.frames, size);
      LoopInBytes(f.loop, f.channels, f.frames, size);
    }
  }

  /** What the validator asks of a written file of which the given length leaves nothing out: one or two
      channels of 16-bit PCM, a rate of 4000 to 48000, and a loop, if there is one, in signed order and
      with its end inside the bytes of the data chunk. */
  lemma WavAcceptedWritten(mem: Memory, data: nat, chunks: seq<Chunk>, fmt: Fmt, smpl: Option<Smpl>, dataLen: U32, ignoreSize: bool)
    requires Holds(chunks, fmt, smpl) && Even(data) == data && Stored(mem, data, WavBytes(chunks))
    requires 12 + TotalSize(chunks) <= dataLen
    ensures WavAccepted(mem, data, dataLen, ignoreSize)
       <==> && fmt.audioFmt == 1 && fmt.bits == 16 && 1 <= fmt.channels <= 2 && 4000 <= fmt.rate <= 48000
            && SizeAgrees(4 + TotalSize(chunks), dataLen, ignoreSize)
            && (smpl.None? || smpl.value.loops == [] ||
                LoopInside(Loop(S32(smpl.value.loops[0].start), S32(smpl.value.loops[0].end + 1)), fmt.channels,
                           |chunks[FirstVisible(chunks, DATA)].body|))
  {
    var d := FirstVisible(chunks, DATA);
    AcceptedFormat(mem, data, chunks, fmt, smpl, dataLen, ignoreSize);
    WavFieldsRoundTrip(mem, data, chunks, fmt, smpl);
    ChunkInside(chunks, d);
    AllowedAsWritten(WavFormat(mem, data, 0), data, 12 + OffsetOf(chunks, d) + 8, |chunks[d].body|, dataLen);
  }

  lemma AcceptedFormat(mem: Memory, data: nat, chunks: seq<Chunk>, fmt: Fmt, smpl: Option<Smpl>, dataLen: U32, ignoreSize: bool)
    requires Holds(chunks, fmt, smpl) && Even(data) == data && Stored(mem, data, WavBytes(chunks))
    ensures WavAccepted(mem, data, dataLen, ignoreSize)
       <==> fmt.audioFmt == 1 && fmt.bits == 16 && SizeAgrees(4 + TotalSize(chunks), dataLen, ignoreSize)
            && FormatAllowed(WavFormat(mem, data, 0), data, dataLen)
  {
    ContainerWritten(LittleEndian, RIFF, WAVE, mem, data, chunks);
    WavFieldsRead(mem, data, chunks, fmt, smpl);
  }

  // ---------------------------------------------------------------- a loop start the validator lets through

  /** The chunks of a file with a format, a sampler and a data chunk. */
  function ThreeChunks(fmt: seq<Byte>, smpl: seq<Byte>, samples: seq<Byte>): seq<Chunk> {
    [Chunk(FMT, fmt), Chunk(SMPL, smpl), Chunk(DATA, samples)]
  }

  lemma ThreeChunksFound(fmt: seq<Byte>, smpl: seq<Byte>, samples: seq<Byte>)
    requires |samples| > 0
    ensures var chunks := ThreeChunks(fmt, smpl, samples);
            && FirstVisible(chunks, FMT) == 0 && FirstVisible(chunks, SMPL) == 1 && FirstVisible(chunks, DATA) == 2
            && TotalSize(chunks) == OffsetOf(chunks, 2) + 8 + Even(|samples|)
            && OffsetOf(chunks, 2) == 16 + Even(|fmt|) + Even(|smpl|)
  {
    var chunks := ThreeChunks(fmt, smpl, samples);
    var rest1, rest2 := chunks[1..], chunks[2..];
    assert rest1 == [chunks[1], chunks[2]] && rest1[1..] == rest2 == [chunks[2]] && rest2[1..] == [];
    assert FirstVisible(rest2, DATA) == 0 && FirstVisible(rest1, SMPL) == 0 && FirstVisible(rest1, DATA) == 1;
    assert OffsetOf(rest1, 1) == ChunkSize(chunks[1]);
    assert TotalSize(rest2) == ChunkSize(chunks[2]);
  }

  /** A mono format and a sampler chunk whose stored loop start is 2^31 or more. */
  predicate NegativeStart(fmt: seq<Byte>, smpl: seq<Byte>, samples: seq<Byte>) {
    && 16 <= |fmt| < 0x1000 && 0x34 <= |smpl| < 0x1000 && 2 <= |samples| < 0x100_0000
    && Num16(LittleEndian, fmt, 0) == 1 && Num16(LittleEndian, fmt, 2) == 1 && Num16(LittleEndian, fmt, 14) == 16
    && 4000 <= Num32(LittleEndian, fmt, 4) <= 48000
    && Num32(LittleEndian, smpl, 0x1C) > 0 && Num32(LittleEndian, smpl, 0x30) < |samples| / 2
    && TWO_31 <= Num32(LittleEndian, smpl, 0x2C) < TWO_32
  }

  lemma SignedStart(start: nat, end: nat, size: nat)
    requires TWO_31 <= start < TWO_32 && end < size / 2 && size < 0x100_0000
    ensures S32(start) < 0 < S32(end + 1) == end + 1 <= FramesOf(size, 1, 0) == size / 2
  {
  }

  lemma RoomForAll(start: nat, size: nat)
    requires start < 0x100_0000 && size < 0x100_0000
    ensures HasRoom(start + size + size % 2, start, 1, size / 2)
  {
  }

  lemma NegativeStartAllowed(data: nat, fmt: seq<Byte>, smpl: seq<Byte>, samples: seq<Byte>)
    requires NegativeStart(fmt, smpl, samples)
    requires FirstVisible(ThreeChunks(fmt, smpl, samples), FMT) == 0
    requires FirstVisible(ThreeChunks(fmt, smpl, samples), DATA) == 2
    requires FirstVisible(ThreeChunks(fmt, smpl, samples), SMPL) == 1
    ensures var chunks := ThreeChunks(fmt, smpl, samples);
            && TotalSize(chunks) < 0x200_0000
            && FormatAllowed(FormatOf(data, chunks), data, 12 + TotalSize(chunks))
            && !UsableLoop(FormatOf(data, chunks).loop, FormatOf(data, chunks).frames)
  {
    var chunks := ThreeChunks(fmt, smpl, samples);
    ThreeChunksFound(fmt, smpl, samples);
    EvenIsRounding(|samples|);
    SignedStart(Num32(LittleEndian, smpl, 0x2C), Num32(LittleEndian, smpl, 0x30), |samples|);
    var start := 12 + OffsetOf(chunks, 2) + 8;
    RoomForAll(start, |samples|);
    assert 12 + TotalSize(chunks) == start + |samples| + |samples| % 2;
  }

  lemma ThreeChunksFormed(fmt: seq<Byte>, smpl: seq<Byte>, samples: seq<Byte>)
    requires 16 <= |fmt| < 0x1000 && 0x34 <= |smpl| < 0x1000 && 2 <= |samples| < 0x100_0000
    requires Num16(LittleEndian, fmt, 0) == 1 && Num16(LittleEndian, fmt, 14) == 16
    ensures WellFormed(ThreeChunks(fmt, smpl, samples)) && Pcm16(ThreeChunks(fmt, smpl, samples))
  {
    var chunks := ThreeChunks(fmt, smpl, samples);
    ThreeChunksFound(fmt, smpl, samples);
    assert chunks[1..] == [chunks[1], chunks[2]] && chunks[1..][1..] == [chunks[2]] && [chunks[2]][1..] == [];
    assert Writable(chunks[1..][1..]) && Writable(chunks[1..]);
  }

  /** Every mono file of these three chunks is accepted whose sampler chunk stores a loop start
      of 2^31 or more: the start is taken for a negative frame number. */
  lemma NegativeLoopAccepted(mem: Memory, data: nat, fmt: seq<Byte>, smpl: seq<Byte>, samples: seq<Byte>)
    requires NegativeStart(fmt, smpl, samples) && Even(data) == data
    requires Writable(ThreeChunks(fmt, smpl, samples)) && Stored(mem, data, WavBytes(ThreeChunks(fmt, smpl, samples)))
    ensures var dataLen := 12 + TotalSize(ThreeChunks(fmt, smpl, samples));
            && dataLen < TWO_32 && WavAccepted(mem, data, dataLen, false)
            && !UsableLoop(WavLoop(mem, data), WavFrames(mem, data, 0))
  {
    ThreeChunksFound(fmt, smpl, samples);
    NegativeStartAllowed(data, fmt, smpl, samples);
    ThreeChunksFormed(fmt, smpl, samples);
    UnusableAccepted(mem, data, ThreeChunks(fmt, smpl, samples));
  }

  lemma UnusableAccepted(mem: Memory, data: nat, chunks: seq<Chunk>)
    requires WellFormed(chunks) && Pcm16(chunks) && Even(data) == data && Stored(mem, data, WavBytes(chunks))
    requires TotalSize(chunks) < 0x200_0000 && FormatAllowed(FormatOf(data, chunks), data, 12 + TotalSize(chunks))
    ensures WavAccepted(mem, data, 12 + TotalSize(chunks), false)
    ensures UsableLoop(WavLoop(mem, data), WavFrames(mem, data, 0))
       <==> UsableLoop(FormatOf(data, chunks).loop, FormatOf(data, chunks).frames)
  {
    FileAccepted(mem, data, chunks, 12 + TotalSize(chunks), false);
  }

  /** A written file with an allowed format is accepted whenever its sizes agree. */
  lemma {:induction false} FileAccepted(mem: Memory, data: nat, chunks: seq<Chunk>, dataLen: U32, ignoreSize: bool)
    requires WellFormed(chunks) && Pcm16(chunks) && Even(data) == data && Stored(mem, data, WavBytes(chunks))
    requires FormatAllowed(FormatOf(data, chunks), data, dataLen)
    ensures WavAccepted(mem, data, dataLen, ignoreSize) <==> SizeAgrees(4 + TotalSize(chunks), dataLen, ignoreSize)
    ensures dataLen == 12 + TotalSize(chunks) ==> WavAccepted(mem, data, dataLen, ignoreSize)
    ensures WavFormat(mem, data, 0) == FormatOf(data, chunks)
    ensures WavLoop(mem, data) == FormatOf(data, chunks).loop && WavFrames(mem, data, 0) == FormatOf(data, chunks).frames
  {
    WavAcceptedExact(mem, data, chunks, dataLen, ignoreSize);
  }

  // ---------------------------------------------------------------- samples behind the end

  /** A mono format, and a sampler chunk without loops. */
  predicate PlainMono(fmt: seq<Byte>, smpl: seq<Byte>, samples: seq<Byte>) {
    && 16 <= |fmt| < 0x1000 && 0x34 <= |smpl| < 0x1000 && 2 <= |samples| < 0x100_0000
    && Num16(LittleEndian, fmt, 0) == 1 && Num16(LittleEndian, fmt, 2) == 1 && Num16(LittleEndian, fmt, 14) == 16
    && 4000 <= Num32(LittleEndian, fmt, 4) <= 48000
    && Num32(LittleEndian, smpl, 0x1C) == 0
  }

  /** A length that ends in front of the samples leaves room for all of them in 32 bits. */
  lemma NegativeRoom(dataLen: U32, start: nat, size: nat)
    requires dataLen < start < 0x100_0000 && size < 0x100_0000
    ensures HasRoom(dataLen, start, 1, FramesOf(size, 1, 0))
  {
    assert (dataLen - start) % TWO_32 == dataLen - start + TWO_32;
  }

  lemma PlainMonoAllowed(data: nat, fmt: seq<Byte>, smpl: seq<Byte>, samples: seq<Byte>, dataLen: U32)
    requires PlainMono(fmt, smpl, samples) && dataLen < 20 + OffsetOf(ThreeChunks(fmt, smpl, samples), 2)
    requires FirstVisible(ThreeChunks(fmt, smpl, samples), FMT) == 0
    requires FirstVisible(ThreeChunks(fmt, smpl, samples), DATA) == 2
    requires FirstVisible(ThreeChunks(fmt, smpl, samples), SMPL) == 1
    ensures var chunks := ThreeChunks(fmt, smpl, samples);
            && TotalSize(chunks) < 0x200_0000
            && FormatAllowed(FormatOf(data, chunks), data, dataLen)
            && FormatOf(data, chunks).data > data + dataLen && FormatOf(data, chunks).frames > 0
  {
    var chunks := ThreeChunks(fmt, smpl, samples);
    ThreeChunksFound(fmt, smpl, samples);
    EvenIsRounding(|samples|);
    NegativeRoom(dataLen, 20 + OffsetOf(chunks, 2), |samples|);
  }

  /** A mono file without a loop whose given length ends in front of its samples is accepted
      whenever that length passes the comparison with the size in the header: the subtraction of
      the data start wraps. With the size ignored, any such length does. */
  lemma LateSamplesAccepted(mem: Memory, data: nat, fmt: seq<Byte>, smpl: seq<Byte>, samples: seq<Byte>,
                                               dataLen: U32, ignoreSize: bool)
    requires PlainMono(fmt, smpl, samples) && Even(data) == data
    requires Writable(ThreeChunks(fmt, smpl, samples)) && Stored(mem, data, WavBytes(ThreeChunks(fmt, smpl, samples)))
    requires dataLen < 20 + OffsetOf(ThreeChunks(fmt, smpl, samples), 2)
    ensures WavAccepted(mem, data, dataLen, ignoreSize)
       <==> SizeAgrees(4 + TotalSize(ThreeChunks(fmt, smpl, samples)), dataLen, ignoreSize)
    ensures WavFormat(mem, data, 0).data > data + dataLen && WavFormat(mem, data, 0).frames > 0
  {
    ThreeChunksFound(fmt, smpl, samples);
    PlainMonoAllowed(data, fmt, smpl, samples, dataLen);
    ThreeChunksFormed(fmt, smpl, samples);
    LateFile(mem, data, ThreeChunks(fmt, smpl, samples), dataLen, ignoreSize);
  }

  lemma LateFile(mem: Memory, data: nat, chunks: seq<Chunk>, dataLen: U32, ignoreSize: bool)
    requires WellFormed(chunks) && Pcm16(chunks) && Even(data) == data && Stored(mem, data, WavBytes(chunks))
    requires FormatAllowed(FormatOf(data, chunks), data, dataLen)
    ensures WavAccepted(mem, data, dataLen, ignoreSize) <==> SizeAgrees(4 + TotalSize(chunks), dataLen, ignoreSize)
    ensures WavFormat(mem, data, 0).data == FormatOf(data, chunks).data
    ensures WavFormat(mem, data, 0).frames == FormatOf(data, chunks).frames
  {
    FileAccepted(mem, data, chunks, dataLen, ignoreSize);
  }
}
