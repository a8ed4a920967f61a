/** AIFF files as they are written, with their list of markers, and what the loader and the
    validator of WaveFile make of them. */
module AiffFiles {
  import opened Bytes
  import opened ChunkBodies
  import opened ChunkReader
  import opened Containers
  import opened WaveFile

  // ---------------------------------------------------------------- markers

  /** A position with an identifier and a name (section "Marker Chunk" of AIFF version 1.3). */
  datatype Marker = Marker(id: U16, position: U32, name: seq<Byte>)

  predicate MarkersFit(markers: seq<Marker>) {
    markers == [] || (|markers[0].name| < 256 && MarkersFit(markers[1..]))
  }

  /** The name is preceded by its length and padded to an even number of bytes with it. */
  function EncodeMarker(m: Marker): (b: seq<Byte>)
    requires |m.name| < 256
    ensures |b| == Even(7 + |m.name|)
  {
    EvenIsRounding(7 + |m.name|);
    Digits(BigEndian, m.id, 2) + (Digits(BigEndian, m.position, 4)
      + ([|m.name|] + (m.name + if |m.name| % 2 == 0 then [0] else [])))
  }

  function EncodeMarkers(markers: seq<Marker>): seq<Byte>
    requires MarkersFit(markers)
  {
    if markers == [] then [] else EncodeMarker(markers[0]) + EncodeMarkers(markers[1..])
  }

  /** The body of a marker chunk. */
  function MarkBody(markers: seq<Marker>): seq<Byte>
    requires MarkersFit(markers)
  {
    Digits(BigEndian, |markers|, 2) + EncodeMarkers(markers)
  }

  /** The position of the last marker with this identifier. */
  function LastPosition(markers: seq<Marker>, id: nat): Option<nat> {
    if markers == [] then None
    else
      var later := LastPosition(markers[1..], id);
      if later.Some? || markers[0].id != id then later else Some(markers[0].position)
  }

  lemma MarkerRead(mem: Memory, at: nat, m: Marker, rest: seq<Byte>)
    requires |m.name| < 256 && Stored(mem, at, EncodeMarker(m) + rest)
    ensures Num16(BigEndian, mem, at) == m.id && Num32(BigEndian, mem, at + 2) == m.position
    ensures At(mem, at + 6) == |m.name| && Stored(mem, at + Even(7 + |m.name|), rest)
  {
    var id, position := Digits(BigEndian, m.id, 2), Digits(BigEndian, m.position, 4);
    var name := [|m.name|] + (m.name + if |m.name| % 2 == 0 then [0] else []);
    StoredSplit(mem, at, EncodeMarker(m), rest);
    StoredSplit(mem, at, id, position + name);
    StoredSplit(mem, at + 2, position, name);
    Pow256Is4();
    assert Pow256(2) == 0x1_0000;
    DigitsRead(BigEndian, mem, at, m.id, 2);
    DigitsRead(BigEndian, mem, at + 2, m.position, 4);
    StoredByte(mem, at + 6, name, 0);
  }

  /** The pass over written markers finds the last one with an identifier. */
  lemma {:induction false} MarkersRead(mem: Memory, at: nat, markers: seq<Marker>, id: nat)
    requires MarkersFit(markers) && Even(at) == at && Stored(mem, at, EncodeMarkers(markers))
    ensures LastMark(mem, at, |markers|, id) == LastPosition(markers, id)
    decreases |markers|
  {
    if markers != [] {
      var m := markers[0];
      MarkerRead(mem, at, m, EncodeMarkers(markers[1..]));
      EvenShift(at, 7 + |m.name|);
      MarkersRead(mem, at + Even(7 + |m.name|), markers[1..], id);
    }
  }

  /** The whole chunk, from its count on. */
  lemma {:induction false} MarkBodyRead(mem: Memory, at: nat, markers: seq<Marker>, id: nat)
    requires MarkersFit(markers) && |markers| < 0x1_0000 && Even(at) == at && Stored(mem, at, MarkBody(markers))
    ensures LastMark(mem, at + 2, Num16(BigEndian, mem, at), id) == LastPosition(markers, id)
  {
    StoredSplit(mem, at, Digits(BigEndian, |markers|, 2), EncodeMarkers(markers));
    assert Pow256(2) == 0x1_0000;
    DigitsRead(BigEndian, mem, at, |markers|, 2);
    EvenShift(at, 2);
    EvenIsRounding(2);
    MarkersRead(mem, at + 2, markers, id);
  }

  // ---------------------------------------------------------------- files

  /** An AIFF file made of chunks. */
  function AiffBytes(chunks: seq<Chunk>): seq<Byte>
    requires Writable(chunks)
  {
    Container(BigEndian, FORM, AIFF, chunks)
  }

  predicate AiffAt(mem: Memory, data: nat, chunks: seq<Chunk>) {
    ContainerAt(BigEndian, FORM, AIFF, mem, data, chunks)
  }

  /** The body of the first visible chunk with this identifier, or nothing. */
  function BodyOf(chunks: seq<Chunk>, id: nat): seq<Byte> {
    if FirstVisible(chunks, id) < 0 then [] else chunks[FirstVisible(chunks, id)].body
  }

  /** The instrument chunk asks for a loop. */
  predicate AsksLoop(chunks: seq<Chunk>) {
    FirstVisible(chunks, INST) >= 0 && Num16(BigEndian, BodyOf(chunks, INST), 8) == 1
  }

  /** Chunks that fit a file, with a common chunk, a sound data chunk and possibly an instrument
      chunk that are long enough for their fields, and these markers if there is a loop. */
  predicate WellFormed(chunks: seq<Chunk>, markers: seq<Marker>) {
    && Writable(chunks) && 4 + TotalSize(chunks) < TWO_32 && MarkersFit(markers) && |markers| < 0x1_0000
    && FirstVisible(chunks, COMM) >= 0 && |BodyOf(chunks, COMM)| >= 18
    && FirstVisible(chunks, SSND) >= 0 && |BodyOf(chunks, SSND)| >= 8
    && (FirstVisible(chunks, INST) >= 0 ==> |BodyOf(chunks, INST)| >= 14)
    && (AsksLoop(chunks) ==> FirstVisible(chunks, MARK) >= 0 && BodyOf(chunks, MARK) == MarkBody(markers))
  }

  /** A file of such chunks is in memory. */
  predicate Written(mem: Memory, data: nat, chunks: seq<Chunk>, markers: seq<Marker>) {
    WellFormed(chunks, markers) && Even(data) == data && Stored(mem, data, AiffBytes(chunks))
  }

  /** Samples of 16 bits without offset or blocks. */
  predicate Plain16(chunks: seq<Chunk>) {
    Num16(BigEndian, BodyOf(chunks, COMM), 6) == 16
    && Num32(BigEndian, BodyOf(chunks, SSND), 0) == 0 && Num32(BigEndian, BodyOf(chunks, SSND), 4) == 0
  }

  /** The loop that the chunks describe, from what the loop fields held before. */
  function LoopOf(chunks: seq<Chunk>, markers: seq<Marker>, before: (int, int)): Loop {
    if !AsksLoop(chunks) then NoLoop
    else
      var begin, end := Num16(BigEndian, BodyOf(chunks, INST), 10), Num16(BigEndian, BodyOf(chunks, INST), 12);
      Loop(MarkedOr(LastPosition(markers, begin), before.0),
           if begin == end then before.1 else MarkedOr(LastPosition(markers, end), before.1))
  }

  /** The format they describe, read off their bodies. */
  function FormatOf(data: nat, chunks: seq<Chunk>, markers: seq<Marker>, before: (int, int)): Format
    requires FirstVisible(chunks, SSND) >= 0
  {
    var comm := BodyOf(chunks, COMM);
    Format(16, Num16(BigEndian, comm, 0),
           DecodeIeeeExtended(Num16(BigEndian, comm, 8), Num32(BigEndian, comm, 10), Num32(BigEndian, comm, 14)),
           S32(Num32(BigEndian, comm, 2)), LoopOf(chunks, markers, before),
           data + 12 + OffsetOf(chunks, FirstVisible(chunks, SSND)) + 8 + 8)
  }

  lemma {:induction false} BodyField(mem: Memory, data: nat, chunks: seq<Chunk>, id: nat, lo: nat, hi: nat)
    requires AiffAt(mem, data, chunks) && FirstVisible(chunks, id) >= 0 && lo <= hi <= |BodyOf(chunks, id)|
    ensures AiffChunk(mem, data, id).Found?
    ensures Num(BigEndian, mem, Cursor(AiffChunk(mem, data, id)) + lo, Cursor(AiffChunk(mem, data, id)) + hi)
         == Num(BigEndian, BodyOf(chunks, id), lo, hi)
  {
    ChunkFound(BigEndian, FORM, AIFF, mem, data, chunks, id);
    FieldRead(BigEndian, FORM, AIFF, mem, data, chunks, id, lo, hi);
  }

  lemma CommRead(mem: Memory, data: nat, chunks: seq<Chunk>)
    requires AiffAt(mem, data, chunks) && FirstVisible(chunks, COMM) >= 0 && |BodyOf(chunks, COMM)| >= 18
    ensures var comm, c := BodyOf(chunks, COMM), Comm(mem, data);
            && AiffHeader(mem, data)
            && Num16(BigEndian, mem, c) == Num16(BigEndian, comm, 0)
            && Num32(BigEndian, mem, c + 2) == Num32(BigEndian, comm, 2)
            && Num16(BigEndian, mem, c + 6) == Num16(BigEndian, comm, 6)
            && AiffRate(mem, data) == DecodeIeeeExtended(Num16(BigEndian, comm, 8), Num32(BigEndian, comm, 10), Num32(BigEndian, comm, 14))
  {
    BodyField(mem, data, chunks, COMM, 0, 2);
    BodyField(mem, data, chunks, COMM, 2, 6);
    BodyField(mem, data, chunks, COMM, 6, 8);
    BodyField(mem, data, chunks, COMM, 8, 10);
    BodyField(mem, data, chunks, COMM, 10, 14);
    BodyField(mem, data, chunks, COMM, 14, 18);
  }

  lemma SsndRead(mem: Memory, data: nat, chunks: seq<Chunk>)
    requires AiffAt(mem, data, chunks) && FirstVisible(chunks, SSND) >= 0 && |BodyOf(chunks, SSND)| >= 8
    ensures var ssnd, at := BodyOf(chunks, SSND), Ssnd(mem, data);
            && AiffChunk(mem, data, SSND) == Found(at)
            && at == data + 12 + OffsetOf(chunks, FirstVisible(chunks, SSND)) + 8
            && Num32(BigEndian, mem, at) == Num32(BigEndian, ssnd, 0)
            && Num32(BigEndian, mem, at + 4) == Num32(BigEndian, ssnd, 4)
            && Stored(mem, at + 8, ssnd[8..])
  {
    var ssnd := BodyOf(chunks, SSND);
    ChunkFound(BigEndian, FORM, AIFF, mem, data, chunks, SSND);
    BodyField(mem, data, chunks, SSND, 0, 4);
    BodyField(mem, data, chunks, SSND, 4, 8);
    assert ssnd[..8] + ssnd[8..] == ssnd;
    StoredSplit(mem, Ssnd(mem, data), ssnd[..8], ssnd[8..]);
  }

  /** The body of a chunk lies at an even address. */
  lemma BodyStored(mem: Memory, data: nat, chunks: seq<Chunk>, id: nat)
    requires AiffAt(mem, data, chunks) && FirstVisible(chunks, id) >= 0
    ensures var at := Cursor(AiffChunk(mem, data, id));
            Even(at) == at && Stored(mem, at, BodyOf(chunks, id))
  {
    var i := FirstVisible(chunks, id);
    ChunkFound(BigEndian, FORM, AIFF, mem, data, chunks, id);
    EvenOffset(data + 12, chunks, i);
    EvenShift(data + 12 + OffsetOf(chunks, i), 8);
  }

  lemma InstRead(mem: Memory, data: nat, chunks: seq<Chunk>)
    requires AiffAt(mem, data, chunks)
    requires FirstVisible(chunks, INST) >= 0 ==> |BodyOf(chunks, INST)| >= 14
    ensures AiffChunk(mem, data, INST).Found? <==> FirstVisible(chunks, INST) >= 0
    ensures FirstVisible(chunks, INST) >= 0 ==>
              var b, inst := Cursor(AiffChunk(mem, data, INST)), BodyOf(chunks, INST);
              && Num16(BigEndian, mem, b + 8) == Num16(BigEndian, inst, 8)
              && Num16(BigEndian, mem, b + 10) == Num16(BigEndian, inst, 10)
              && Num16(BigEndian, mem, b + 12) == Num16(BigEndian, inst, 12)
  {
    ChunkFound(BigEndian, FORM, AIFF, mem, data, chunks, INST);
    if FirstVisible(chunks, INST) >= 0 {
      BodyField(mem, data, chunks, INST, 8, 10);
      BodyField(mem, data, chunks, INST, 10, 12);
      BodyField(mem, data, chunks, INST, 12, 14);
    }
  }

  lemma LoopRead(mem: Memory, data: nat, chunks: seq<Chunk>, markers: seq<Marker>, before: (int, int))
    requires AiffAt(mem, data, chunks) && WellFormed(chunks, markers)
    ensures AiffLoop(mem, data, before) == LoopOf(chunks, markers, before)
  {
    InstRead(mem, data, chunks);
    if AsksLoop(chunks) {
      var inst, mark := Cursor(AiffChunk(mem, data, INST)), Cursor(AiffChunk(mem, data, MARK));
      var begin, end := Num16(BigEndian, mem, inst + 10), Num16(BigEndian, mem, inst + 12);
      BodyStored(mem, data, chunks, MARK);
      MarkersAreLast(mem, mark + 2, Num16(BigEndian, mem, mark), begin, end, before);
      MarkBodyRead(mem, mark, markers, begin);
      MarkBodyRead(mem, mark, markers, end);
    }
  }

  /** Loading undoes writing: from a file written with a common chunk, a sound data chunk and
      possibly an instrument chunk with its markers, among any others, the loader recovers exactly
      what they say, and the data start points at the samples that were written. */
  lemma AiffRoundTrip(mem: Memory, data: nat, chunks: seq<Chunk>, markers: seq<Marker>, before: (int, int))
    requires Written(mem, data, chunks, markers)
    ensures AiffLoads(mem, data) <==> Plain16(chunks)
    ensures AiffFormat(mem, data, before) == FormatOf(data, chunks, markers, before)
    ensures Stored(mem, AiffFormat(mem, data, before).data, BodyOf(chunks, SSND)[8..])
    ensures AiffChunk(mem, data, SSND).Found? && Num32(BigEndian, mem, data + 4) == 4 + TotalSize(chunks)
  {
    ContainerWritten(BigEndian, FORM, AIFF, mem, data, chunks);
    CommRead(mem, data, chunks);
    SsndRead(mem, data, chunks);
    LoopRead(mem, data, chunks, markers, before);
  }

  /** Among the chunks are these, as they are encoded. */
  predicate Holds(chunks: seq<Chunk>, common: Common, inst: Option<Instrument>, markers: seq<Marker>, offset: U32, blockSize: U32,
                  samples: seq<Byte>) {
    && Writable(chunks) && 4 + TotalSize(chunks) < TWO_32 && MarkersFit(markers) && |markers| < 0x1_0000
    && FirstVisible(chunks, COMM) >= 0 && EncodeCommon(common) <= BodyOf(chunks, COMM)
    && FirstVisible(chunks, SSND) >= 0 && BodyOf(chunks, SSND) == EncodeSound(offset, blockSize, samples)
    && match inst
       case None => FirstVisible(chunks, INST) < 0
       case Some(i) =>
         && |i.notes| == 8 && FirstVisible(chunks, INST) >= 0 && EncodeInstrument(i) <= BodyOf(chunks, INST)
         && (i.sustain.mode == 1 ==> FirstVisible(chunks, MARK) >= 0 && BodyOf(chunks, MARK) == MarkBody(markers))
  }

  /** The sustain loop written, if it goes forward only. */
  function LoopWritten(inst: Option<Instrument>, markers: seq<Marker>, before: (int, int)): Loop {
    match inst
    case None => NoLoop
    case Some(i) =>
      var l := i.sustain;
      if l.mode != 1 then NoLoop
      else
        Loop(MarkedOr(LastPosition(markers, l.begin), before.0),
             if l.begin == l.end then before.1 else MarkedOr(LastPosition(markers, l.end), before.1))
  }

  lemma InstHeld(chunks: seq<Chunk>, common: Common, inst: Option<Instrument>, markers: seq<Marker>, offset: U32, blockSize: U32,
                 samples: seq<Byte>, before: (int, int))
    requires Holds(chunks, common, inst, markers, offset, blockSize, samples)
    ensures WellFormed(chunks, markers) && LoopOf(chunks, markers, before) == LoopWritten(inst, markers, before)
  {
    if inst.Some? {
      InstrumentFields(BodyOf(chunks, INST), inst.value);
    }
  }

  /** The same from encoded fields: every field that was written comes back. */
  lemma AiffFieldsRoundTrip(mem: Memory, data: nat, chunks: seq<Chunk>, common: Common, inst: Option<Instrument>,
                            markers: seq<Marker>, offset: U32, blockSize: U32, samples: seq<Byte>, before: (int, int))
    requires Holds(chunks, common, inst, markers, offset, blockSize, samples)
    requires Even(data) == data && Stored(mem, data, AiffBytes(chunks))
    ensures AiffLoads(mem, data) <==> common.bits == 16 && offset == 0 && blockSize == 0
    ensures AiffFormat(mem, data, before)
         == Format(16, common.channels, DecodeIeeeExtended(common.signExpon, common.mantissaHi, common.mantissaLo),
                   S32(common.frames), LoopWritten(inst, markers, before),
                   data + 12 + OffsetOf(chunks, FirstVisible(chunks, SSND)) + 8 + 8)
    ensures Stored(mem, AiffFormat(mem, data, before).data, samples)
  {
    CommonFields(BodyOf(chunks, COMM), common);
    SoundFields(offset, blockSize, samples);
    InstHeld(chunks, common, inst, markers, offset, blockSize, samples, before);
    AiffRoundTrip(mem, data, chunks, markers, before);
  }

  /** Of a sound data chunk with these samples, high byte first, exactly these are what the file
      holds. */
  lemma AiffSamplesRoundTrip(mem: Memory, data: nat, chunks: seq<Chunk>, common: Common, inst: Option<Instrument>,
                             markers: seq<Marker>, offset: U32, blockSize: U32, sound: seq<Byte>, samples: seq<U16>,
                             before: (int, int))
    requires Holds(chunks, common, inst, markers, offset, blockSize, sound) && sound == Words16(BigEndian, samples)
    requires Even(data) == data && Stored(mem, data, AiffBytes(chunks))
    ensures AiffFormat(mem, data, before).data + 2 * |samples| <= TWO_32 ==>
              Recorded(mem, Aiff, AiffFormat(mem, data, before).data, samples)
  {
    AiffFieldsRoundTrip(mem, data, chunks, common, inst, markers, offset, blockSize, sound, before);
  }

  /** What the validator makes of such a file, in terms of what was written. */
  lemma AiffAcceptedExact(mem: Memory, data: nat, chunks: seq<Chunk>, markers: seq<Marker>, dataLen: U32,
                                             ignoreSize: bool, before: (int, int))
    ensures Written(mem, data, chunks, markers) ==>
              (AiffAccepted(mem, data, dataLen, ignoreSize, before)
               <==> Plain16(chunks) && SizeAgrees(4 + TotalSize(chunks), dataLen, ignoreSize)
                    && FormatAllowed(FormatOf(data, chunks, markers, before), data, dataLen))
  {
    if Written(mem, data, chunks, markers) {
      AiffRoundTrip(mem, data, chunks, markers, before);
    }
  }

  /** What the validator asks of a written file whose given length reaches at least to its samples:
      one or two channels of plain 16-bit samples, a rate of 4000 to 48000, room for all frames in the
      given length, and a loop, if there is one, in signed order and with its end inside the frames. */
  lemma AiffAcceptedWritten(mem: Memory, data: nat, chunks: seq<Chunk>, common: Common, inst: Option<Instrument>,
                            markers: seq<Marker>, offset: U32, blockSize: U32, samples: seq<Byte>, before: (int, int),
                            dataLen: U32, ignoreSize: bool)
    requires Holds(chunks, common, inst, markers, offset, blockSize, samples)
    requires Even(data) == data && Stored(mem, data, AiffBytes(chunks))
    requires 12 + OffsetOf(chunks, FirstVisible(chunks, SSND)) + 16 <= dataLen
    ensures AiffAccepted(mem, data, dataLen, ignoreSize, before)
       <==> && common.bits == 16 && offset == 0 && blockSize == 0 && 1 <= common.channels <= 2
            && 4000.0 <= DecodeIeeeExtended(common.signExpon, common.mantissaHi, common.mantissaLo) <= 48000.0
            && SizeAgrees(4 + TotalSize(chunks), dataLen, ignoreSize)
            && common.frames * (2 * common.channels) <= dataLen - (12 + OffsetOf(chunks, FirstVisible(chunks, SSND)) + 16)
            && var loop := LoopWritten(inst, markers, before);
               loop == NoLoop || (loop.start < loop.end <= common.frames)
  {
    InstHeld(chunks, common, inst, markers, offset, blockSize, samples, before);
    AiffRoundTrip(mem, data, chunks, markers, before);
    AiffFieldsRoundTrip(mem, data, chunks, common, inst, markers, offset, blockSize, samples, before);
    AllowedInRoom(AiffFormat(mem, data, before), data, 12 + OffsetOf(chunks, FirstVisible(chunks, SSND)) + 16, common.frames, dataLen);
  }

  lemma AllowedInRoom(f: Format, start: nat, offset: nat, frames: U32, dataLen: U32)
    requires f.frames == S32(frames) && f.data == start + offset && offset <= dataLen
    ensures FormatAllowed(f, start, dataLen)
       <==> 1 <= f.channels <= 2 && 4000.0 <= f.rate <= 48000.0 && frames * (2 * f.channels) <= dataLen - offset
            && (f.loop == NoLoop || (f.loop.start < f.loop.end <= frames))
  {
    S32Range(frames);
    if f.channels == 1 {
      assert HasRoom(dataLen, offset, 1, f.frames) <==> frames <= (dataLen - offset) / 2;
    } else if f.channels == 2 {
      assert HasRoom(dataLen, offset, 2, f.frames) <==> frames <= (dataLen - offset) / 4;
    }
  }

  lemma SizesAgree(total: nat)
    requires 12 + total < TWO_32
    ensures SizeAgrees(4 + total, 12 + total, false)
  {
  }

  /** Everything the validator asks but for the start of the loop. */
  predicate AllowedButStart(f: Format, start: nat, dataLen: U32) {
    1 <= f.channels <= 2 && 4000.0 <= f.rate <= 48000.0
    && HasRoom(dataLen, f.data - start, f.channels, f.frames)
    && f.loop.Loop? && 0 <= f.loop.end <= f.frames
  }

  lemma NegativeAllowed(f: Format, start: nat, dataLen: U32)
    requires AllowedButStart(f, start, dataLen) && f.loop.start < 0
    ensures FormatAllowed(f, start, dataLen) && !UsableLoop(f.loop, f.frames)
  {
  }

  /** Chunks that pass everything else, with a begin marker whose stored position is 2^31 or more. */
  predicate NegativeMark(data: nat, chunks: seq<Chunk>, markers: seq<Marker>, before: (int, int))
    requires 12 + TotalSize(chunks) < TWO_32
  {
    var begin := LastPosition(markers, Num16(BigEndian, BodyOf(chunks, INST), 10));
    && FirstVisible(chunks, SSND) >= 0 && Plain16(chunks) && AsksLoop(chunks)
    && AllowedButStart(FormatOf(data, chunks, markers, before), data, 12 + TotalSize(chunks))
    && begin.Some? && TWO_31 <= begin.value < TWO_32
  }

  /** The loop starts at the last begin marker. */
  lemma StartMarked(data: nat, chunks: seq<Chunk>, markers: seq<Marker>, before: (int, int))
    requires AsksLoop(chunks) && FirstVisible(chunks, SSND) >= 0
    ensures var begin := LastPosition(markers, Num16(BigEndian, BodyOf(chunks, INST), 10));
            begin.Some? && TWO_31 <= begin.value < TWO_32 ==> FormatOf(data, chunks, markers, before).loop.start < 0
  {
    var begin := LastPosition(markers, Num16(BigEndian, BodyOf(chunks, INST), 10));
    if begin.Some? {
      S32Range(begin.value);
    }
  }

  lemma NegativeMarkAllowed(data: nat, chunks: seq<Chunk>, markers: seq<Marker>, before: (int, int))
    requires 12 + TotalSize(chunks) < TWO_32 && NegativeMark(data, chunks, markers, before)
    ensures var f := FormatOf(data, chunks, markers, before);
            FormatAllowed(f, data, 12 + TotalSize(chunks)) && !UsableLoop(f.loop, f.frames)
  {
    StartMarked(data, chunks, markers, before);
    NegativeAllowed(FormatOf(data, chunks, markers, before), data, 12 + TotalSize(chunks));
  }

  /** A mono or stereo file that has room for its samples and ends its loop inside them is accepted
      with any begin marker whose stored position is 2^31 or more. */
  lemma {:induction false} NegativeMarkAccepted(mem: Memory, data: nat, chunks: seq<Chunk>, markers: seq<Marker>, before: (int, int))
    requires 12 + TotalSize(chunks) < TWO_32
    ensures Written(mem, data, chunks, markers) && NegativeMark(data, chunks, markers, before) ==>
              && AiffAccepted(mem, data, 12 + TotalSize(chunks), false, before)
              && !UsableLoop(AiffFormat(mem, data, before).loop, AiffFormat(mem, data, before).frames)
  {
    if Written(mem, data, chunks, markers) && NegativeMark(data, chunks, markers, before) {
      NegativeMarkAllowed(data, chunks, markers, before);
      SizesAgree(TotalSize(chunks));
      AiffAcceptedExact(mem, data, chunks, markers, 12 + TotalSize(chunks), false, before);
      AiffRoundTrip(mem, data, chunks, markers, before);
    }
  }
}
