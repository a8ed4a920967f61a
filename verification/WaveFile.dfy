/** WaveFileWav and WaveFileAiff of src/bannerSound/AudioWaveUtility.cpp: a validator and a
    loader for each format, and the sample source behind both. One class stands for the two; the
    field `kind` says which. */
module WaveFile {
  import opened Bytes
  import opened ChunkBodies
  import opened ChunkReader
  import Arithmetic

  const TWO_30: int := 0x4000_0000
  const TWO_31: int := 0x8000_0000
  const TWO_32: int := 0x1_0000_0000

  const RIFF: U32 := 0x5249_4646
  const WAVE: U32 := 0x5741_5645
  const FMT: U32 := 0x666D_7420
  const SMPL: U32 := 0x736D_706C
  const DATA: U32 := 0x6461_7461
  const FORM: U32 := 0x464F_524D
  const AIFF: U32 := 0x4149_4646
  const COMM: U32 := 0x434F_4D4D
  const INST: U32 := 0x494E_5354
  const MARK: U32 := 0x4D41_524B
  const SSND: U32 := 0x5353_4E44

  /** Conversion to a signed 32-bit integer. */
  function S32(u: int): int
  {
    var w := u % TWO_32;
    if w < TWO_31 then w else w - TWO_32
  }

  /** OSRoundUp32B. */
  function RoundUp32B(x: int): int {
    (x + 31) % TWO_32 / 32 * 32
  }

  datatype Loop = NoLoop | Loop(start: int, end: int)

  /** What the two loaders find out about a file. */
  datatype Format = Format(bits: int, channels: int, rate: real, frames: int, loop: Loop, data: nat)

  /** The loop bounds a validator lets through: signed comparisons. */
  predicate LoopAllowed(loop: Loop, frames: int) {
    match loop
    case NoLoop => true
    case Loop(s, e) => s < e && s < frames && e <= frames
  }

  /** Enough bytes behind the data start, in 32-bit unsigned arithmetic. */
  predicate HasRoom(dataLen: U32, dataOffset: int, channels: int, frames: int)
    requires channels > 0
  {
    frames % TWO_32 <= (dataLen - dataOffset) % TWO_32 / (channels * 2)
  }

  predicate SizeAgrees(fileSize: int, dataLen: U32, ignoreSize: bool) {
    ignoreSize || RoundUp32B(fileSize + 8) == RoundUp32B(dataLen)
  }

  /** Rounding up to a multiple of 32 bytes; what would reach 2^32 becomes 0. */
  lemma RoundUpExact(x: U32)
    ensures RoundUp32B(x) % 32 == 0
    ensures if x <= TWO_32 - 32 then x <= RoundUp32B(x) < x + 32 else RoundUp32B(x) == 0
  {
  }

  /** The size in the header and the given length agree exactly when they are the same number of
      32-byte blocks, counted whole; so a file may be handed over with its last block filled up. */
  lemma SizeAgreesExact(fileSize: nat, dataLen: U32)
    requires fileSize + 8 <= TWO_32 - 32 && dataLen <= TWO_32 - 32
    ensures SizeAgrees(fileSize, dataLen, false) <==> exists blocks: nat :: Blocks(fileSize + 8, blocks) && Blocks(dataLen, blocks)
    ensures fileSize + 8 <= dataLen < fileSize + 40 && (dataLen == fileSize + 8 || dataLen % 32 == 0) ==>
              SizeAgrees(fileSize, dataLen, false)
  {
    OnlyBlocks(fileSize + 8);
    OnlyBlocks(dataLen);
    RoundUpExact(fileSize + 8);
    RoundUpExact(dataLen);
    if SizeAgrees(fileSize, dataLen, false) {
      var blocks: nat := RoundUp32B(dataLen) / 32;
      assert Blocks(fileSize + 8, blocks) && Blocks(dataLen, blocks);
    }
  }

  lemma OnlyBlocks(size: U32)
    requires size <= TWO_32 - 32
    ensures RoundUp32B(size) == 32 * (RoundUp32B(size) / 32)
    ensures forall blocks: nat :: Blocks(size, blocks) <==> blocks == RoundUp32B(size) / 32
  {
    RoundUpExact(size);
  }

  /** So many bytes need so many blocks. */
  predicate Blocks(size: nat, blocks: nat) {
    32 * blocks - 32 < size <= 32 * blocks
  }

  /** What a validator asks of the format: one or two channels, 4 to 48 kHz, the samples inside
      the file, the loop inside the samples. */
  predicate FormatAllowed(f: Format, start: nat, dataLen: U32) {
    1 <= f.channels <= 2 && 4000.0 <= f.rate <= 48000.0
    && HasRoom(dataLen, f.data - start, f.channels, f.frames) && LoopAllowed(f.loop, f.frames)
  }

  // ---------------------------------------------------------------- WAVE files

  function WavChunk(mem: Memory, data: nat, id: nat): Found {
    Seek(LittleEndian, mem, data + 12, id, data + Num32(LittleEndian, mem, data + 4))
  }

  predicate WavHeader(mem: Memory, data: nat) {
    Tag(mem, data) == RIFF && Tag(mem, data + 8) == WAVE && WavChunk(mem, data, FMT).Found?
  }

  function WavNum16(mem: Memory, data: nat, k: nat): nat {
    Num16(LittleEndian, mem, Cursor(WavChunk(mem, data, FMT)) + k)
  }

  function WavRate(mem: Memory, data: nat): real {
    Num32(LittleEndian, mem, Cursor(WavChunk(mem, data, FMT)) + 4) as real
  }

  /** The loop of a sampler chunk; the end is stored as the last frame played. */
  function SmplLoop(mem: Memory, smpl: Found): Loop {
    match smpl
    case Missing(_) => NoLoop
    case Found(b) =>
      if Num32(LittleEndian, mem, b + 0x1C) > 0 then
        Loop(S32(Num32(LittleEndian, mem, b + 0x2C)), S32(Num32(LittleEndian, mem, b + 0x30) + 1))
      else NoLoop
  }

  function WavLoop(mem: Memory, data: nat): Loop {
    SmplLoop(mem, WavChunk(mem, data, SMPL))
  }

  /** Sample frames of two bytes a channel; division by zero leaves an undefined word. */
  function FramesOf(size: nat, channels: nat, undefined: U32): int {
    S32(if channels == 0 then undefined as int else size / channels / 2)
  }

  /** This many frames of two bytes a channel fit so many bytes, and one more does not. */
  predicate WholeFrames(frames: int, channels: nat, size: nat) {
    0 <= frames && frames * (2 * channels) <= size < (frames + 1) * (2 * channels)
  }

  /** Of n frames, n. */
  lemma WholeFramesOnly(frames: int, channels: nat, size: nat, n: nat)
    requires WholeFrames(frames, channels, size) && size == 2 * (n * channels)
    ensures frames == n
  {
    OnlyQuotient(size, 2 * channels, frames, n);
  }

  /** The frame count is that of the whole frames that the bytes hold. */
  lemma FramesExact(size: U32, channels: nat, undefined: U32)
    requires channels > 0
    ensures WholeFrames(FramesOf(size, channels, undefined), channels, size)
  {
    HalvedQuotient(size, channels);
    var frames := size / channels / 2;
    assert frames <= size / channels <= size by {
      Arithmetic.Floor(size, channels);
      Arithmetic.Monotone(1, channels, size / channels);
    }
  }

  lemma HalvedQuotient(size: nat, channels: nat)
    requires channels > 0
    ensures size / channels >= 0 && size / channels / 2 * (2 * channels) <= size < (size / channels / 2 + 1) * (2 * channels)
  {
    var whole := size / channels;
    var half := whole / 2;
    Arithmetic.Floor(size, channels);
    Arithmetic.Monotone(2 * half, whole, channels);
    Arithmetic.Monotone(whole + 1, 2 * half + 2, channels);
    assert half * (2 * channels) == 2 * half * channels;
    assert (half + 1) * (2 * channels) == (2 * half + 2) * channels;
  }

  lemma OnlyQuotient(size: nat, m: nat, q: nat, n: nat)
    requires q * m <= size < (q + 1) * m && size == n * m
    ensures n == q
  {
    if n < q {
      Arithmetic.Monotone(n + 1, q, m);
    } else if n > q {
      Arithmetic.Monotone(q + 1, n, m);
    }
  }

  function WavFrames(mem: Memory, data: nat, undefined: U32): int {
    FramesOf(Num32(LittleEndian, mem, Cursor(WavChunk(mem, data, DATA)) - 4), WavNum16(mem, data, 2), undefined)
  }

  function WavFormat(mem: Memory, data: nat, undefined: U32): Format {
    Format(16, WavNum16(mem, data, 2), WavRate(mem, data), WavFrames(mem, data, undefined), WavLoop(mem, data),
           Cursor(WavChunk(mem, data, DATA)))
  }

  predicate WavLoads(mem: Memory, data: nat) {
    WavHeader(mem, data) && WavNum16(mem, data, 0) == 1 && WavNum16(mem, data, 14) == 16
    && WavChunk(mem, data, DATA).Found?
  }

  predicate WavAccepted(mem: Memory, data: nat, dataLen: U32, ignoreSize: bool) {
    WavLoads(mem, data)
    && SizeAgrees(Num32(LittleEndian, mem, data + 4), dataLen, ignoreSize)
    && FormatAllowed(WavFormat(mem, data, 0), data, dataLen)
  }

  // ---------------------------------------------------------------- AIFF files

  function AiffChunk(mem: Memory, data: nat, id: nat): Found {
    Seek(BigEndian, mem, data + 12, id, data + Num32(BigEndian, mem, data + 4))
  }

  /** The common chunk, and the sound data chunk or wherever the search for it ended. */
  function Comm(mem: Memory, data: nat): nat {
    Cursor(AiffChunk(mem, data, COMM))
  }

  function Ssnd(mem: Memory, data: nat): nat {
    Cursor(AiffChunk(mem, data, SSND))
  }

  predicate AiffHeader(mem: Memory, data: nat) {
    Tag(mem, data) == FORM && Tag(mem, data + 8) == AIFF && AiffChunk(mem, data, COMM).Found?
  }

  function PowerOfTwo(k: int): real
    decreases if k < 0 then -k else k
  {
    if k == 0 then 1.0 else if k > 0 then 2.0 * PowerOfTwo(k - 1) else PowerOfTwo(k + 1) / 2.0
  }

  /** The 80-bit number, in exact arithmetic. */
  function DecodeIeeeExtended(signExpon: int, mantissaHi: int, mantissaLo: int): real {
    var power := signExpon % 0x8000 - 16414;
    var val := mantissaHi as real * PowerOfTwo(power) + mantissaLo as real * PowerOfTwo(power - 32);
    if signExpon >= 0x8000 then -val else val
  }

  /** Each power is twice the one before. */
  lemma PowersDouble(k: int)
    ensures PowerOfTwo(0) == 1.0 && PowerOfTwo(k + 1) == 2.0 * PowerOfTwo(k)
  {
  }

  lemma {:induction false} PowersShift(k: int, n: nat)
    ensures PowerOfTwo(k + n) == PowerOfTwo(n) * PowerOfTwo(k)
    decreases n
  {
    if n > 0 {
      PowersShift(k, n - 1);
      PowersDouble(k + n - 1);
      PowersDouble(n - 1);
    }
  }

  /** The number is a sign, 64 bits of mantissa, and an exponent of base two of which 16383 stands
      for one in front of the first bit. */
  lemma DecodeExact(signExpon: U16, mantissaHi: U32, mantissaLo: U32)
    ensures var mantissa := mantissaHi as real * 4294967296.0 + mantissaLo as real;
            DecodeIeeeExtended(signExpon, mantissaHi, mantissaLo)
            == (if signExpon < 0x8000 then 1.0 else -1.0) * mantissa * PowerOfTwo(signExpon % 0x8000 - 16383 - 63)
  {
    var power := signExpon % 0x8000 - 16383 - 63;
    PowersShift(power, 32);
    PowerOfThirtyTwo();
    assert mantissaHi as real * PowerOfTwo(power + 32) == mantissaHi as real * 4294967296.0 * PowerOfTwo(power);
  }

  lemma PowerOfThirtyTwo()
    ensures PowerOfTwo(32) == 4294967296.0
  {
    assert PowerOfTwo(8) == 256.0;
    PowersShift(8, 8);
    PowersShift(16, 16);
  }

  /** A whole rate, written with its first bit shifted to the front, is read back. */
  lemma RateRead(rate: U32, shift: int, mantissa: U32)
    requires 0 <= shift <= 31 && mantissa as real == rate as real * PowerOfTwo(shift)
    ensures DecodeIeeeExtended(16383 + 31 - shift, mantissa, 0) == rate as real
  {
    PowersShift(-shift, shift);
    TimesInverse(rate as real, PowerOfTwo(shift), PowerOfTwo(-shift));
  }

  lemma TimesInverse(x: real, y: real, z: real)
    requires y * z == 1.0
    ensures x * y * z == x
  {
    assert x * y * z == x * (y * z);
  }

  function AiffRate(mem: Memory, data: nat): real {
    var c := Comm(mem, data);
    DecodeIeeeExtended(Num16(BigEndian, mem, c + 8), Num32(BigEndian, mem, c + 10), Num32(BigEndian, mem, c + 14))
  }

  /** What one marker does to the loop positions. A marker with both identifiers sets the start. */
  function MarkerMoves(id: nat, position: int, begin: nat, end: nat, positions: (int, int)): (int, int) {
    if id == begin then (position, positions.1)
    else if id == end then (positions.0, position)
    else positions
  }

  /** The loop positions after n markers from `at` on, given what they were before. */
  function Markers(mem: Memory, at: nat, n: nat, begin: nat, end: nat, positions: (int, int)): (int, int)
    decreases n
  {
    if n == 0 then positions
    else
      Markers(mem, Even(at + 7 + At(mem, at + 6)), n - 1, begin, end,
              MarkerMoves(Num16(BigEndian, mem, at), S32(Num32(BigEndian, mem, at + 2)), begin, end, positions))
  }

  /** The loop of an instrument chunk whose markers are counted at `mark`. */
  function InstLoop(mem: Memory, inst: Found, mark: nat, positions: (int, int)): Loop {
    match inst
    case Missing(_) => NoLoop
    case Found(b) =>
      if Num16(BigEndian, mem, b + 8) == 1 then
        var p := Markers(mem, mark + 2, Num16(BigEndian, mem, mark),
                         Num16(BigEndian, mem, b + 10), Num16(BigEndian, mem, b + 12), positions);
        Loop(p.0, p.1)
      else NoLoop
  }

  /** `positions` is what the loop fields held before. A missing marker chunk is not tested for. */
  function AiffLoop(mem: Memory, data: nat, positions: (int, int)): Loop {
    InstLoop(mem, AiffChunk(mem, data, INST), Cursor(AiffChunk(mem, data, MARK)), positions)
  }

  function AiffFormat(mem: Memory, data: nat, positions: (int, int)): Format {
    Format(16, Num16(BigEndian, mem, Comm(mem, data)), AiffRate(mem, data),
           S32(Num32(BigEndian, mem, Comm(mem, data) + 2)), AiffLoop(mem, data, positions),
           Ssnd(mem, data) + 8)
  }

  /** The loader does not test whether the sound data chunk was found. */
  predicate AiffLoads(mem: Memory, data: nat) {
    AiffHeader(mem, data) && Num16(BigEndian, mem, Comm(mem, data) + 6) == 16
    && Num32(BigEndian, mem, Ssnd(mem, data)) == 0 && Num32(BigEndian, mem, Ssnd(mem, data) + 4) == 0
  }

  predicate AiffAccepted(mem: Memory, data: nat, dataLen: U32, ignoreSize: bool, positions: (int, int)) {
    AiffLoads(mem, data)
    && SizeAgrees(Num32(BigEndian, mem, data + 4), dataLen, ignoreSize)
    && AiffChunk(mem, data, SSND).Found?
    && FormatAllowed(AiffFormat(mem, data, positions), data, dataLen)
  }

  // ---------------------------------------------------------------- the class

  datatype Kind = Wav | Aiff

  class WaveFile {
    const mem: Memory
    const kind: Kind
    var mBits: int
    var mNumChans: int
    var mSamplingRate: real
    var mFrames: int
    var mIsLoop: bool
    var mLoopStart: int
    var mLoopEnd: int
    /** Addresses of samples, or 0 for NULL. */
    var mpDataBase: nat
    var mpDataCur: nat

    constructor (mem: Memory, kind: Kind)
      ensures this.mem == mem && this.kind == kind && mpDataBase == 0 && mpDataCur == 0
    {
      this.mem, this.kind := mem, kind;
      mpDataBase, mpDataCur := 0, 0;
    }

    function Shown(): Format
      reads this
    {
      Format(mBits, mNumChans, mSamplingRate, mFrames, if mIsLoop then Loop(mLoopStart, mLoopEnd) else NoLoop, mpDataBase)
    }

    // The steps that the validator and the loader of a format have in common. Each starts and
    // ends with the cursor where the source has it.

    /** Tag, size, tag: the first twelve bytes. */
    method ReadHeader(reader: Reader) returns (first: U32, fileSize: U32, second: U32)
      requires reader.mem == mem
      modifies reader
      ensures first == Tag(mem, old(reader.mpRead)) && second == Tag(mem, old(reader.mpRead) + 8)
      ensures fileSize == Num32(reader.order, mem, old(reader.mpRead) + 4)
      ensures reader.mpRead == old(reader.mpRead) + 12
    {
      first := reader.ReadTag();
      fileSize := reader.Read32();
      second := reader.ReadTag();
    }

    method ReadFmt(reader: Reader, fileEnd: nat) returns (found: bool, audioFmt: U16)
      requires reader.mem == mem && reader.order == LittleEndian && reader.mpRead >= reader.mpBase
      modifies reader, this`mNumChans, this`mSamplingRate, this`mBits
      ensures var f := Seek(LittleEndian, mem, old(reader.mpRead), FMT, fileEnd);
              && found == f.Found?
              && (found ==> audioFmt == Num16(LittleEndian, mem, f.body)
                            && mNumChans == Num16(LittleEndian, mem, f.body + 2)
                            && mSamplingRate == Num32(LittleEndian, mem, f.body + 4) as real
                            && mBits == Num16(LittleEndian, mem, f.body + 14))
    {
      audioFmt := 0;
      found := reader.SeekChunk(FMT, fileEnd);
      if !found {
        return;
      }
      audioFmt := reader.Read16();
      mNumChans := reader.Read16();
      var rate := reader.Read32();
      mSamplingRate := rate as real;
      reader.SeekTo(reader.GetOffset() + 6);
      mBits := reader.Read16();
    }

    method ReadSmpl(reader: Reader, fileEnd: nat)
      requires reader.mem == mem && reader.order == LittleEndian && reader.mpRead >= reader.mpBase
      modifies reader, this`mIsLoop, this`mLoopStart, this`mLoopEnd
      ensures (if mIsLoop then Loop(mLoopStart, mLoopEnd) else NoLoop)
           == SmplLoop(mem, Seek(LittleEndian, mem, old(reader.mpRead), SMPL, fileEnd))
    {
      var found := reader.SeekChunk(SMPL, fileEnd);
      if found {
        reader.SeekTo(reader.GetOffset() + 0x1C);
        var loops := reader.Read32();
        if loops > 0 {
          mIsLoop := true;
          reader.SeekTo(reader.GetOffset() + 0x0C);
          var start := reader.Read32();
          var end := reader.Read32();
          mLoopStart, mLoopEnd := S32(start), S32(end as int + 1);
        } else {
          mIsLoop := false;
        }
      } else {
        mIsLoop := false;
      }
    }

    /** `undefined` is what the processor's division by zero leaves behind. */
    method FindData(reader: Reader, fileEnd: nat, undefined: U32) returns (found: bool)
      requires reader.mem == mem && reader.order == LittleEndian && reader.mpRead >= reader.mpBase
      requires mBits == 16 && mNumChans >= 0
      modifies reader, this`mFrames, this`mpDataCur, this`mpDataBase
      ensures var f := Seek(LittleEndian, mem, old(reader.mpRead), DATA, fileEnd);
              && found == f.Found?
              && (found ==> mFrames == FramesOf(Num32(LittleEndian, mem, f.body - 4), mNumChans, undefined)
                            && mpDataBase == mpDataCur == f.body)
    {
      found := reader.SeekChunk(DATA, fileEnd);
      if !found {
        return;
      }
      reader.SeekTo(reader.GetOffset() - 4);
      var dataSize := reader.Read32();
      mFrames := S32(if mNumChans == 0 then undefined as int else dataSize / mNumChans / (mBits / 8));
      mpDataCur := reader.mpRead;
      mpDataBase := mpDataCur;
    }

    /** Back to the first chunk for the loop, and back again for the samples. */
    method ReadRest(reader: Reader, fileEnd: nat, undefined: U32) returns (found: bool)
      requires reader.mem == mem && reader.order == LittleEndian
      requires mBits == 16 && mNumChans >= 0
      modifies reader, this`mIsLoop, this`mLoopStart, this`mLoopEnd, this`mFrames, this`mpDataCur, this`mpDataBase
      ensures var f := Seek(LittleEndian, mem, reader.mpBase + 12, DATA, fileEnd);
              && found == f.Found?
              && (found ==> mFrames == FramesOf(Num32(LittleEndian, mem, f.body - 4), mNumChans, undefined)
                            && mpDataBase == mpDataCur == f.body)
      ensures (if mIsLoop then Loop(mLoopStart, mLoopEnd) else NoLoop)
           == SmplLoop(mem, Seek(LittleEndian, mem, reader.mpBase + 12, SMPL, fileEnd))
    {
      reader.SeekTo(12);
      ReadSmpl(reader, fileEnd);
      reader.SeekTo(12);
      found := FindData(reader, fileEnd, undefined);
    }

    /** The header and the format chunk. The validator tests the file size on the way. */
    method OpenWav(reader: Reader, data: nat, validate: bool, dataLen: U32, ignoreSize: bool)
        returns (good: bool, fileEnd: nat)
      requires reader.mem == mem && reader.order == LittleEndian && reader.mpRead == reader.mpBase == data
      modifies reader, this`mNumChans, this`mSamplingRate, this`mBits
      ensures fileEnd == data + Num32(LittleEndian, mem, data + 4)
      ensures good <==>
                && WavHeader(mem, data) && WavNum16(mem, data, 0) == 1
                && (validate ==> SizeAgrees(Num32(LittleEndian, mem, data + 4), dataLen, ignoreSize))
      ensures good ==> mNumChans == WavNum16(mem, data, 2) && mSamplingRate == WavRate(mem, data)
                         && mBits == WavNum16(mem, data, 14)
    {
      var riffTag, fileSize, format := ReadHeader(reader);
      fileEnd := data + fileSize;
      if riffTag != RIFF {
        return false, fileEnd;
      }
      if validate && !SizeAgrees(fileSize, dataLen, ignoreSize) {
        return false, fileEnd;
      }
      if format != WAVE {
        return false, fileEnd;
      }
      var audioFmt;
      good, audioFmt := ReadFmt(reader, fileEnd);
      good := good && audioFmt == 1;
    }

    method InitWav(data: nat, undefined: U32) returns (ok: bool)
      modifies this
      ensures ok <==> WavLoads(mem, data)
      ensures ok ==> Shown() == WavFormat(mem, data, undefined) && mpDataCur == mpDataBase
      ensures ok && mNumChans > 0 ==>
                mpDataBase >= 4 && WholeFrames(mFrames, mNumChans, Num32(LittleEndian, mem, mpDataBase - 4))
    {
      var reader := new Reader(LittleEndian, mem, data);
      var good, fileEnd := OpenWav(reader, data, false, 0, true);
      if !good || mBits != 16 {
        return false;
      }
      ok := ReadRest(reader, fileEnd, undefined);
      if ok && mNumChans > 0 {
        NumFits(LittleEndian, mem, mpDataBase - 4);
        FramesExact(Num32(LittleEndian, mem, mpDataBase - 4), mNumChans, undefined);
      }
    }

    /** All of the validator but its last tests. */
    method ReadWav(reader: Reader, data: nat, dataLen: U32, ignoreSize: bool) returns (good: bool)
      requires reader.mem == mem && reader.order == LittleEndian && reader.mpRead == reader.mpBase == data
      modifies this, reader
      ensures good <==>
                && WavLoads(mem, data) && SizeAgrees(Num32(LittleEndian, mem, data + 4), dataLen, ignoreSize)
                && 1 <= WavNum16(mem, data, 2) <= 2 && 4000.0 <= WavRate(mem, data) <= 48000.0
      ensures good ==> Shown() == WavFormat(mem, data, 0) && mpDataCur == mpDataBase
    {
      var fileEnd;
      good, fileEnd := OpenWav(reader, data, true, dataLen, ignoreSize);
      if !good || mNumChans == 0 || mNumChans > 2 || mSamplingRate > 48000.0 || mSamplingRate < 4000.0 || mBits != 16 {
        return false;
      }
      good := ReadRest(reader, fileEnd, 0);
    }

    method CheckWav(data: nat, dataLen: U32, ignoreSize: bool) returns (ok: bool)
      modifies this
      ensures ok <==> WavAccepted(mem, data, dataLen, ignoreSize)
      ensures ok ==> Shown() == WavFormat(mem, data, 0) && mpDataCur == mpDataBase
    {
      var reader := new Reader(LittleEndian, mem, data);
      var good := ReadWav(reader, data, dataLen, ignoreSize);
      if !good {
        return false;
      }
      ok := CheckBounds(data, dataLen);
    }

    /** The common chunk. */
    method ReadComm(reader: Reader, fileEnd: nat) returns (found: bool)
      requires reader.mem == mem && reader.order == BigEndian && reader.mpRead >= reader.mpBase
      modifies reader, this`mNumChans, this`mFrames, this`mBits, this`mSamplingRate
      ensures var f := Seek(BigEndian, mem, old(reader.mpRead), COMM, fileEnd);
              && found == f.Found?
              && (found ==> mNumChans == Num16(BigEndian, mem, f.body)
                            && mFrames == S32(Num32(BigEndian, mem, f.body + 2))
                            && mBits == Num16(BigEndian, mem, f.body + 6)
                            && mSamplingRate == DecodeIeeeExtended(Num16(BigEndian, mem, f.body + 8),
                                 Num32(BigEndian, mem, f.body + 10), Num32(BigEndian, mem, f.body + 14)))
    {
      found := reader.SeekChunk(COMM, fileEnd);
      if !found {
        return;
      }
      mNumChans := reader.Read16();
      var frames := reader.Read32();
      mFrames := S32(frames);
      mBits := reader.Read16();
      var signExpon := reader.Read16();
      var mantissaHi := reader.Read32();
      var mantissaLo := reader.Read32();
      mSamplingRate := DecodeIeeeExtended(signExpon, mantissaHi, mantissaLo);
    }

    /** The loop positions from a list of markers. */
    method ReadMarkers(reader: Reader, markerIdBegin: U16, markerIdEnd: U16)
      requires reader.mem == mem && reader.order == BigEndian
      modifies reader, this`mLoopStart, this`mLoopEnd
      ensures (mLoopStart, mLoopEnd)
           == Markers(mem, old(reader.mpRead) + 2, Num16(BigEndian, mem, old(reader.mpRead)),
                      markerIdBegin, markerIdEnd, old((mLoopStart, mLoopEnd)))
    {
      var markerCount := reader.Read16();
      var i := 0;
      while i < markerCount
        invariant 0 <= i <= markerCount
        invariant Markers(mem, reader.mpRead, markerCount - i, markerIdBegin, markerIdEnd, (mLoopStart, mLoopEnd))
               == Markers(mem, old(reader.mpRead) + 2, markerCount, markerIdBegin, markerIdEnd, old((mLoopStart, mLoopEnd)))
      {
        ReadMarker(reader, markerIdBegin, markerIdEnd);
        i := i + 1;
      }
    }

    method ReadMarker(reader: Reader, markerIdBegin: U16, markerIdEnd: U16)
      requires reader.mem == mem && reader.order == BigEndian
      modifies reader, this`mLoopStart, this`mLoopEnd
      ensures var at := old(reader.mpRead);
              && reader.mpRead == Even(at + 7 + At(mem, at + 6))
              && (mLoopStart, mLoopEnd)
              == MarkerMoves(Num16(BigEndian, mem, at), S32(Num32(BigEndian, mem, at + 2)), markerIdBegin, markerIdEnd,
                             old((mLoopStart, mLoopEnd)))
    {
      var markerId := reader.Read16();
      var position := reader.Read32();
      var pstringLen := reader.Read8();
      if markerId == markerIdBegin {
        mLoopStart := S32(position);
      } else if markerId == markerIdEnd {
        mLoopEnd := S32(position);
      }
      reader.Advance(pstringLen);
      reader.Align2();
    }

    /** The instrument chunk decides whether there is a loop, the marker chunk where. */
    method ReadInst(reader: Reader, fileEnd: nat)
      requires reader.mem == mem && reader.order == BigEndian
      modifies reader, this`mIsLoop, this`mLoopStart, this`mLoopEnd
      ensures (if mIsLoop then Loop(mLoopStart, mLoopEnd) else NoLoop)
           == InstLoop(mem, Seek(BigEndian, mem, reader.mpBase + 12, INST, fileEnd),
                       Cursor(Seek(BigEndian, mem, reader.mpBase + 12, MARK, fileEnd)), old((mLoopStart, mLoopEnd)))
    {
      var found, loopMode, markerIdBegin, markerIdEnd := ReadLoopMode(reader, fileEnd);
      if found && loopMode == 1 {
        mIsLoop := true;
        reader.SeekTo(12);
        found := reader.SeekChunk(MARK, fileEnd);
        ReadMarkers(reader, markerIdBegin, markerIdEnd);
      } else {
        // no instrument chunk, no looping, or a mode that is not supported
        mIsLoop := false;
      }
    }

    method ReadLoopMode(reader: Reader, fileEnd: nat)
        returns (found: bool, loopMode: U16, markerIdBegin: U16, markerIdEnd: U16)
      requires reader.mem == mem && reader.order == BigEndian
      modifies reader
      ensures var f := Seek(BigEndian, mem, reader.mpBase + 12, INST, fileEnd);
              && found == f.Found?
              && (found ==> loopMode == Num16(BigEndian, mem, f.body + 8)
                            && markerIdBegin == Num16(BigEndian, mem, f.body + 10)
                            && markerIdEnd == Num16(BigEndian, mem, f.body + 12))
    {
      loopMode, markerIdBegin, markerIdEnd := 0, 0, 0;
      reader.SeekTo(12);
      found := reader.SeekChunk(INST, fileEnd);
      if found {
        reader.SeekTo(reader.GetOffset() + 8);
        loopMode := reader.Read16();
        markerIdBegin := reader.Read16();
        markerIdEnd := reader.Read16();
      }
    }

    /** The sound data chunk: `found` as the search says, `plain` if its two fields are zero. */
    method FindSsnd(reader: Reader, fileEnd: nat) returns (found: bool, plain: bool)
      requires reader.mem == mem && reader.order == BigEndian
      modifies reader, this`mpDataCur, this`mpDataBase
      ensures var f := Seek(BigEndian, mem, reader.mpBase + 12, SSND, fileEnd);
              && found == f.Found?
              && (plain <==> Num32(BigEndian, mem, Cursor(f)) == 0 && Num32(BigEndian, mem, Cursor(f) + 4) == 0)
              && (plain ==> mpDataBase == mpDataCur == Cursor(f) + 8)
    {
      reader.SeekTo(12);
      found := reader.SeekChunk(SSND, fileEnd);
      var dataOffset := reader.Read32();
      var dataBlockSize := reader.Read32();
      plain := dataOffset == 0 && dataBlockSize == 0;
      if plain {
        mpDataCur := reader.mpRead;
        mpDataBase := mpDataCur;
      }
    }

    /** The loop, and then the samples. */
    method ReadInstSsnd(reader: Reader, fileEnd: nat, ghost data: nat) returns (found: bool, plain: bool)
      requires reader.mem == mem && reader.order == BigEndian
      requires reader.mpBase == data && fileEnd == data + Num32(BigEndian, mem, data + 4)
      modifies reader, this`mIsLoop, this`mLoopStart, this`mLoopEnd, this`mpDataCur, this`mpDataBase
      ensures found == AiffChunk(mem, data, SSND).Found?
      ensures plain <==> Num32(BigEndian, mem, Ssnd(mem, data)) == 0 && Num32(BigEndian, mem, Ssnd(mem, data) + 4) == 0
      ensures plain ==> mpDataBase == mpDataCur == Ssnd(mem, data) + 8
      ensures (if mIsLoop then Loop(mLoopStart, mLoopEnd) else NoLoop) == AiffLoop(mem, data, old((mLoopStart, mLoopEnd)))
    {
      ReadInst(reader, fileEnd);
      found, plain := FindSsnd(reader, fileEnd);
    }

    /** The header and the common chunk. The validator tests the file size on the way. */
    method OpenAiff(reader: Reader, data: nat, validate: bool, dataLen: U32, ignoreSize: bool)
        returns (good: bool, fileEnd: nat)
      requires reader.mem == mem && reader.order == BigEndian && reader.mpRead == reader.mpBase == data
      modifies reader, this`mNumChans, this`mFrames, this`mBits, this`mSamplingRate
      ensures fileEnd == data + Num32(BigEndian, mem, data + 4)
      ensures good <==>
                && AiffHeader(mem, data)
                && (validate ==> SizeAgrees(Num32(BigEndian, mem, data + 4), dataLen, ignoreSize))
      ensures good ==>
                && mNumChans == Num16(BigEndian, mem, Comm(mem, data))
                && mFrames == S32(Num32(BigEndian, mem, Comm(mem, data) + 2))
                && mBits == Num16(BigEndian, mem, Comm(mem, data) + 6)
                && mSamplingRate == AiffRate(mem, data)
    {
      var chunkID, fileSize, format := ReadHeader(reader);
      fileEnd := data + fileSize;
      if chunkID != FORM {
        return false, fileEnd;
      }
      if validate && !SizeAgrees(fileSize, dataLen, ignoreSize) {
        return false, fileEnd;
      }
      if format != AIFF {
        return false, fileEnd;
      }
      good := ReadComm(reader, fileEnd);
    }

    method InitAiff(data: nat) returns (ok: bool)
      modifies this
      ensures ok <==> AiffLoads(mem, data)
      ensures ok ==> Shown() == AiffFormat(mem, data, old((mLoopStart, mLoopEnd))) && mpDataCur == mpDataBase
    {
      var reader := new Reader(BigEndian, mem, data);
      var good, fileEnd := OpenAiff(reader, data, false, 0, true);
      if !good || mBits != 16 {
        return false;
      }
      var found;
      found, ok := ReadInstSsnd(reader, fileEnd, data);
    }

    /** All of the validator but its last tests. */
    method ReadAiff(reader: Reader, data: nat, dataLen: U32, ignoreSize: bool) returns (good: bool)
      requires reader.mem == mem && reader.order == BigEndian && reader.mpRead == reader.mpBase == data
      modifies this, reader
      ensures good <==>
                && AiffLoads(mem, data) && SizeAgrees(Num32(BigEndian, mem, data + 4), dataLen, ignoreSize)
                && 1 <= Num16(BigEndian, mem, Comm(mem, data)) <= 2 && 4000.0 <= AiffRate(mem, data) <= 48000.0
                && AiffChunk(mem, data, SSND).Found?
      ensures good ==> Shown() == AiffFormat(mem, data, old((mLoopStart, mLoopEnd))) && mpDataCur == mpDataBase
    {
      var fileEnd;
      good, fileEnd := OpenAiff(reader, data, true, dataLen, ignoreSize);
      if !good || mNumChans == 0 || mNumChans > 2 || mBits != 16 || mSamplingRate > 48000.0 || mSamplingRate < 4000.0 {
        return false;
      }
      var found, plain := ReadInstSsnd(reader, fileEnd, data);
      good := found && plain;
    }

    method CheckAiff(data: nat, dataLen: U32, ignoreSize: bool) returns (ok: bool)
      modifies this
      ensures ok <==> AiffAccepted(mem, data, dataLen, ignoreSize, old((mLoopStart, mLoopEnd)))
      ensures ok ==> Shown() == AiffFormat(mem, data, old((mLoopStart, mLoopEnd))) && mpDataCur == mpDataBase
    {
      var reader := new Reader(BigEndian, mem, data);
      var good := ReadAiff(reader, data, dataLen, ignoreSize);
      if !good {
        return false;
      }
      ok := CheckBounds(data, dataLen);
    }

    /** The last tests of both validators: enough sample bytes, and a loop inside the frames. */
    method CheckBounds(data: nat, dataLen: U32) returns (ok: bool)
      requires mNumChans > 0
      ensures ok <==>
                && HasRoom(dataLen, mpDataCur - data, Shown().channels, Shown().frames)
                && LoopAllowed(Shown().loop, Shown().frames)
    {
      if (dataLen - (mpDataCur - data)) % TWO_32 / (mNumChans * 2) < mFrames % TWO_32 {
        return false;
      }
      if mIsLoop {
        if mLoopStart >= mLoopEnd {
          return false;
        }
        if mLoopStart >= mFrames {
          return false;
        }
        if mLoopEnd > mFrames {
          return false;
        }
      }
      return true;
    }

    // ------------------------------------------------------------ reading samples

    /** The sample k places behind the data start, as the processor sees it. */
    function SampleAt(k: int): U16
      reads this
    {
      SampleOf(mem, kind, mpDataBase, k)
    }

    /** The cursor is k samples behind the data start, or in front of it if k is negative. */
    ghost predicate OnSample(k: int)
      reads this
    {
      mpDataBase < TWO_32 && mpDataCur == Address(mpDataBase, k) && -TWO_30 <= k < TWO_30
    }

    /** The samples from there to the end, as a signed number. */
    function RemainingFrom(k: int): int
      reads this
    {
      S32(mFrames * mNumChans - k)
    }

    function GetLoopStart(): int
      reads this
    {
      if mIsLoop then mLoopStart else -1
    }

    function GetLoopEnd(): int
      reads this
    {
      if mIsLoop then mLoopEnd else -1
    }

    method SetDataCur(sampleOffset: U32)
      modifies this`mpDataCur
      ensures mpDataCur == Address(mpDataBase, sampleOffset)
    {
      mpDataCur := (mpDataBase + 2 * sampleOffset) % TWO_32;
    }

    /** At most the samples that are left; in front of a negative count a WAVE file reads nothing.
        An AIFF file would pass it on to memcpy_s. */
    method ReadData(dataOut: array<U16>, numSamples0: int, ghost k: int) returns (numSamples: int)
      requires mpDataCur == 0 || (OnSample(k) && numSamples0 <= dataOut.Length)
      requires kind == Aiff && mpDataCur != 0 ==> numSamples0 >= 0 && RemainingFrom(k) >= 0
      modifies dataOut, this`mpDataCur
      ensures old(mpDataCur) == 0 ==> numSamples == 0 && mpDataCur == 0 && dataOut[..] == old(dataOut[..])
      ensures old(mpDataCur) != 0 ==>
                && numSamples == (if numSamples0 <= RemainingFrom(k) then numSamples0 else RemainingFrom(k))
                && mpDataCur == Address(mpDataBase, if numSamples < 0 then k else k + numSamples)
                && (forall i :: 0 <= i < numSamples ==> dataOut[i] == SampleAt(k + i))
                && (forall i :: 0 <= i < dataOut.Length && numSamples <= i ==> dataOut[i] == old(dataOut[i]))
      ensures old(mpDataCur) != 0 ==> forall samples: seq<U16>, i :: Recorded(mem, kind, mpDataBase, samples) ==>
                0 <= i < numSamples && 0 <= k + i < |samples| ==> dataOut[i] == samples[k + i]
    {
      if mpDataCur == 0 {
        return 0;
      }
      OffsetIs(mpDataBase, k);
      // the difference of two pointers to samples, as an unsigned number
      var offset := S32(mpDataCur - mpDataBase) / 2 % TWO_32;
      SignedDifference(mFrames * mNumChans, k);
      var remainingSamples := S32(mFrames * mNumChans - offset);
      numSamples := if numSamples0 > remainingSamples then remainingSamples else numSamples0;
      if kind == Wav {
        ReadSwapped(dataOut, numSamples, k);
      } else {
        CopyWords(dataOut, numSamples, k);
        AddressMoves(mpDataBase, k, numSamples);
        mpDataCur := (mpDataCur + 2 * numSamples) % TWO_32;
      }
      forall samples: seq<U16>, i | Recorded(mem, kind, mpDataBase, samples) && 0 <= i < numSamples && 0 <= k + i < |samples|
        ensures dataOut[i] == samples[k + i]
      {
        SampleRecorded(mem, kind, mpDataBase, samples, k + i);
      }
    }

    /** WaveFileWav: the processor reads each sample as a big-endian word and swaps its bytes. */
    method ReadSwapped(dataOut: array<U16>, numSamples: int, ghost k: int)
      requires kind == Wav && mpDataCur == Address(mpDataBase, k) && numSamples <= dataOut.Length
      modifies dataOut, this`mpDataCur
      ensures mpDataCur == Address(mpDataBase, if numSamples < 0 then k else k + numSamples)
      ensures forall i :: 0 <= i < numSamples ==> dataOut[i] == SampleAt(k + i)
      ensures forall i :: 0 <= i < dataOut.Length && numSamples <= i ==> dataOut[i] == old(dataOut[i])
    {
      var i := 0;
      while i < numSamples
        invariant 0 <= i && (i <= numSamples || i == 0) && mpDataCur == Address(mpDataBase, k + i)
        invariant forall n :: 0 <= n < i ==> dataOut[n] == SampleAt(k + n)
        invariant forall n :: i <= n < dataOut.Length ==> dataOut[n] == old(dataOut[n])
      {
        var sample: U16 := Half(At(mem, mpDataCur), At(mem, mpDataCur + 1));
        SwappedIsLittle(mem, mpDataCur);
        dataOut[i] := sample % 256 * 256 + sample / 256;
        AddressMoves(mpDataBase, k + i, 1);
        mpDataCur := (mpDataCur + 2) % TWO_32;
        i := i + 1;
      }
    }

    /** WaveFileAiff: memcpy_s, a byte copy (MemCopy.MemcpyS), of words that need no swapping. */
    method CopyWords(dataOut: array<U16>, numSamples: nat, ghost k: int)
      requires kind == Aiff && mpDataCur == Address(mpDataBase, k) && numSamples <= dataOut.Length
      modifies dataOut
      ensures forall i :: 0 <= i < numSamples ==> dataOut[i] == SampleAt(k + i)
      ensures forall i :: numSamples <= i < dataOut.Length ==> dataOut[i] == old(dataOut[i])
    {
      var i := 0;
      while i < numSamples
        invariant 0 <= i <= numSamples
        invariant forall n :: 0 <= n < i ==> dataOut[n] == SampleAt(k + n)
        invariant forall n :: i <= n < dataOut.Length ==> dataOut[n] == old(dataOut[n])
      {
        AddressMoves(mpDataBase, k, i);
        var src := (mpDataCur + 2 * i) % TWO_32;
        TwoBytes(BigEndian, mem, src);
        dataOut[i] := Half(At(mem, src), At(mem, src + 1));
        i := i + 1;
      }
    }
  }

  /** Where the k-th sample behind a data start is, in a memory of 2^32 bytes. */
  function Address(base: nat, k: int): (a: nat)
    ensures a < TWO_32
  {
    (base + 2 * k) % TWO_32
  }

  lemma AddressMoves(base: nat, k: int, n: int)
    ensures (Address(base, k) + 2 * n) % TWO_32 == Address(base, k + n)
  {
    Arithmetic.ModAdd(base + 2 * k, 2 * n, TWO_32);
  }

  /** The difference of two pointers to samples. */
  lemma OffsetIs(base: nat, k: int)
    requires base < TWO_32 && -TWO_30 <= k < TWO_30
    ensures S32(Address(base, k) - base) / 2 == k
  {
  }

  lemma SignedDifference(n: int, k: int)
    ensures S32(n - k % TWO_32) == S32(n - k)
  {
    Arithmetic.ModShift(n - k, TWO_32, k / TWO_32);
    assert n - k % TWO_32 == n - k + TWO_32 * (k / TWO_32);
  }

  function SampleOf(mem: Memory, kind: Kind, base: nat, k: int): U16 {
    SampleIsWord(mem, Address(base, k));
    Num16(if kind == Wav then LittleEndian else BigEndian, mem, Address(base, k))
  }

  /** These samples have been written from `base` on: low byte first in a WAVE file, high byte first
      in an AIFF file. */
  predicate Recorded(mem: Memory, kind: Kind, base: nat, samples: seq<U16>) {
    base + 2 * |samples| <= TWO_32
    && Stored(mem, base, Words16(match kind case Wav => LittleEndian case Aiff => BigEndian, samples))
  }

  /** What was written is what the processor sees. */
  lemma SampleRecorded(mem: Memory, kind: Kind, base: nat, samples: seq<U16>, k: nat)
    requires Recorded(mem, kind, base, samples) && k < |samples|
    ensures SampleOf(mem, kind, base, k) == samples[k]
  {
    HalfAt(match kind case Wav => LittleEndian case Aiff => BigEndian, mem, base, samples, k);
  }

  lemma SampleIsWord(mem: Memory, at: nat)
    ensures Num16(LittleEndian, mem, at) < 0x1_0000 && Num16(BigEndian, mem, at) < 0x1_0000
  {
    TwoBytes(LittleEndian, mem, at);
    TwoBytes(BigEndian, mem, at);
  }

  /** Swapping the bytes of a big-endian word gives the little-endian one. */
  lemma SwappedIsLittle(mem: Memory, at: nat)
    ensures var sample := Half(At(mem, at), At(mem, at + 1));
            sample % 256 * 256 + sample / 256 == Num16(LittleEndian, mem, at)
  {
    TwoBytes(LittleEndian, mem, at);
  }

  // ---------------------------------------------------------------- validator and loader

  /** What the WAVE validator accepts the loader loads, with the same format whatever a division
      by zero would leave. */
  lemma WavValidatorLoader(mem: Memory, data: nat, dataLen: U32, ignoreSize: bool, undefined: U32)
    ensures WavAccepted(mem, data, dataLen, ignoreSize) ==>
              WavLoads(mem, data) && WavFormat(mem, data, undefined) == WavFormat(mem, data, 0)
  {
    if WavAccepted(mem, data, dataLen, ignoreSize) {
      assert WavFormat(mem, data, 0).channels == WavNum16(mem, data, 2) > 0;
    }
  }

  /** The loop fields after a look at an AIFF file. */
  function PositionsAfter(loop: Loop, before: (int, int)): (int, int) {
    match loop
    case NoLoop => before
    case Loop(s, e) => (s, e)
  }

  lemma {:induction false} MarkersTwice(mem: Memory, at: nat, n: nat, begin: nat, end: nat, p: (int, int), q: (int, int))
    ensures var x, y := Markers(mem, at, n, begin, end, p), Markers(mem, at, n, begin, end, q);
            && (x.0 == y.0 || (x.0 == p.0 && y.0 == q.0))
            && (x.1 == y.1 || (x.1 == p.1 && y.1 == q.1))
    decreases n
  {
    if n > 0 {
      var id, position := Num16(BigEndian, mem, at), S32(Num32(BigEndian, mem, at + 2));
      MarkersTwice(mem, Even(at + 7 + At(mem, at + 6)), n - 1, begin, end,
                   MarkerMoves(id, position, begin, end, p), MarkerMoves(id, position, begin, end, q));
    }
  }

  /** What the AIFF validator accepts the loader of the same object loads, with the same format
      even where the file leaves a loop position unset. */
  lemma AiffValidatorLoader(mem: Memory, data: nat, dataLen: U32, ignoreSize: bool, before: (int, int))
    ensures AiffAccepted(mem, data, dataLen, ignoreSize, before) ==> AiffLoads(mem, data)
    ensures AiffFormat(mem, data, PositionsAfter(AiffFormat(mem, data, before).loop, before)) == AiffFormat(mem, data, before)
  {
    var inst, mark := AiffChunk(mem, data, INST), Cursor(AiffChunk(mem, data, MARK));
    if inst.Found? && Num16(BigEndian, mem, inst.body + 8) == 1 {
      var count := Num16(BigEndian, mem, mark);
      var begin, end := Num16(BigEndian, mem, inst.body + 10), Num16(BigEndian, mem, inst.body + 12);
      var after := Markers(mem, mark + 2, count, begin, end, before);
      MarkersTwice(mem, mark + 2, count, begin, end, before, after);
      assert AiffFormat(mem, data, before).loop == Loop(after.0, after.1);
    }
  }

  lemma S32Range(u: int)
    ensures -TWO_31 <= S32(u) < TWO_31
    ensures u % TWO_32 == S32(u) % TWO_32
    ensures S32(u) >= 0 <==> u % TWO_32 < TWO_31
  {
  }

  /** The samples of an accepted file: their number fits the 32 bits of the products computed
      with it, and they all lie inside the file exactly when their start does. The last clause
      is what the validator leaves out: a start behind the end makes its subtraction wrap. */
  lemma SamplesInside(f: Format, start: nat, dataLen: U32)
    requires FormatAllowed(f, start, dataLen)
    requires -TWO_31 <= f.frames < TWO_31 && 0 <= f.data - start < TWO_32
    ensures f.frames >= 0 && f.frames * f.channels * 2 < TWO_32
    ensures f.data + f.frames * f.channels * 2 <= start + dataLen <==> f.data <= start + dataLen
  {
    Unsigned(f.frames);
    Unsigned(dataLen - (f.data - start));
    var room := (dataLen - (f.data - start)) % TWO_32;
    if f.channels == 1 {
      assert f.frames % TWO_32 <= room / 2;
    } else {
      assert f.frames % TWO_32 <= room / 4;
    }
  }

  lemma Unsigned(x: int)
    requires -TWO_32 <= x < TWO_32
    ensures x % TWO_32 == if x < 0 then x + TWO_32 else x
  {
  }

  /** The formats of both kinds of file have 32-bit frame counts, as SamplesInside asks. */
  lemma FramesAre32Bits(mem: Memory, data: nat, undefined: U32, positions: (int, int))
    ensures -TWO_31 <= WavFormat(mem, data, undefined).frames < TWO_31
    ensures -TWO_31 <= AiffFormat(mem, data, positions).frames < TWO_31
  {
  }

  /** A loop the player can use. */
  predicate UsableLoop(loop: Loop, frames: int) {
    match loop
    case NoLoop => true
    case Loop(s, e) => 0 <= s < e <= frames
  }

  lemma UsableExact(loop: Loop, frames: int)
    requires LoopAllowed(loop, frames) && loop.Loop?
    ensures UsableLoop(loop, frames) <==> loop.start >= 0
  {
  }

  lemma SmplStart(mem: Memory, smpl: Found)
    ensures SmplLoop(mem, smpl).Loop? ==>
              (SmplLoop(mem, smpl).start >= 0 <==> Num32(LittleEndian, mem, Cursor(smpl) + 0x2C) < TWO_31)
  {
    NumFits(LittleEndian, mem, Cursor(smpl) + 0x2C);
    S32Range(Num32(LittleEndian, mem, Cursor(smpl) + 0x2C));
  }

  /** An accepted WAVE loop is usable exactly when the stored start is below 2^31: the bounds are
      compared as signed numbers and the sign is not tested. */
  lemma AcceptedLoopExact(mem: Memory, data: nat, dataLen: U32, ignoreSize: bool)
    ensures WavAccepted(mem, data, dataLen, ignoreSize) && WavLoop(mem, data).Loop? ==>
              (UsableLoop(WavLoop(mem, data), WavFrames(mem, data, 0))
               <==> Num32(LittleEndian, mem, Cursor(WavChunk(mem, data, SMPL)) + 0x2C) < TWO_31)
  {
    var loop, frames := WavLoop(mem, data), WavFrames(mem, data, 0);
    AcceptedLoop(mem, data, dataLen, ignoreSize);
    SmplStart(mem, WavChunk(mem, data, SMPL));
    if LoopAllowed(loop, frames) && loop.Loop? {
      UsableExact(loop, frames);
    }
  }

  lemma AcceptedLoop(mem: Memory, data: nat, dataLen: U32, ignoreSize: bool)
    ensures WavAccepted(mem, data, dataLen, ignoreSize) ==> LoopAllowed(WavLoop(mem, data), WavFrames(mem, data, 0))
  {
    if WavAccepted(mem, data, dataLen, ignoreSize) {
      assert FormatAllowed(WavFormat(mem, data, 0), data, dataLen);
    }
  }

  /** The position of the last of n markers with this identifier, as it is stored. */
  function LastMark(mem: Memory, at: nat, n: nat, id: nat): Option<nat>
    decreases n
  {
    if n == 0 then None
    else
      var later := LastMark(mem, Even(at + 7 + At(mem, at + 6)), n - 1, id);
      if later.Some? || Num16(BigEndian, mem, at) != id then later else Some(Num32(BigEndian, mem, at + 2))
  }

  /** A stored position as a signed number, or what the field held before. */
  function MarkedOr(mark: Option<nat>, before: int): int {
    match mark
    case None => before
    case Some(p) => S32(p)
  }

  /** The pass over the markers leaves the last position of each identifier; a marker that is both
      only counts as the begin. */
  lemma {:induction false} MarkersAreLast(mem: Memory, at: nat, n: nat, begin: nat, end: nat, positions: (int, int))
    ensures Markers(mem, at, n, begin, end, positions)
         == (MarkedOr(LastMark(mem, at, n, begin), positions.0),
             if begin == end then positions.1 else MarkedOr(LastMark(mem, at, n, end), positions.1))
    decreases n
  {
    if n > 0 {
      MarkersAreLast(mem, Even(at + 7 + At(mem, at + 6)), n - 1, begin, end,
                     MarkerMoves(Num16(BigEndian, mem, at), S32(Num32(BigEndian, mem, at + 2)), begin, end, positions));
    }
  }

  /** The stored position of the marker an instrument chunk names as the begin of the loop. */
  function BeginMark(mem: Memory, data: nat): Option<nat> {
    var mark := Cursor(AiffChunk(mem, data, MARK));
    LastMark(mem, mark + 2, Num16(BigEndian, mem, mark), Num16(BigEndian, mem, Cursor(AiffChunk(mem, data, INST)) + 10))
  }

  lemma {:induction false} BeginMarkFits(mem: Memory, at: nat, n: nat, id: nat)
    ensures LastMark(mem, at, n, id).Some? ==> LastMark(mem, at, n, id).value < TWO_32
    decreases n
  {
    if n > 0 {
      BeginMarkFits(mem, Even(at + 7 + At(mem, at + 6)), n - 1, id);
      NumFits(BigEndian, mem, at + 2);
    }
  }

  lemma AiffLoopStart(mem: Memory, data: nat, before: (int, int))
    ensures AiffLoop(mem, data, before).Loop? ==>
              AiffLoop(mem, data, before).start == MarkedOr(BeginMark(mem, data), before.0)
  {
    var inst, mark := AiffChunk(mem, data, INST), Cursor(AiffChunk(mem, data, MARK));
    MarkersAreLast(mem, mark + 2, Num16(BigEndian, mem, mark), Num16(BigEndian, mem, Cursor(inst) + 10),
                   Num16(BigEndian, mem, Cursor(inst) + 12), before);
  }

  lemma MarkedSign(mark: Option<nat>, before: int)
    requires mark.Some? ==> mark.value < TWO_32
    ensures MarkedOr(mark, before) >= 0 <==> match mark case None => before >= 0 case Some(p) => p < TWO_31
  {
    if mark.Some? {
      S32Range(mark.value);
    }
  }

  lemma AiffAcceptedLoop(mem: Memory, data: nat, dataLen: U32, ignoreSize: bool, before: (int, int))
    ensures AiffAccepted(mem, data, dataLen, ignoreSize, before) ==>
              LoopAllowed(AiffLoop(mem, data, before), AiffFormat(mem, data, before).frames)
  {
    if AiffAccepted(mem, data, dataLen, ignoreSize, before) {
      assert FormatAllowed(AiffFormat(mem, data, before), data, dataLen);
    }
  }

  /** An accepted AIFF loop is usable exactly when the begin marker's stored position is below
      2^31, or when there is no such marker and the object held no negative start before. */
  lemma AiffAcceptedLoopExact(mem: Memory, data: nat, dataLen: U32, ignoreSize: bool, before: (int, int))
    ensures AiffAccepted(mem, data, dataLen, ignoreSize, before) && AiffLoop(mem, data, before).Loop? ==>
              (UsableLoop(AiffLoop(mem, data, before), AiffFormat(mem, data, before).frames)
               <==> match BeginMark(mem, data) case None => before.0 >= 0 case Some(p) => p < TWO_31)
  {
    var loop, frames := AiffLoop(mem, data, before), AiffFormat(mem, data, before).frames;
    var mark := Cursor(AiffChunk(mem, data, MARK));
    AiffAcceptedLoop(mem, data, dataLen, ignoreSize, before);
    AiffLoopStart(mem, data, before);
    BeginMarkFits(mem, mark + 2, Num16(BigEndian, mem, mark), Num16(BigEndian, mem, Cursor(AiffChunk(mem, data, INST)) + 10));
    MarkedSign(BeginMark(mem, data), before.0);
    if LoopAllowed(loop, frames) && loop.Loop? {
      UsableExact(loop, frames);
    }
  }
}
