/** The bodies of the chunks that WaveFile reads, as they are written: the format and sampler chunks
    of a WAVE file (chapter 3 of the Multimedia Programming Interface and Data Specifications 1.0, and
    its sampler chunk), the common, instrument and sound data chunks of an AIFF file (AIFF version 1.3). */
module ChunkBodies {
  import opened Bytes
  import opened ChunkReader

  /** What a body starts with is stored in it. */
  lemma {:induction false} SliceStored(mem: Memory, at: nat, bytes: seq<Byte>)
    requires at + |bytes| <= |mem| && mem[at..at + |bytes|] == bytes
    ensures Stored(mem, at, bytes)
    decreases |bytes|
  {
    if bytes != [] {
      assert mem[at] == bytes[0];
      assert mem[at + 1..at + |bytes|] == bytes[1..];
      SliceStored(mem, at + 1, bytes[1..]);
    }
  }

  lemma PrefixStored(body: seq<Byte>, bytes: seq<Byte>)
    requires bytes <= body
    ensures Stored(body, 0, bytes)
  {
    SliceStored(body, 0, bytes);
  }

  /** Two numbers at the front of some bytes. */
  lemma HalfFirst(order: Order, mem: Memory, at: nat, h: U16, rest: seq<Byte>)
    requires Stored(mem, at, Digits(order, h, 2) + rest)
    ensures Num16(order, mem, at) == h && Stored(mem, at + 2, rest)
  {
    StoredSplit(mem, at, Digits(order, h, 2), rest);
    assert Pow256(2) == 0x1_0000;
    DigitsRead(order, mem, at, h, 2);
  }

  lemma WordFirst(order: Order, mem: Memory, at: nat, w: U32, rest: seq<Byte>)
    requires Stored(mem, at, Digits(order, w, 4) + rest)
    ensures Num32(order, mem, at) == w && Stored(mem, at + 4, rest)
  {
    StoredSplit(mem, at, Digits(order, w, 4), rest);
    Pow256Is4();
    DigitsRead(order, mem, at, w, 4);
  }

  /** A list of words. */
  function Words32(order: Order, words: seq<U32>): (b: seq<Byte>)
    ensures |b| == 4 * |words|
  {
    if words == [] then [] else Digits(order, words[0], 4) + Words32(order, words[1..])
  }

  lemma {:induction false} WordAt(order: Order, mem: Memory, at: nat, words: seq<U32>, k: nat)
    requires Stored(mem, at, Words32(order, words)) && k < |words|
    ensures Num32(order, mem, at + 4 * k) == words[k]
    decreases k
  {
    WordFirst(order, mem, at, words[0], Words32(order, words[1..]));
    if k > 0 {
      WordAt(order, mem, at + 4, words[1..], k - 1);
    }
  }

  /** A list of samples. */
  function Words16(order: Order, samples: seq<U16>): (b: seq<Byte>)
    ensures |b| == 2 * |samples|
  {
    if samples == [] then [] else Digits(order, samples[0], 2) + Words16(order, samples[1..])
  }

  /** A sample that was written is read back. */
  lemma {:induction false} HalfAt(order: Order, mem: Memory, at: nat, samples: seq<U16>, k: nat)
    requires Stored(mem, at, Words16(order, samples)) && k < |samples|
    ensures Num16(order, mem, at + 2 * k) == samples[k]
    decreases k
  {
    HalfFirst(order, mem, at, samples[0], Words16(order, samples[1..]));
    if k > 0 {
      HalfAt(order, mem, at + 2, samples[1..], k - 1);
    }
  }

  // ---------------------------------------------------------------- WAVE

  datatype Fmt = Fmt(audioFmt: U16, channels: U16, rate: U32, byteRate: U32, blockAlign: U16, bits: U16)

  function EncodeFmt(f: Fmt): (b: seq<Byte>)
    ensures |b| == 16
  {
    Digits(LittleEndian, f.audioFmt, 2) + (Digits(LittleEndian, f.channels, 2) + (Digits(LittleEndian, f.rate, 4)
      + (Digits(LittleEndian, f.byteRate, 4) + (Digits(LittleEndian, f.blockAlign, 2) + (Digits(LittleEndian, f.bits, 2) + [])))))
  }

  lemma FmtFields(body: seq<Byte>, f: Fmt)
    requires EncodeFmt(f) <= body
    ensures Num16(LittleEndian, body, 0) == f.audioFmt && Num16(LittleEndian, body, 2) == f.channels
    ensures Num32(LittleEndian, body, 4) == f.rate && Num16(LittleEndian, body, 14) == f.bits
  {
    var e, d := Digits(LittleEndian, f.bits, 2) + [], Digits(LittleEndian, f.blockAlign, 2);
    var c, b := Digits(LittleEndian, f.byteRate, 4), Digits(LittleEndian, f.rate, 4);
    var a := Digits(LittleEndian, f.channels, 2);
    PrefixStored(body, EncodeFmt(f));
    HalfFirst(LittleEndian, body, 0, f.audioFmt, a + (b + (c + (d + e))));
    HalfFirst(LittleEndian, body, 2, f.channels, b + (c + (d + e)));
    WordFirst(LittleEndian, body, 4, f.rate, c + (d + e));
    WordFirst(LittleEndian, body, 8, f.byteRate, d + e);
    HalfFirst(LittleEndian, body, 12, f.blockAlign, e);
    HalfFirst(LittleEndian, body, 14, f.bits, []);
  }

  datatype SampleLoop = SampleLoop(cue: U32, kind: U32, start: U32, end: U32, fraction: U32, playCount: U32)

  /** Seven words, the number of loops, the size of further data, and the loops. */
  datatype Smpl = Smpl(head: seq<U32>, loops: seq<SampleLoop>, more: U32)

  predicate SmplFits(s: Smpl) {
    |s.head| == 7 && |s.loops| < 0x1_0000_0000
  }

  function LoopWords(loops: seq<SampleLoop>): (words: seq<U32>)
    ensures |words| == 6 * |loops|
    ensures loops != [] ==> words[2] == loops[0].start && words[3] == loops[0].end
  {
    if loops == [] then []
    else
      var l := loops[0];
      [l.cue, l.kind, l.start, l.end, l.fraction, l.playCount] + LoopWords(loops[1..])
  }

  function SmplWords(s: Smpl): (words: seq<U32>)
    requires SmplFits(s)
    ensures |words| == 9 + 6 * |s.loops|
  {
    s.head + ([|s.loops|, s.more] + LoopWords(s.loops))
  }

  function EncodeSmpl(s: Smpl): seq<Byte>
    requires SmplFits(s)
  {
    Words32(LittleEndian, SmplWords(s))
  }

  lemma SmplFields(body: seq<Byte>, s: Smpl)
    requires SmplFits(s) && EncodeSmpl(s) <= body
    ensures Num32(LittleEndian, body, 0x1C) == |s.loops| && |body| >= 0x24
    ensures s.loops != [] ==>
              && |body| >= 0x3C
              && Num32(LittleEndian, body, 0x2C) == s.loops[0].start && Num32(LittleEndian, body, 0x30) == s.loops[0].end
  {
    var words := SmplWords(s);
    PrefixStored(body, EncodeSmpl(s));
    WordAt(LittleEndian, body, 0, words, 7);
    assert words[7] == |s.loops|;
    if s.loops != [] {
      WordAt(LittleEndian, body, 0, words, 11);
      WordAt(LittleEndian, body, 0, words, 12);
      assert words[11] == LoopWords(s.loops)[2] && words[12] == LoopWords(s.loops)[3];
    }
  }

  // ---------------------------------------------------------------- AIFF

  /** The sampling rate is an 80-bit number. */
  datatype Common = Common(channels: U16, frames: U32, bits: U16, signExpon: U16, mantissaHi: U32, mantissaLo: U32)

  function EncodeCommon(c: Common): (b: seq<Byte>)
    ensures |b| == 18
  {
    Digits(BigEndian, c.channels, 2) + (Digits(BigEndian, c.frames, 4) + (Digits(BigEndian, c.bits, 2)
      + (Digits(BigEndian, c.signExpon, 2) + (Digits(BigEndian, c.mantissaHi, 4) + (Digits(BigEndian, c.mantissaLo, 4) + [])))))
  }

  lemma CommonFields(body: seq<Byte>, c: Common)
    requires EncodeCommon(c) <= body
    ensures Num16(BigEndian, body, 0) == c.channels && Num32(BigEndian, body, 2) == c.frames
    ensures Num16(BigEndian, body, 6) == c.bits && Num16(BigEndian, body, 8) == c.signExpon
    ensures Num32(BigEndian, body, 10) == c.mantissaHi && Num32(BigEndian, body, 14) == c.mantissaLo
  {
    var e, d := Digits(BigEndian, c.mantissaLo, 4) + [], Digits(BigEndian, c.mantissaHi, 4);
    var s, b, a := Digits(BigEndian, c.signExpon, 2), Digits(BigEndian, c.bits, 2), Digits(BigEndian, c.frames, 4);
    PrefixStored(body, EncodeCommon(c));
    HalfFirst(BigEndian, body, 0, c.channels, a + (b + (s + (d + e))));
    WordFirst(BigEndian, body, 2, c.frames, b + (s + (d + e)));
    HalfFirst(BigEndian, body, 6, c.bits, s + (d + e));
    HalfFirst(BigEndian, body, 8, c.signExpon, d + e);
    WordFirst(BigEndian, body, 10, c.mantissaHi, e);
    WordFirst(BigEndian, body, 14, c.mantissaLo, []);
  }

  /** A loop of an instrument: its mode and the identifiers of two markers. */
  datatype PlayLoop = PlayLoop(mode: U16, begin: U16, end: U16)

  /** Notes, velocities and gain in eight bytes, and two loops. */
  datatype Instrument = Instrument(notes: seq<Byte>, sustain: PlayLoop, release: PlayLoop)

  function EncodeLoop(l: PlayLoop): (b: seq<Byte>)
    ensures |b| == 6
  {
    Digits(BigEndian, l.mode, 2) + (Digits(BigEndian, l.begin, 2) + Digits(BigEndian, l.end, 2))
  }

  function EncodeInstrument(i: Instrument): (b: seq<Byte>)
    ensures |b| == |i.notes| + 12
  {
    i.notes + (EncodeLoop(i.sustain) + EncodeLoop(i.release))
  }

  lemma InstrumentFields(body: seq<Byte>, i: Instrument)
    requires |i.notes| == 8 && EncodeInstrument(i) <= body
    ensures Num16(BigEndian, body, 8) == i.sustain.mode
    ensures Num16(BigEndian, body, 10) == i.sustain.begin && Num16(BigEndian, body, 12) == i.sustain.end
  {
    var l := i.sustain;
    var begin, end := Digits(BigEndian, l.begin, 2), Digits(BigEndian, l.end, 2);
    PrefixStored(body, EncodeInstrument(i));
    StoredSplit(body, 0, i.notes, EncodeLoop(l) + EncodeLoop(i.release));
    StoredSplit(body, 8, EncodeLoop(l), EncodeLoop(i.release));
    HalfFirst(BigEndian, body, 8, l.mode, begin + end);
    HalfFirst(BigEndian, body, 10, l.begin, end);
    assert end == end + [];
    HalfFirst(BigEndian, body, 12, l.end, []);
  }

  /** The samples of a sound data chunk behind its two fields. */
  function EncodeSound(offset: U32, blockSize: U32, samples: seq<Byte>): (b: seq<Byte>)
    ensures |b| == 8 + |samples| && b[8..] == samples
  {
    Digits(BigEndian, offset, 4) + Digits(BigEndian, blockSize, 4) + samples
  }

  lemma SoundFields(offset: U32, blockSize: U32, samples: seq<Byte>)
    ensures var body := EncodeSound(offset, blockSize, samples);
            Num32(BigEndian, body, 0) == offset && Num32(BigEndian, body, 4) == blockSize
  {
    var body := EncodeSound(offset, blockSize, samples);
    var a, b := Digits(BigEndian, offset, 4), Digits(BigEndian, blockSize, 4);
    assert body == a + (b + samples);
    PrefixStored(body, body);
    WordFirst(BigEndian, body, 0, offset, b + samples);
    WordFirst(BigEndian, body, 4, blockSize, samples);
  }
}
