/** SimpleWavePlayer::convertDSPAddr (src/bannerSound/AudioWavePlayer.cpp): where the DSP finds
    a sample. In ADPCM (mode 0) memory is addressed in nibbles, and every frame of 16 nibbles
    begins with two header nibbles that hold no sample. */
module DspAddress {
  import opened Arithmetic

  const TWO_32: int := 0x1_0000_0000

  type U32 = x: int | 0 <= x < TWO_32

  const ADPCM: int := 0
  const PCM16: int := 10
  const PCM8: int := 25

  /** 32-bit unsigned arithmetic: products and sums wrap. */
  function ConvertDSPAddr(addr: U32, offset: U32, mode: int): U32 {
    if mode == ADPCM then (addr * 2 + offset % 14 + offset / 14 * 16 + 2) % TWO_32
    else if mode == PCM8 then (addr + offset) % TWO_32
    else if mode == PCM16 then (addr / 2 + offset) % TWO_32
    else 0
  }

  /** The nibble address of byte address addr; the top bit of a cached address is shifted out. */
  function Base(addr: U32): U32 {
    addr * 2 % TWO_32
  }

  /** No carry leaves the 32 bits when sample `offset` is addressed from `addr`. */
  predicate Fits(addr: U32, offset: U32) {
    Base(addr) + offset % 14 + offset / 14 * 16 + 2 < TWO_32
  }

  predicate IsHeaderNibble(nibble: int) {
    nibble % 16 < 2
  }

  /** The inverse: which sample lives in a nibble. */
  function SampleAt(addr: U32, nibble: int): int {
    var d := nibble - Base(addr);
    d / 16 * 14 + d % 16 - 2
  }

  lemma WithoutWrap(addr: U32, offset: U32)
    requires Fits(addr, offset)
    ensures ConvertDSPAddr(addr, offset, ADPCM) == Base(addr) + offset % 14 + offset / 14 * 16 + 2
  {
    var rest := offset % 14 + offset / 14 * 16 + 2;
    ModAdd(addr * 2, rest, TWO_32);
    assert addr * 2 + rest == addr * 2 + offset % 14 + offset / 14 * 16 + 2;
  }

  /** A cached address names the same nibble as the physical address behind it. */
  lemma CachedIsPhysical(addr: U32, offset: U32)
    requires addr < 0x8000_0000
    ensures ConvertDSPAddr(addr + 0x8000_0000, offset, ADPCM) == ConvertDSPAddr(addr, offset, ADPCM)
  {
    ModShift(addr * 2 + offset % 14 + offset / 14 * 16 + 2, TWO_32, 1);
  }

  /** Later samples live at higher nibbles. */
  lemma StrictlyIncreasing(addr: U32, a: U32, b: U32)
    requires a < b && Fits(addr, a) && Fits(addr, b)
    ensures ConvertDSPAddr(addr, a, ADPCM) < ConvertDSPAddr(addr, b, ADPCM)
  {
    WithoutWrap(addr, a);
    WithoutWrap(addr, b);
    assert a / 14 <= b / 14;
  }

  /** The explicit inverse recovers the sample. */
  lemma SampleRecovered(addr: U32, offset: U32)
    requires Fits(addr, offset)
    ensures SampleAt(addr, ConvertDSPAddr(addr, offset, ADPCM)) == offset
  {
    WithoutWrap(addr, offset);
    ModUnique(offset % 14 + offset / 14 * 16 + 2, 16, offset / 14, offset % 14 + 2);
  }

  lemma AlignedBase(addr: U32)
    ensures addr % 8 == 0 <==> Base(addr) % 16 == 0
  {
    var q, r := addr / 8, addr % 8;
    assert addr * 2 == 16 * q + 2 * r;
    ModUnique(addr * 2, 16, q, 2 * r);
    assert TWO_32 % 16 == 0;
    ModOfMod(addr * 2, 16, TWO_32);
  }

  /** Every nibble from the base on that is not in a frame header is some sample's nibble: with
      SampleRecovered, a bijection. */
  lemma EveryDataNibble(addr: U32, nibble: U32)
    requires addr % 8 == 0 && Base(addr) <= nibble && !IsHeaderNibble(nibble)
    ensures var s := SampleAt(addr, nibble);
            0 <= s < TWO_32 && Fits(addr, s) && ConvertDSPAddr(addr, s, ADPCM) == nibble
  {
    AlignedBase(addr);
    var d := nibble - Base(addr);
    var q, r := d / 16, d % 16;
    var b := Base(addr) / 16;
    ModUnique(nibble, 16, b + q, r);
    var s := SampleAt(addr, nibble);
    assert s == 14 * q + (r - 2);
    ModUnique(s, 14, q, r - 2);
    WithoutWrap(addr, s);
  }

  /** Samples never land in a header nibble exactly when the data starts on a frame boundary. */
  lemma HeadersSkippedIffAligned(addr: U32)
    requires Fits(addr, 13)
    ensures addr % 8 == 0 <==>
            forall s: U32 :: Fits(addr, s) ==> !IsHeaderNibble(ConvertDSPAddr(addr, s, ADPCM))
  {
    AlignedBase(addr);
    var b, r := Base(addr) / 16, Base(addr) % 16;
    if addr % 8 == 0 {
      forall s: U32 | Fits(addr, s)
        ensures !IsHeaderNibble(ConvertDSPAddr(addr, s, ADPCM))
      {
        WithoutWrap(addr, s);
        ModUnique(ConvertDSPAddr(addr, s, ADPCM), 16, b + s / 14, s % 14 + 2);
      }
    } else {
      // The base is even and not 0 modulo 16, so one of the first fourteen samples hits nibble 0.
      assert r % 2 == 0 by { BaseIsEven(addr); }
      var s := 14 - r;
      assert Fits(addr, s);
      WithoutWrap(addr, s);
      assert s % 14 == s && s / 14 == 0;
      ModUnique(ConvertDSPAddr(addr, s, ADPCM), 16, b + 1, 0);
      assert IsHeaderNibble(ConvertDSPAddr(addr, s, ADPCM));
    }
  }

  lemma BaseIsEven(addr: U32)
    ensures Base(addr) % 16 % 2 == 0
  {
    ModOfMod(addr * 2, 2, TWO_32);
    ModOfMod(Base(addr), 2, 16);
    ModUnique(addr * 2, 2, addr, 0);
  }

  /** Where the samples of the PCM modes are, in bytes: PCM8 samples follow each other from the address
      on; PCM16 memory is addressed in words of two bytes, and an odd address is rounded down. */
  lemma PcmPlaces(addr: U32, offset: U32)
    ensures addr + offset < TWO_32 ==> ConvertDSPAddr(addr, offset, PCM8) == addr + offset
    ensures addr / 2 + offset < TWO_32 ==> 2 * ConvertDSPAddr(addr, offset, PCM16) == addr - addr % 2 + 2 * offset
    ensures forall mode :: mode != ADPCM && mode != PCM8 && mode != PCM16 ==> ConvertDSPAddr(addr, offset, mode) == 0
  {
  }

  /** The PCM modes are plain offsets: distinct samples without wrap-around have distinct places. */
  lemma PcmInjective(addr: U32, a: U32, b: U32, mode: int)
    requires mode == PCM8 || mode == PCM16
    requires ConvertDSPAddr(addr, a, mode) == ConvertDSPAddr(addr, b, mode)
    ensures a == b
  {
    var base := if mode == PCM8 then addr as int else addr / 2;
    ModEqual(base + a, base + b, TWO_32);
    if a > b {
      ModUnique(a - b, TWO_32, 0, a - b);
    } else if b > a {
      ModUnique(a - b, TWO_32, -1, TWO_32 + a - b);
    }
  }
}
