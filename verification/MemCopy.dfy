/** memcpy_s of src/bannerSound/AudioWaveUtility.cpp: a copy by blocks of four words, by words
    between two byte-wise ends, or by bytes, depending on size and alignment. The array is the
    memory from an address that is a multiple of four on, so an index is as aligned as the
    address it stands for. */
module MemCopy {
  import opened Bytes
  import Arithmetic

  /** What a byte copy leaves behind. */
  function Copied(mem: seq<Byte>, dest: nat, src: nat, size: nat): (r: seq<Byte>)
    requires dest + size <= |mem| && src + size <= |mem|
    ensures |r| == |mem|
  {
    mem[..dest] + mem[src..src + size] + mem[dest + size..]
  }

  /** The first `done` bytes have been copied and nothing else has changed. */
  ghost predicate Progress(before: seq<Byte>, now: seq<Byte>, dest: nat, src: nat, done: nat) {
    dest + done <= |before| && src + done <= |before| && |now| == |before|
    && (forall i :: dest <= i < dest + done ==> now[i] == before[src + (i - dest)])
    && (forall i :: 0 <= i < dest || dest + done <= i < |now| ==> now[i] == before[i])
  }

  lemma ProgressEnds(before: seq<Byte>, now: seq<Byte>, dest: nat, src: nat, size: nat)
    requires Progress(before, now, dest, src, size)
    ensures now == Copied(before, dest, src, size)
  {
  }

  /** Copying n more bytes at once from a source that has not been overwritten yet. */
  method Move(mem: array<Byte>, dest: nat, src: nat, n: nat, ghost before: seq<Byte>, ghost dest0: nat, ghost src0: nat)
    requires dest0 <= dest && dest - dest0 == src - src0
    requires dest + n <= mem.Length && src + n <= mem.Length
    requires Progress(before, mem[..], dest0, src0, dest - dest0)
    requires dest0 <= src0 || src + n <= dest0
    modifies mem
    ensures Progress(before, mem[..], dest0, src0, dest - dest0 + n)
  {
    forall i | 0 <= i < n {
      mem[dest + i] := mem[src + i];
    }
  }

  // The loops. Each continues a copy that has `done` bytes behind it.

  /** Four loads, then four stores, `steps` times. `aligned` reports whether all eight addresses
      of every round were multiples of four. */
  method BlockLoop(mem: array<Byte>, dest0: nat, src0: nat, steps0: nat) returns (aligned: bool)
    requires dest0 + 16 * steps0 <= mem.Length && src0 + 16 * steps0 <= mem.Length
    requires dest0 <= src0 || src0 + 16 * steps0 <= dest0
    modifies mem
    ensures Progress(old(mem[..]), mem[..], dest0, src0, 16 * steps0)
    ensures aligned <==> steps0 == 0 || (src0 % 4 == 0 && dest0 % 4 == 0)
  {
    var src, dest, steps := src0, dest0, steps0;
    aligned := true;
    while steps != 0
      invariant 0 <= steps <= steps0
      invariant src == src0 + 16 * (steps0 - steps) && dest == dest0 + 16 * (steps0 - steps)
      invariant Progress(old(mem[..]), mem[..], dest0, src0, 16 * (steps0 - steps))
      invariant aligned <==> steps == steps0 || (src0 % 4 == 0 && dest0 % 4 == 0)
    {
      SameAlignment(src0, 4 * (steps0 - steps));
      SameAlignment(dest0, 4 * (steps0 - steps));
      var loads, stores := WordsAligned(src), WordsAligned(dest);
      aligned := aligned && loads && stores;
      Move(mem, dest, src, 16, old(mem[..]), dest0, src0);
      src, dest := src + 16, dest + 16;
      steps := steps - 1;
    }
  }

  /** The four word accesses of a block at p, p + 4, p + 8 and p + 12. */
  predicate WordsAligned(p: nat) {
    p % 4 == 0 && (p + 4) % 4 == 0 && (p + 8) % 4 == 0 && (p + 12) % 4 == 0
  }

  lemma SameAlignment(p: nat, words: nat)
    ensures WordsAligned(p + 4 * words) <==> p % 4 == 0
  {
    Arithmetic.ModShift(p, 4, words);
    Arithmetic.ModShift(p, 4, words + 1);
    Arithmetic.ModShift(p, 4, words + 2);
    Arithmetic.ModShift(p, 4, words + 3);
  }

  /** Single bytes until `left` is used up. */
  method ByteLoop(mem: array<Byte>, dest0: nat, src0: nat, done: nat, count: nat, ghost before: seq<Byte>)
    requires Progress(before, mem[..], dest0, src0, done)
    requires dest0 + done + count <= mem.Length && src0 + done + count <= mem.Length
    requires dest0 <= src0 || src0 + done + count <= dest0
    modifies mem
    ensures Progress(before, mem[..], dest0, src0, done + count)
  {
    var src, dest, left := src0 + done, dest0 + done, count;
    while left != 0
      invariant 0 <= left <= count
      invariant src == src0 + done + (count - left) && dest == dest0 + done + (count - left)
      invariant Progress(before, mem[..], dest0, src0, done + (count - left))
    {
      Move(mem, dest, src, 1, before, dest0, src0);
      src, dest := src + 1, dest + 1;
      left := left - 1;
    }
  }

  /** Words while at least four bytes are left; `size` is what remains after that. Every word
      access is at a multiple of four. */
  method WordLoop(mem: array<Byte>, dest0: nat, src0: nat, done: nat, count: nat, ghost before: seq<Byte>)
      returns (size: nat, aligned: bool)
    requires Progress(before, mem[..], dest0, src0, done)
    requires dest0 + done + count <= mem.Length && src0 + done + count <= mem.Length
    requires dest0 <= src0 || src0 + done + count <= dest0
    requires (src0 + done) % 4 == 0 && (dest0 + done) % 4 == 0
    modifies mem
    ensures size == count % 4 && aligned
    ensures Progress(before, mem[..], dest0, src0, done + (count - size))
  {
    var src, dest := src0 + done, dest0 + done;
    size, aligned := count, true;
    ghost var words := 0;
    while size >= 4
      invariant count == size + 4 * words && aligned && words >= 0
      invariant src == src0 + done + 4 * words && dest == dest0 + done + 4 * words
      invariant Progress(before, mem[..], dest0, src0, done + 4 * words)
      decreases size
    {
      Arithmetic.ModShift(src0 + done, 4, words);
      Arithmetic.ModShift(dest0 + done, 4, words);
      aligned := aligned && src % 4 == 0 && dest % 4 == 0;
      Move(mem, dest, src, 4, before, dest0, src0);
      src, dest := src + 4, dest + 4;
      size, words := size - 4, words + 1;
    }
    Arithmetic.ModUnique(count, 4, words, size);
  }

  /** The buffers may overlap only so that the copy runs ahead of its own writes. `aligned`
      reports whether every word access of the call was at a multiple of four: only the first
      strategy can break that, where the source asserts alignment without having tested it. */
  method MemcpyS(mem: array<Byte>, dest: nat, src: nat, size0: nat) returns (aligned: bool)
    requires dest + size0 <= mem.Length && src + size0 <= mem.Length
    requires dest <= src || src + size0 <= dest
    modifies mem
    ensures mem[..] == Copied(old(mem[..]), dest, src, size0)
    ensures !aligned <==> src % 4 == dest % 4 && src % 4 != 0 && size0 % 16 == 0 && size0 > 0
  {
    ghost var before := mem[..];
    var size := size0;
    var srcAlign, destAlign := src % 4, dest % 4;
    if srcAlign == destAlign && size % 16 == 0 {
      aligned := BlockLoop(mem, dest, src, size / 16);
    } else if srcAlign == destAlign && size >= 16 {
      var head := 0;
      if srcAlign != 0 {
        head := 4 - srcAlign;
        size := size - head;
        ByteLoop(mem, dest, src, 0, head, before);
      }
      size, aligned := WordLoop(mem, dest, src, head, size, before);
      if size != 0 {
        ByteLoop(mem, dest, src, size0 - size, size, before);
      }
    } else {
      ByteLoop(mem, dest, src, 0, size, before);
      aligned := true;
    }
    ProgressEnds(before, mem[..], dest, src, size0);
  }
}
