/** The cursor-based readers of src/bannerSound/AudioWaveUtility.cpp, BinaryReader (big-endian,
    AIFF) and BinaryReaderLittleEndian (WAVE), and the chunk layout they search: an identifier,
    a size, a body padded to an even length (chapter 2 of the Multimedia Programming Interface
    and Data Specifications 1.0; AIFF version 1.3). Addresses are integers: no cursor passes the
    end of the 32-bit address space. */
module ChunkReader {
  import opened Bytes

  /** The whole memory, from address 0 on: cursors may leave the file and read what lies beyond. */
  type Memory = seq<Byte>

  function At(mem: Memory, at: nat): Byte {
    if at < |mem| then mem[at] else 0
  }

  datatype Order = BigEndian | LittleEndian

  datatype Option<T> = None | Some(value: T)

  /** The number stored in the bytes from lo up to hi. */
  function Num(order: Order, mem: Memory, lo: nat, hi: nat): nat
    decreases hi - lo, |mem|
  {
    if hi <= lo then 0
    else if order == BigEndian then 256 * Num(order, mem, lo, hi - 1) + At(mem, hi - 1)
    else At(mem, lo) + 256 * Num(order, mem, lo + 1, hi)
  }

  function Num16(order: Order, mem: Memory, at: nat): nat {
    Num(order, mem, at, at + 2)
  }

  function Num32(order: Order, mem: Memory, at: nat): nat {
    Num(order, mem, at, at + 4)
  }

  /** A tag is read as a word of the processor, which is big-endian. */
  function Tag(mem: Memory, at: nat): nat {
    Num32(BigEndian, mem, at)
  }

  lemma TwoBytes(order: Order, mem: Memory, at: nat)
    ensures Num16(order, mem, at)
         == if order == BigEndian then Half(At(mem, at), At(mem, at + 1)) else Half(At(mem, at + 1), At(mem, at))
  {
    if order == BigEndian {
      assert Num(order, mem, at, at + 1) == At(mem, at);
    } else {
      assert Num(order, mem, at + 1, at + 2) == At(mem, at + 1);
    }
  }

  lemma FourBytes(order: Order, mem: Memory, at: nat)
    ensures Num32(order, mem, at)
         == if order == BigEndian then Word(At(mem, at), At(mem, at + 1), At(mem, at + 2), At(mem, at + 3))
            else Word(At(mem, at + 3), At(mem, at + 2), At(mem, at + 1), At(mem, at))
  {
    if order == BigEndian {
      TwoBytes(order, mem, at);
      assert Num(order, mem, at, at + 3) == 256 * Num16(order, mem, at) + At(mem, at + 2);
    } else {
      TwoBytes(order, mem, at + 2);
      assert Num(order, mem, at + 1, at + 4) == At(mem, at + 1) + 256 * Num16(order, mem, at + 2);
    }
  }

  /** The next even address. */
  function Even(at: nat): (r: nat)
    ensures at <= r <= at + 1
  {
    if at == 0 then 0 else if at == 1 then 2 else 2 + Even(at - 2)
  }

  lemma {:induction false} EvenIsRounding(at: nat)
    ensures Even(at) == at + at % 2
  {
    if at >= 2 {
      EvenIsRounding(at - 2);
    }
  }

  /** Rounding after an even address only depends on the distance. */
  lemma EvenShift(a: nat, n: nat)
    requires Even(a) == a
    ensures Even(a + n) == a + Even(n) && Even(a + Even(n)) == a + Even(n) && Even(a + 8) == a + 8
  {
    EvenIsRounding(a);
    EvenIsRounding(n);
    EvenSum(a, n);
    EvenIsRounding(a + n);
    EvenSum(a, Even(n));
    EvenIsRounding(a + Even(n));
    EvenSum(a, 8);
    EvenIsRounding(a + 8);
  }

  lemma EvenSum(a: nat, n: nat)
    requires a % 2 == 0
    ensures (a + n) % 2 == n % 2 && (n + n % 2) % 2 == 0
  {
  }

  /** Where a search for a chunk ends: on the body of a chunk, or past the area. */
  datatype Found = Found(body: nat) | Missing(end: nat)

  function Cursor(f: Found): nat {
    match f
    case Found(body) => body
    case Missing(end) => end
  }

  /** The search from `at` for a chunk with this identifier that starts before `area`. */
  function Seek(order: Order, mem: Memory, at: nat, id: nat, area: int): (r: Found)
    ensures Cursor(r) >= at && (r.Found? ==> r.body >= at + 8)
    decreases area - at
  {
    if at >= area then Missing(at)
    else if Tag(mem, at) == id then Found(at + 8)
    else Seek(order, mem, Even(at + 8 + Num32(order, mem, at + 4)), id, area)
  }

  class Reader {
    const order: Order
    const mem: Memory
    const mpBase: nat
    var mpRead: nat

    constructor (order: Order, mem: Memory, ptr: nat)
      ensures this.order == order && this.mem == mem && mpBase == ptr && mpRead == ptr
    {
      this.order, this.mem, mpBase, mpRead := order, mem, ptr, ptr;
    }

    /** Tags are read as words of the processor, whatever the order of the file's numbers. */
    method ReadTag() returns (r: U32)
      modifies this
      ensures r == Tag(mem, old(mpRead)) && mpRead == old(mpRead) + 4
    {
      FourBytes(BigEndian, mem, mpRead);
      r := Tag(mem, mpRead);
      mpRead := mpRead + 4;
    }

    method Read32() returns (r: U32)
      modifies this
      ensures r == Num32(order, mem, old(mpRead)) && mpRead == old(mpRead) + 4
    {
      FourBytes(order, mem, mpRead);
      var b0: int, b1: int, b2: int, b3: int := At(mem, mpRead), At(mem, mpRead + 1), At(mem, mpRead + 2), At(mem, mpRead + 3);
      if order == BigEndian {
        r := 0x100_0000 * b0 + 0x1_0000 * b1 + 0x100 * b2 + b3;
      } else {
        r := b0 + 0x100 * b1 + 0x1_0000 * b2 + 0x100_0000 * b3;
      }
      mpRead := mpRead + 4;
    }

    method Read16() returns (r: U16)
      modifies this
      ensures r == Num16(order, mem, old(mpRead)) && mpRead == old(mpRead) + 2
    {
      TwoBytes(order, mem, mpRead);
      var b0: int, b1: int := At(mem, mpRead), At(mem, mpRead + 1);
      if order == BigEndian {
        r := 0x100 * b0 + b1;
      } else {
        r := b0 + 0x100 * b1;
      }
      mpRead := mpRead + 2;
    }

    method Read8() returns (r: Byte)
      modifies this
      ensures r == At(mem, old(mpRead)) && mpRead == old(mpRead) + 1
    {
      r := At(mem, mpRead);
      mpRead := mpRead + 1;
    }

    /** align(2), the only alignment in use. */
    method Align2()
      modifies this
      ensures mpRead == Even(old(mpRead))
    {
      EvenIsRounding(mpRead);
      mpRead := (mpRead + 1) / 2 * 2;
    }

    method Advance(n: nat)
      modifies this
      ensures mpRead == old(mpRead) + n
    {
      mpRead := mpRead + n;
    }

    method SeekTo(offset: int)
      requires mpBase + offset >= 0
      modifies this
      ensures mpRead == mpBase + offset
    {
      mpRead := mpBase + offset;
    }

    function GetOffset(): int
      reads this
    {
      mpRead - mpBase
    }

    method SeekChunk(signature: nat, area: int) returns (found: bool)
      modifies this
      ensures found <==> Seek(order, mem, old(mpRead), signature, area).Found?
      ensures mpRead == Cursor(Seek(order, mem, old(mpRead), signature, area))
    {
      while mpRead < area
        invariant Seek(order, mem, mpRead, signature, area) == Seek(order, mem, old(mpRead), signature, area)
        decreases area - mpRead
      {
        var readSig := ReadTag();
        var readSize := Read32();
        if readSig == signature {
          return true;
        }
        mpRead := mpBase + readSize + GetOffset();
        Align2();
      }
      return false;
    }
  }

  // ---------------------------------------------------------------- chunks as they are written

  datatype Chunk = Chunk(id: U32, body: seq<Byte>)

  function Pow256(n: nat): (p: nat)
    ensures p >= 1
  {
    if n == 0 then 1 else 256 * Pow256(n - 1)
  }

  lemma Pow256Is4()
    ensures Pow256(4) == 0x1_0000_0000
  {
    assert Pow256(2) == 0x1_0000;
    assert Pow256(3) == 0x100_0000;
  }

  /** A number read from stored bytes is the number in those bytes. */
  lemma {:induction false} StoredNum(order: Order, mem: Memory, at: nat, bytes: seq<Byte>, lo: nat, hi: nat)
    requires Stored(mem, at, bytes) && lo <= hi <= |bytes|
    ensures Num(order, mem, at + lo, at + hi) == Num(order, bytes, lo, hi)
    decreases hi - lo
  {
    if lo < hi {
      if order == BigEndian {
        StoredByte(mem, at, bytes, hi - 1);
        StoredNum(order, mem, at, bytes, lo, hi - 1);
      } else {
        StoredByte(mem, at, bytes, lo);
        StoredNum(order, mem, at, bytes, lo + 1, hi);
      }
    }
  }

  lemma {:induction false} StoredByte(mem: Memory, at: nat, bytes: seq<Byte>, k: nat)
    requires Stored(mem, at, bytes) && k < |bytes|
    ensures At(mem, at + k) == bytes[k]
    decreases k
  {
    if k > 0 {
      StoredByte(mem, at + 1, bytes[1..], k - 1);
    }
  }

  /** A number as it is written in `count` bytes. */
  function Digits(order: Order, n: nat, count: nat): (bytes: seq<Byte>)
    ensures |bytes| == count
    decreases count, n
  {
    if count == 0 then []
    else if order == BigEndian then Digits(order, n / 256, count - 1) + [n % 256]
    else [n % 256] + Digits(order, n / 256, count - 1)
  }

  lemma LowByteFirst(b: Byte, rest: nat, count: nat)
    ensures Digits(LittleEndian, b + 256 * rest, count + 1) == [b] + Digits(LittleEndian, rest, count)
  {
    assert (b + 256 * rest) / 256 == rest && (b + 256 * rest) % 256 == b;
  }

  lemma LowByteLast(rest: nat, b: Byte, count: nat)
    ensures Digits(BigEndian, 256 * rest + b, count + 1) == Digits(BigEndian, rest, count) + [b]
  {
    assert (256 * rest + b) / 256 == rest && (256 * rest + b) % 256 == b;
  }

  lemma LowBytes(b0: Byte, b1: Byte, rest: nat, count: nat)
    ensures Digits(LittleEndian, b0 + 256 * (b1 + 256 * rest), count + 2) == [b0, b1] + Digits(LittleEndian, rest, count)
    ensures Digits(BigEndian, 256 * (256 * rest + b0) + b1, count + 2) == Digits(BigEndian, rest, count) + [b0, b1]
  {
    LowByteFirst(b1, rest, count);
    LowByteFirst(b0, b1 + 256 * rest, count + 1);
    LowByteLast(rest, b0, count);
    LowByteLast(256 * rest + b0, b1, count + 1);
  }

  /** The bytes of a half and of a word, in both orders. */
  lemma HalfDigits(b0: Byte, b1: Byte)
    ensures Digits(LittleEndian, b0 + 0x100 * b1, 2) == [b0, b1]
    ensures Digits(BigEndian, 0x100 * b0 + b1, 2) == [b0, b1]
  {
    LowBytes(b0, b1, 0, 0);
  }

  lemma WordDigits(b0: Byte, b1: Byte, b2: Byte, b3: Byte, size: nat)
    requires size == 4
    ensures Digits(LittleEndian, b0 + 0x100 * b1 + 0x1_0000 * b2 + 0x100_0000 * b3, size) == [b0, b1, b2, b3]
    ensures Digits(BigEndian, 0x100_0000 * b0 + 0x1_0000 * b1 + 0x100 * b2 + b3, size) == [b0, b1, b2, b3]
  {
    var half := size / 2;
    HalfDigits(b2, b3);
    LowBytes(b0, b1, b2 + 256 * b3, half);
    HalfDigits(b0, b1);
    LowBytes(b2, b3, 256 * b0 + b1, half);
  }

  /** Every body's size fits its size field. */
  predicate Writable(chunks: seq<Chunk>) {
    chunks == [] || (|chunks[0].body| < 0x1_0000_0000 && Writable(chunks[1..]))
  }

  /** Identifier, size, body and padding. */
  function ChunkSize(c: Chunk): nat {
    8 + Even(|c.body|)
  }

  function TotalSize(chunks: seq<Chunk>): nat {
    if chunks == [] then 0 else ChunkSize(chunks[0]) + TotalSize(chunks[1..])
  }

  function EncodeChunk(order: Order, c: Chunk): (b: seq<Byte>)
    requires |c.body| < 0x1_0000_0000
    ensures |b| == ChunkSize(c)
  {
    Digits(BigEndian, c.id, 4) + Digits(order, |c.body|, 4) + Padded(c.body)
  }

  function Padded(body: seq<Byte>): (b: seq<Byte>)
    ensures |b| == Even(|body|)
  {
    EvenIsRounding(|body|);
    if |body| % 2 == 1 then body + [0] else body
  }

  function Encode(order: Order, chunks: seq<Chunk>): (b: seq<Byte>)
    requires Writable(chunks)
    ensures |b| == TotalSize(chunks)
  {
    if chunks == [] then [] else EncodeChunk(order, chunks[0]) + Encode(order, chunks[1..])
  }

  /** The bytes are in memory from `at` on. */
  predicate Stored(mem: Memory, at: nat, bytes: seq<Byte>)
    decreases |bytes|
  {
    bytes == [] || (At(mem, at) == bytes[0] && Stored(mem, at + 1, bytes[1..]))
  }

  /** Where the i-th chunk starts, counted from the first. */
  function OffsetOf(chunks: seq<Chunk>, i: nat): nat
    requires i <= |chunks|
  {
    if i == 0 then 0 else ChunkSize(chunks[0]) + OffsetOf(chunks[1..], i - 1)
  }

  /** The chunks lie in memory one after the other. */
  predicate ChunksAt(order: Order, mem: Memory, at: nat, chunks: seq<Chunk>)
    decreases |chunks|
  {
    chunks == [] ||
    (Tag(mem, at) == chunks[0].id && Num32(order, mem, at + 4) == |chunks[0].body|
     && Stored(mem, at + 8, chunks[0].body)
     && ChunksAt(order, mem, at + ChunkSize(chunks[0]), chunks[1..]))
  }

  lemma {:induction false} StoredSplit(mem: Memory, at: nat, a: seq<Byte>, b: seq<Byte>)
    requires Stored(mem, at, a + b)
    ensures Stored(mem, at, a) && Stored(mem, at + |a|, b)
    decreases |a|
  {
    if a == [] {
      assert a + b == b;
    } else {
      assert (a + b)[1..] == a[1..] + b;
      StoredSplit(mem, at + 1, a[1..], b);
    }
  }

  /** Reading a number back. */
  lemma {:induction false} DigitsRead(order: Order, mem: Memory, at: nat, n: nat, count: nat)
    requires n < Pow256(count) && Stored(mem, at, Digits(order, n, count))
    ensures Num(order, mem, at, at + count) == n
    decreases count
  {
    if count > 0 {
      var last, rest: seq<Byte> := n % 256, Digits(order, n / 256, count - 1);
      if order == BigEndian {
        StoredSplit(mem, at, rest, [last]);
        DigitsRead(order, mem, at, n / 256, count - 1);
      } else {
        StoredSplit(mem, at, [last], rest);
        DigitsRead(order, mem, at + 1, n / 256, count - 1);
      }
    }
  }

  lemma HeaderRead(order: Order, mem: Memory, at: nat, c: Chunk)
    requires |c.body| < 0x1_0000_0000 && Stored(mem, at, EncodeChunk(order, c))
    ensures Tag(mem, at) == c.id && Num32(order, mem, at + 4) == |c.body|
    ensures Stored(mem, at + 8, c.body)
  {
    var id, size, pad := Digits(BigEndian, c.id, 4), Digits(order, |c.body|, 4), Padded(c.body);
    StoredSplit(mem, at, id + size, pad);
    StoredSplit(mem, at, id, size);
    Pow256Is4();
    DigitsRead(BigEndian, mem, at, c.id, 4);
    DigitsRead(order, mem, at + 4, |c.body|, 4);
    if |c.body| % 2 == 1 {
      StoredSplit(mem, at + 8, c.body, [0]);
    }
  }

  lemma FirstEncoded(order: Order, mem: Memory, at: nat, chunks: seq<Chunk>)
    requires chunks != [] && Writable(chunks) && Stored(mem, at, Encode(order, chunks))
    ensures Tag(mem, at) == chunks[0].id && Num32(order, mem, at + 4) == |chunks[0].body|
    ensures Stored(mem, at + 8, chunks[0].body)
    ensures Stored(mem, at + ChunkSize(chunks[0]), Encode(order, chunks[1..]))
  {
    StoredSplit(mem, at, EncodeChunk(order, chunks[0]), Encode(order, chunks[1..]));
    HeaderRead(order, mem, at, chunks[0]);
  }

  /** What was written is there to be read. */
  lemma {:induction false} EncodedChunks(order: Order, mem: Memory, at: nat, chunks: seq<Chunk>)
    requires Writable(chunks) && Stored(mem, at, Encode(order, chunks))
    ensures ChunksAt(order, mem, at, chunks)
    decreases |chunks|
  {
    if chunks != [] {
      FirstEncoded(order, mem, at, chunks);
      EncodedChunks(order, mem, at + ChunkSize(chunks[0]), chunks[1..]);
    }
  }

  /** The header of the i-th chunk. */
  lemma {:induction false} HeaderOf(order: Order, mem: Memory, at: nat, chunks: seq<Chunk>, i: nat)
    requires ChunksAt(order, mem, at, chunks) && i < |chunks|
    ensures Num32(order, mem, at + OffsetOf(chunks, i) + 4) == |chunks[i].body|
    decreases i
  {
    if i > 0 {
      HeaderOf(order, mem, at + ChunkSize(chunks[0]), chunks[1..], i - 1);
    }
  }

  /** One round of the search over a chunk at an even address. */
  lemma SeekStep(order: Order, mem: Memory, at: nat, c: Chunk, id: nat, area: int)
    requires Even(at) == at && Num32(order, mem, at + 4) == |c.body|
    ensures Seek(order, mem, at, id, area)
         == if at >= area then Missing(at)
            else if Tag(mem, at) == id then Found(at + 8)
            else Seek(order, mem, at + ChunkSize(c), id, area)
    ensures Even(at + ChunkSize(c)) == at + ChunkSize(c)
  {
    EvenShift(at, 8);
    EvenShift(at + 8, |c.body|);
  }

  /** A chunk the search can see: the file size the headers give ends eight bytes early, so an
      empty chunk at the very end starts at the limit. */
  predicate Visible(chunks: seq<Chunk>, i: nat)
    requires i < |chunks|
  {
    i < |chunks| - 1 || chunks[i].body != []
  }

  /** The first visible chunk with this identifier, or -1. */
  function FirstVisible(chunks: seq<Chunk>, id: nat): (i: int)
    ensures -1 <= i < |chunks|
  {
    if chunks == [] then -1
    else if chunks[0].id == id && Visible(chunks, 0) then 0
    else if FirstVisible(chunks[1..], id) < 0 then -1
    else FirstVisible(chunks[1..], id) + 1
  }

  lemma {:induction false} FirstVisibleIsFirst(chunks: seq<Chunk>, id: nat)
    ensures var i := FirstVisible(chunks, id);
            (i >= 0 ==> chunks[i].id == id && Visible(chunks, i))
            && forall j :: 0 <= j < |chunks| && (i < 0 || j < i) ==> !(chunks[j].id == id && Visible(chunks, j))
  {
    if chunks != [] {
      FirstVisibleIsFirst(chunks[1..], id);
      forall j | 1 <= j < |chunks|
        ensures Visible(chunks, j) == Visible(chunks[1..], j - 1) && chunks[j] == chunks[1..][j - 1]
      {
      }
    }
  }

  /** The outcome r of a search from `at` is chunk i, or a miss when i is -1. */
  predicate LandsOn(mem: Memory, at: nat, chunks: seq<Chunk>, i: int, r: Found)
    requires -1 <= i < |chunks|
  {
    if i < 0 then r.Missing?
    else r == Found(at + OffsetOf(chunks, i) + 8) && Stored(mem, r.body, chunks[i].body)
  }

  /** Searching undoes writing. Over chunks written one after the other from an even address, up
      to the limit the file headers give, the search finds an identifier exactly when a visible
      chunk has it, and then stops on the body of the first such chunk. */
  lemma SeekFindsFirst(order: Order, mem: Memory, at: nat, chunks: seq<Chunk>, id: nat)
    requires Writable(chunks) && Even(at) == at
    requires Stored(mem, at, Encode(order, chunks))
    ensures LandsOn(mem, at, chunks, FirstVisible(chunks, id),
                    Seek(order, mem, at, id, at + |Encode(order, chunks)| - 8))
  {
    EncodedChunks(order, mem, at, chunks);
    SeekOverChunks(order, mem, at, chunks, id);
  }

  lemma {:induction false} SeekOverChunks(order: Order, mem: Memory, at: nat, chunks: seq<Chunk>, id: nat)
    requires ChunksAt(order, mem, at, chunks) && Even(at) == at
    ensures LandsOn(mem, at, chunks, FirstVisible(chunks, id),
                    Seek(order, mem, at, id, at + TotalSize(chunks) - 8))
    decreases |chunks|
  {
    if chunks != [] {
      var c, rest := chunks[0], chunks[1..];
      var area, next := at + TotalSize(chunks) - 8, at + ChunkSize(c);
      SeekStep(order, mem, at, c, id, area);
      BeforeLimit(chunks);
      if !Visible(chunks, 0) || c.id != id {
        SeekOverChunks(order, mem, next, rest, id);
        assert next + TotalSize(rest) - 8 == area;
      }
    }
  }

  /** The first chunk starts before the limit exactly when it is visible; an invisible one is last. */
  lemma BeforeLimit(chunks: seq<Chunk>)
    requires chunks != []
    ensures 0 < TotalSize(chunks) - 8 <==> Visible(chunks, 0)
    ensures !Visible(chunks, 0) ==> chunks[1..] == []
  {
    if |chunks| > 1 {
      assert TotalSize(chunks[1..]) >= 8;
    }
  }

  // ---------------------------------------------------------------- 32-bit addresses

  /** The step over a chunk as the processor computes it. */
  function Step32(at: U32, size: U32): U32 {
    var sum := (at + 8 + size) % 0x1_0000_0000;
    (sum + sum % 2) % 0x1_0000_0000
  }

  /** The model's step is the processor's exactly when the next chunk's address fits 32 bits. */
  lemma StepExact(at: U32, size: U32)
    ensures Step32(at, size) == Even(at + 8 + size) <==> Even(at + 8 + size) < 0x1_0000_0000
  {
    EvenIsRounding(at + 8 + size);
  }

  lemma NumFits(order: Order, mem: Memory, at: nat)
    ensures Num32(order, mem, at) < 0x1_0000_0000
  {
    FourBytes(order, mem, at);
  }

  /** The search as the processor runs it, with 32-bit cursors, cut off after so many chunks. */
  function Search32(order: Order, mem: Memory, at: U32, id: nat, area: U32, fuel: nat): (r: Option<Found>)
    ensures r.Some? ==> Cursor(r.value) < 0x1_0000_0000
    decreases fuel
  {
    if fuel == 0 then None
    else if at >= area then Some(Missing(at))
    else if Tag(mem, at) == id then Some(Found((at + 8) % 0x1_0000_0000))
    else
      NumFits(order, mem, at + 4);
      Search32(order, mem, Step32(at, Num32(order, mem, at + 4)), id, area, fuel - 1)
  }

  /** Every chunk the search passes, and the body it finds, is followed by an address of 32 bits. */
  predicate StaysLow(order: Order, mem: Memory, at: nat, id: nat, area: int)
    decreases area - at
  {
    at >= area
    || (if Tag(mem, at) == id then at + 8 < 0x1_0000_0000
        else
          Even(at + 8 + Num32(order, mem, at + 4)) < 0x1_0000_0000
          && StaysLow(order, mem, Even(at + 8 + Num32(order, mem, at + 4)), id, area))
  }

  /** On every memory the processor's search ends with the result of the search above exactly when
      no address on its way passes 2^32. */
  lemma {:induction false} Search32Exact(order: Order, mem: Memory, at: U32, id: nat, area: U32)
    ensures (exists fuel: nat :: Search32(order, mem, at, id, area, fuel) == Some(Seek(order, mem, at, id, area)))
       <==> StaysLow(order, mem, at, id, area)
    decreases area - at
  {
    if at >= area || Tag(mem, at) == id {
      OneRound(order, mem, at, id, area);
    } else {
      var size := Num32(order, mem, at + 4);
      var next := Even(at + 8 + size);
      NumFits(order, mem, at + 4);
      StepExact(at, size);
      if next < 0x1_0000_0000 {
        Search32Exact(order, mem, next, id, area);
        OneMoreRound(order, mem, at, id, area);
      }
    }
  }

  /** A search that ends in its first round. */
  lemma OneRound(order: Order, mem: Memory, at: U32, id: nat, area: U32)
    requires at >= area || Tag(mem, at) == id
    ensures (exists fuel: nat :: Search32(order, mem, at, id, area, fuel) == Some(Seek(order, mem, at, id, area)))
       <==> StaysLow(order, mem, at, id, area)
  {
    var r := if at >= area then Missing(at) else Found((at + 8) % 0x1_0000_0000);
    var sought := Some(Seek(order, mem, at, id, area));
    assert Some(r) == sought <==> StaysLow(order, mem, at, id, area);
    if StaysLow(order, mem, at, id, area) {
      assert Search32(order, mem, at, id, area, 1) == Some(r);
    } else {
      forall fuel: nat
        ensures Search32(order, mem, at, id, area, fuel) != sought
      {
        assert Search32(order, mem, at, id, area, fuel) == if fuel == 0 then None else Some(r);
      }
    }
  }

  /** Over a chunk with the next address in 32 bits the search ends exactly when it ends from there. */
  lemma OneMoreRound(order: Order, mem: Memory, at: U32, id: nat, area: U32)
    requires at < area && Tag(mem, at) != id && Even(at + 8 + Num32(order, mem, at + 4)) < 0x1_0000_0000
    ensures var next := Even(at + 8 + Num32(order, mem, at + 4));
            (exists fuel: nat :: Search32(order, mem, at, id, area, fuel) == Some(Seek(order, mem, at, id, area)))
            <==> exists fuel: nat :: Search32(order, mem, next, id, area, fuel) == Some(Seek(order, mem, next, id, area))
  {
    var size := Num32(order, mem, at + 4);
    var next := Even(at + 8 + size);
    NumFits(order, mem, at + 4);
    StepExact(at, size);
    assert Seek(order, mem, at, id, area) == Seek(order, mem, next, id, area);
    forall fuel: nat
      ensures Search32(order, mem, at, id, area, fuel + 1) == Search32(order, mem, next, id, area, fuel)
    {
    }
    if fuel: nat :| Search32(order, mem, at, id, area, fuel) == Some(Seek(order, mem, at, id, area)) {
      assert Search32(order, mem, at, id, area, (fuel - 1) + 1) == Search32(order, mem, next, id, area, fuel - 1);
      assert Search32(order, mem, next, id, area, fuel - 1) == Some(Seek(order, mem, next, id, area));
    }
    if fuel: nat :| Search32(order, mem, next, id, area, fuel) == Some(Seek(order, mem, next, id, area)) {
      assert Search32(order, mem, at, id, area, fuel + 1) == Some(Seek(order, mem, at, id, area));
    }
  }

  /** A size field of 0xFFFFFFF8 leads back to the chunk it stands in: in front of the end of the
      area, the search for another identifier never ends. */
  lemma {:induction false} SearchCanLoop(order: Order, mem: Memory, at: U32, id: nat, area: U32, fuel: nat)
    requires at % 2 == 0 && at < area && Tag(mem, at) != id && Num32(order, mem, at + 4) == 0xFFFF_FFF8
    ensures Search32(order, mem, at, id, area, fuel) == None
    decreases fuel
  {
    if fuel > 0 {
      StepBack(at);
      SearchCanLoop(order, mem, at, id, area, fuel - 1);
    }
  }

  lemma StepBack(at: U32)
    requires at % 2 == 0
    ensures Step32(at, 0xFFFF_FFF8) == at
  {
  }
}
