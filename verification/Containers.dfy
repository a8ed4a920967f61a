/** Files as they are written: an outer tag, a size, an inner tag, and chunks. */
module Containers {
  import opened Bytes
  import opened ChunkReader

  function Container(order: Order, outer: U32, inner: U32, chunks: seq<Chunk>): seq<Byte>
    requires Writable(chunks)
  {
    Digits(BigEndian, outer, 4) + (Digits(order, 4 + TotalSize(chunks), 4)
      + (Digits(BigEndian, inner, 4) + Encode(order, chunks)))
  }

  /** A file of these chunks is in memory. */
  predicate ContainerAt(order: Order, outer: U32, inner: U32, mem: Memory, data: nat, chunks: seq<Chunk>) {
    Tag(mem, data) == outer && Tag(mem, data + 8) == inner
    && Num32(order, mem, data + 4) == 4 + TotalSize(chunks)
    && ChunksAt(order, mem, data + 12, chunks) && Even(data + 12) == data + 12
  }

  lemma ContainerWritten(order: Order, outer: U32, inner: U32, mem: Memory, data: nat, chunks: seq<Chunk>)
    requires Writable(chunks) && 4 + TotalSize(chunks) < 0x1_0000_0000 && Even(data) == data
    requires Stored(mem, data, Container(order, outer, inner, chunks))
    ensures ContainerAt(order, outer, inner, mem, data, chunks)
  {
    ContainerParts(order, outer, inner, mem, data, chunks);
    HeaderDigits(order, outer, inner, mem, data, 4 + TotalSize(chunks));
    EncodedChunks(order, mem, data + 12, chunks);
    EvenTwelve(data);
  }

  lemma EvenTwelve(data: nat)
    requires Even(data) == data
    ensures Even(data + 12) == data + 12
  {
    EvenIsRounding(data);
    EvenIsRounding(data + 12);
  }

  lemma ContainerParts(order: Order, outer: U32, inner: U32, mem: Memory, data: nat, chunks: seq<Chunk>)
    requires Writable(chunks) && Stored(mem, data, Container(order, outer, inner, chunks))
    ensures Stored(mem, data, Digits(BigEndian, outer, 4))
    ensures Stored(mem, data + 4, Digits(order, 4 + TotalSize(chunks), 4))
    ensures Stored(mem, data + 8, Digits(BigEndian, inner, 4))
    ensures Stored(mem, data + 12, Encode(order, chunks))
  {
    var first, size := Digits(BigEndian, outer, 4), Digits(order, 4 + TotalSize(chunks), 4);
    var second, body := Digits(BigEndian, inner, 4), Encode(order, chunks);
    StoredSplit(mem, data, first, size + (second + body));
    StoredSplit(mem, data + 4, size, second + body);
    StoredSplit(mem, data + 8, second, body);
  }

  lemma HeaderDigits(order: Order, outer: U32, inner: U32, mem: Memory, data: nat, size: nat)
    requires size < 0x1_0000_0000 && Stored(mem, data, Digits(BigEndian, outer, 4))
    requires Stored(mem, data + 4, Digits(order, size, 4)) && Stored(mem, data + 8, Digits(BigEndian, inner, 4))
    ensures Tag(mem, data) == outer && Tag(mem, data + 8) == inner && Num32(order, mem, data + 4) == size
  {
    Pow256Is4();
    DigitsRead(BigEndian, mem, data, outer, 4);
    DigitsRead(order, mem, data + 4, size, 4);
    DigitsRead(BigEndian, mem, data + 8, inner, 4);
  }

  /** Where the search for a chunk ends in such a file. */
  function ChunkIn(order: Order, mem: Memory, data: nat, id: nat): Found {
    Seek(order, mem, data + 12, id, data + Num32(order, mem, data + 4))
  }

  lemma ChunkFound(order: Order, outer: U32, inner: U32, mem: Memory, data: nat, chunks: seq<Chunk>, id: nat)
    requires ContainerAt(order, outer, inner, mem, data, chunks)
    ensures LandsOn(mem, data + 12, chunks, FirstVisible(chunks, id), ChunkIn(order, mem, data, id))
  {
    SeekOverChunks(order, mem, data + 12, chunks, id);
    assert data + Num32(order, mem, data + 4) == (data + 12) + TotalSize(chunks) - 8;
  }

  /** Chunks written from an even address lie at even addresses. */
  lemma {:induction false} EvenOffset(at: nat, chunks: seq<Chunk>, i: nat)
    requires Even(at) == at && i <= |chunks|
    ensures Even(at + OffsetOf(chunks, i)) == at + OffsetOf(chunks, i)
    decreases i
  {
    if i > 0 {
      EvenShift(at, 8);
      EvenShift(at + 8, |chunks[0].body|);
      EvenOffset(at + ChunkSize(chunks[0]), chunks[1..], i - 1);
    }
  }

  /** A field of the body of the first visible chunk with this identifier. */
  lemma {:induction false} FieldRead(order: Order, outer: U32, inner: U32, mem: Memory, data: nat, chunks: seq<Chunk>, id: nat,
                                     lo: nat, hi: nat)
    requires ContainerAt(order, outer, inner, mem, data, chunks) && FirstVisible(chunks, id) >= 0
    requires lo <= hi <= |chunks[FirstVisible(chunks, id)].body|
    ensures var at := Cursor(ChunkIn(order, mem, data, id));
            Num(order, mem, at + lo, at + hi) == Num(order, chunks[FirstVisible(chunks, id)].body, lo, hi)
  {
    ChunkFound(order, outer, inner, mem, data, chunks, id);
    StoredNum(order, mem, Cursor(ChunkIn(order, mem, data, id)), chunks[FirstVisible(chunks, id)].body, lo, hi);
  }
}
