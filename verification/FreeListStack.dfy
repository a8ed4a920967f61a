/** include/utility/iplStack.h: a stack of fixed-size elements over a free list of blocks that
    are carved out of one byte buffer. A block is a 32-bit link followed by the element. Proved
    to refine a bounded LIFO sequence of elements. */
module FreeListStack {
  import opened Bytes

  const NULL: int := 0
  const POINTER_SIZE: int := 4

  // ---------------------------------------------------------------- layout

  /** init() counts in pointers: the stride is rounded down to whole words. */
  function Spacing(elSize: nat): nat {
    (elSize + POINTER_SIZE) / 4 * 4
  }

  /** Where block i starts: &ptrBuf[ptrsStride * i]. */
  function BlockAt(elSize: nat, i: nat): nat {
    if i == 0 then 0 else BlockAt(elSize, i - 1) + Spacing(elSize)
  }

  /** Whether blocks i and j, each a link and elSize bytes, are apart. */
  predicate Apart(elSize: nat, i: nat, j: nat) {
    BlockAt(elSize, i) + POINTER_SIZE + elSize <= BlockAt(elSize, j)
    || BlockAt(elSize, j) + POINTER_SIZE + elSize <= BlockAt(elSize, i)
  }

  lemma {:induction false} Ahead(elSize: nat, i: nat, j: nat)
    requires i < j
    ensures BlockAt(elSize, i) + Spacing(elSize) <= BlockAt(elSize, j)
  {
    if i < j - 1 {
      Ahead(elSize, i, j - 1);
    }
  }

  /** Blocks do not overlap exactly when elements are whole words or there is only one block. */
  lemma LayoutExact(elSize: nat, count: nat)
    requires count >= 1
    ensures (elSize % 4 == 0 || count == 1)
       <==> forall i: nat, j: nat :: i < j < count ==> Apart(elSize, i, j)
  {
    if elSize % 4 == 0 {
      forall i: nat, j: nat | i < j < count
        ensures Apart(elSize, i, j)
      {
        Ahead(elSize, i, j);
      }
    } else if count > 1 {
      assert BlockAt(elSize, 1) == BlockAt(elSize, 0) + Spacing(elSize);
      assert !Apart(elSize, 0, 1);
    }
  }

  /** Every block lies inside a buffer of the size getRequiredBufSize() asks for. */
  lemma {:induction false} BlockFits(elSize: nat, count: nat, i: nat)
    requires i < count
    ensures BlockAt(elSize, i) + POINTER_SIZE + elSize <= (elSize + POINTER_SIZE) * count
  {
    if i > 0 {
      BlockFits(elSize, count - 1, i - 1);
    } else {
      assert (elSize + POINTER_SIZE) * (count - 1) >= 0;
    }
  }

  // ---------------------------------------------------------------- memory

  function Link(mem: seq<Byte>, at: nat): U32
    requires at + 4 <= |mem|
  {
    Word(mem[at], mem[at + 1], mem[at + 2], mem[at + 3])
  }

  /** Two memories that agree outside the bytes from lo up to hi. */
  predicate SameExcept(mem: seq<Byte>, mem': seq<Byte>, lo: nat, hi: nat) {
    |mem'| == |mem|
    && forall i :: 0 <= i < |mem| && (i < lo || hi <= i) ==> mem'[i] == mem[i]
  }

  function Stored(mem: seq<Byte>, at: nat, bytes: seq<Byte>): seq<Byte>
    requires at + |bytes| <= |mem|
  {
    mem[..at] + bytes + mem[at + |bytes|..]
  }

  /** An element that is not a whole number of words and is stored in block i can change the
      link of block i + 1: what any failing size does to the chains. */
  lemma NeighbourCorrupted(mem: seq<Byte>, elSize: nat, i: nat) returns (element: seq<Byte>)
    requires elSize % 4 != 0
    requires BlockAt(elSize, i + 1) + 4 <= |mem|
    requires BlockAt(elSize, i) + POINTER_SIZE + elSize <= |mem|
    ensures |element| == elSize
    ensures Link(Stored(mem, BlockAt(elSize, i) + POINTER_SIZE, element), BlockAt(elSize, i + 1))
         != Link(mem, BlockAt(elSize, i + 1))
  {
    var next := BlockAt(elSize, i + 1);
    var start := BlockAt(elSize, i) + POINTER_SIZE;
    var other: Byte := if mem[next] == 0 then 1 else 0;
    element := seq(elSize, _ => other);
    var after := Stored(mem, start, element);
    assert start <= next < start + elSize;
    assert after[next] == element[next - start];
    assert after[next] != mem[next];
  }

  // ---------------------------------------------------------------- chains of blocks

  // From here on a block is named by its offset in the buffer.

  predicate InMemory(mem: seq<Byte>, el: nat, b: nat) {
    b + POINTER_SIZE + el <= |mem|
  }

  predicate ApartAt(el: nat, b: nat, c: nat) {
    b + POINTER_SIZE + el <= c || c + POINTER_SIZE + el <= b
  }

  /** The links starting at address `top` lead through `blocks` and end in NULL. The memory
      starts at address `base`. */
  predicate Chain(mem: seq<Byte>, base: int, el: nat, top: int, blocks: seq<nat>)
    decreases |blocks|
  {
    if blocks == [] then top == NULL
    else
      InMemory(mem, el, blocks[0])
      && top == base + blocks[0]
      && Chain(mem, base, el, Link(mem, blocks[0]), blocks[1..])
  }

  function Element(mem: seq<Byte>, el: nat, b: nat): seq<Byte>
    requires InMemory(mem, el, b)
  {
    mem[b + POINTER_SIZE..b + POINTER_SIZE + el]
  }

  /** A chain together with the elements in its blocks, from the top on. */
  predicate Holds(mem: seq<Byte>, base: int, el: nat, top: int, blocks: seq<nat>, contents: seq<seq<Byte>>)
    decreases |blocks|
  {
    |contents| == |blocks|
    && if blocks == [] then top == NULL
       else
         InMemory(mem, el, blocks[0])
         && top == base + blocks[0]
         && Element(mem, el, blocks[0]) == contents[0]
         && Holds(mem, base, el, Link(mem, blocks[0]), blocks[1..], contents[1..])
  }

  predicate Disjoint(el: nat, b: nat, blocks: seq<nat>) {
    forall c :: c in blocks ==> ApartAt(el, b, c)
  }

  /** Two memories that agree outside block b. */
  predicate SameOutside(mem: seq<Byte>, mem': seq<Byte>, el: nat, b: nat) {
    SameExcept(mem, mem', b, b + POINTER_SIZE + el)
  }

  lemma BlockFrame(mem: seq<Byte>, mem': seq<Byte>, el: nat, b: nat, c: nat)
    requires SameOutside(mem, mem', el, b) && ApartAt(el, b, c) && InMemory(mem, el, c)
    ensures Link(mem', c) == Link(mem, c)
    ensures Element(mem', el, c) == Element(mem, el, c)
  {
  }

  lemma {:induction false} ChainFrame(mem: seq<Byte>, mem': seq<Byte>, base: int, el: nat, top: int, blocks: seq<nat>, b: nat)
    requires Chain(mem, base, el, top, blocks) && SameOutside(mem, mem', el, b) && Disjoint(el, b, blocks)
    ensures Chain(mem', base, el, top, blocks)
    decreases |blocks|
  {
    if blocks != [] {
      BlockFrame(mem, mem', el, b, blocks[0]);
      ChainFrame(mem, mem', base, el, Link(mem, blocks[0]), blocks[1..], b);
    }
  }

  lemma {:induction false} HoldsFrame(mem: seq<Byte>, mem': seq<Byte>, base: int, el: nat, top: int, blocks: seq<nat>,
                                      contents: seq<seq<Byte>>, b: nat)
    requires Holds(mem, base, el, top, blocks, contents) && SameOutside(mem, mem', el, b) && Disjoint(el, b, blocks)
    ensures Holds(mem', base, el, top, blocks, contents)
    decreases |blocks|
  {
    if blocks != [] {
      BlockFrame(mem, mem', el, b, blocks[0]);
      HoldsFrame(mem, mem', base, el, Link(mem, blocks[0]), blocks[1..], contents[1..], b);
    }
  }

  // ---------------------------------------------------------------- the stack

  class Stack {
    // FreeList
    var mpFreeTop: int
    var mStride: nat
    var mpBuffer: array<Byte>
    // Stack
    var pStackTop: int
    var mStackElSize: nat
    var mCount: nat

    /** The address of the buffer's first byte. */
    var base: int
    /** The bytes of the buffer. */
    ghost var mem: seq<Byte>
    ghost var capacity: nat
    /** The blocks on the free chain and on the stack chain, top first. */
    ghost var free: seq<nat>
    ghost var held: seq<nat>
    /** The elements held, the most recent first. */
    ghost var contents: seq<seq<Byte>>

    ghost predicate Valid()
      reads this, mpBuffer
    {
      mem == mpBuffer[..]
      && 0 < base && base + mpBuffer.Length < 0x1_0000_0000
      && Consistent(mem, base, mStackElSize, capacity, mpFreeTop, free, pStackTop, held, contents)
      && mCount == |held|
    }

    method WriteLink(at: nat, target: U32)
      requires mem == mpBuffer[..] && at + 4 <= |mem|
      modifies mpBuffer, this`mem
      ensures mem == mpBuffer[..]
      ensures SameExcept(old(mem), mem, at, at + 4)
      ensures Link(mem, at) == target
    {
      var w := WordBytes(target);
      WordRoundTrip(target);
      mpBuffer[at] := w[0];
      mpBuffer[at + 1] := w[1];
      mpBuffer[at + 2] := w[2];
      mpBuffer[at + 3] := w[3];
      mem := mpBuffer[..];
    }

    method ReadLink(at: nat) returns (target: U32)
      requires mem == mpBuffer[..] && at + 4 <= |mem|
      ensures target == Link(mem, at)
    {
      target := Word(mpBuffer[at], mpBuffer[at + 1], mpBuffer[at + 2], mpBuffer[at + 3]);
    }

    /** memcpy into a block's data. */
    method CopyIn(at: nat, data: seq<Byte>)
      requires mem == mpBuffer[..] && at + |data| <= |mem|
      modifies mpBuffer, this`mem
      ensures mem == mpBuffer[..]
      ensures SameExcept(old(mem), mem, at, at + |data|)
      ensures mem[at..at + |data|] == data
    {
      for k := 0 to |data|
        invariant forall i :: 0 <= i < mpBuffer.Length && (i < at || at + k <= i) ==> mpBuffer[i] == old(mpBuffer[i])
        invariant forall i :: 0 <= i < k ==> mpBuffer[at + i] == data[i]
      {
        mpBuffer[at + k] := data[k];
      }
      mem := mpBuffer[..];
    }

    constructor ()
      ensures mpFreeTop == NULL && pStackTop == NULL && mCount == 0 && mStackElSize == 0
    {
      mpFreeTop, mStride, mpBuffer := NULL, 0, new Byte[0];
      pStackTop, mStackElSize, mCount := NULL, 0, 0;
    }

    /** FreeList::init: carves the buffer into a chain of free blocks. */
    method InitFreeList(buf: array<Byte>, address: int, elSize: nat, count: nat)
      requires count >= 1
      requires 0 < address && address + buf.Length < 0x1_0000_0000
      requires buf.Length >= (elSize + POINTER_SIZE) * count
      modifies this, buf
      ensures mpBuffer == buf && base == address && mStride == elSize + POINTER_SIZE
      ensures mem == buf[..] && free == Offsets(elSize, 0, count)
      ensures Chain(mem, base, elSize, mpFreeTop, free)
    {
      mpBuffer, base, mem := buf, address, buf[..];
      mpFreeTop := address;
      var i := 0;
      while i < count - 1
        invariant 0 <= i <= count - 1 && mpBuffer == buf && base == address && mpFreeTop == address
        invariant mem == buf[..] && LinkedUpTo(mem, base, elSize, i)
      {
        ghost var before := mem;
        BlockFits(elSize, count, i);
        BlockFits(elSize, count, i + 1);
        WriteLink(BlockAt(elSize, i), address + BlockAt(elSize, i + 1));
        LinkedStep(before, mem, base, elSize, i);
        i := i + 1;
      }
      EndFreeList(elSize, count);
      mStride := elSize + POINTER_SIZE;
    }

    /** The last block ends the chain. */
    method EndFreeList(elSize: nat, count: nat)
      requires count >= 1 && mem == mpBuffer[..] && |mem| >= (elSize + POINTER_SIZE) * count
      requires LinkedUpTo(mem, base, elSize, count - 1)
      modifies mpBuffer, this`mem, this`free
      ensures mem == mpBuffer[..] && free == Offsets(elSize, 0, count)
      ensures Chain(mem, base, elSize, base, free)
    {
      ghost var before := mem;
      BlockFits(elSize, count, count - 1);
      WriteLink(BlockAt(elSize, count - 1), NULL);
      free := Offsets(elSize, 0, count);
      LastBlock(before, mem, base, elSize, count);
    }

    /** Stack::init. */
    method Init(buf: array<Byte>, address: int, elSize: nat, count: nat)
      requires count >= 1
      requires 0 < address && address + buf.Length < 0x1_0000_0000
      requires buf.Length >= (elSize + POINTER_SIZE) * count
      modifies this, buf
      ensures mpBuffer == buf && base == address && capacity == count && mStackElSize == elSize
      ensures elSize % 4 == 0 || count == 1 ==> Valid() && contents == []
    {
      InitFreeList(buf, address, elSize, count);
      mStackElSize := elSize;
      pStackTop := NULL;
      mCount := 0;
      capacity, held, contents := count, [], [];
    }

    /** FreeList::get: the block in front of the free chain, or NULL. */
    method Get() returns (out: int)
      requires mem == mpBuffer[..] && Chain(mem, base, mStackElSize, mpFreeTop, free) && base > 0
      modifies this`mpFreeTop, this`free
      ensures out == old(mpFreeTop)
      ensures out == NULL <==> old(free) == []
      ensures old(free) == [] ==> free == [] && mpFreeTop == NULL
      ensures out != NULL ==>
                && InMemory(mem, mStackElSize, old(free)[0])
                && out == base + old(free)[0]
                && mpFreeTop == Link(mem, old(free)[0])
                && free == old(free)[1..]
      ensures Chain(mem, base, mStackElSize, mpFreeTop, free)
    {
      out := mpFreeTop;
      if out == NULL {
        return;
      }
      mpFreeTop := ReadLink(mpFreeTop - base);
      free := free[1..];
    }

    /** FreeList::release: links block b in front of the free chain. */
    method Release(block: int, ghost b: nat)
      requires mem == mpBuffer[..] && 0 <= mpFreeTop < 0x1_0000_0000
      requires block == base + b && InMemory(mem, mStackElSize, b)
      modifies this`mpFreeTop, this`free, this`mem, mpBuffer
      ensures mem == mpBuffer[..] && SameOutside(old(mem), mem, mStackElSize, b)
      ensures Link(mem, b) == old(mpFreeTop)
      ensures mpFreeTop == block && free == [b] + old(free)
    {
      WriteLink(block - base, mpFreeTop);
      mpFreeTop := block;
      free := [b] + free;
    }

    /** The element and the link written into the block just taken. */
    method FillBlock(block: int, data: seq<Byte>, target: U32, ghost b: nat)
      requires |data| == mStackElSize && block == base + b
      requires mem == mpBuffer[..] && InMemory(mem, mStackElSize, b)
      modifies mpBuffer, this`mem
      ensures mem == mpBuffer[..]
      ensures SameOutside(old(mem), mem, mStackElSize, b)
      ensures Element(mem, mStackElSize, b) == data
      ensures Link(mem, b) == target
    {
      CopyIn(block - base + POINTER_SIZE, data);
      WriteLink(block - base, target);
      assert Element(mem, mStackElSize, b) == data;
    }

    method Push(data: seq<Byte>) returns (ok: bool)
      requires Valid() && |data| == mStackElSize
      modifies this, mpBuffer
      ensures mpBuffer == old(mpBuffer) && base == old(base) && mStackElSize == old(mStackElSize) && capacity == old(capacity)
      ensures Valid()
      ensures ok <==> old(mCount) < capacity
      ensures contents == if ok then [data] + old(contents) else old(contents)
    {
      ghost var before, top, blocks := mem, mpFreeTop, free;
      var newBlock := Get();
      if newBlock != NULL {
        PushBlock(newBlock, data, before, top, blocks);
        ok := true;
      } else {
        ok := false;
      }
    }

    /** The element goes into the block just taken from the free chain `blocks`. */
    method PushBlock(newBlock: int, data: seq<Byte>, ghost before: seq<Byte>, ghost top: int, ghost blocks: seq<nat>)
      requires mem == before == mpBuffer[..] && 0 < base && base + mpBuffer.Length < 0x1_0000_0000 && |data| == mStackElSize
      requires Consistent(mem, base, mStackElSize, capacity, top, blocks, pStackTop, held, contents) && mCount == |held|
      requires blocks != [] && InMemory(mem, mStackElSize, blocks[0]) && newBlock == top == base + blocks[0]
      requires free == blocks[1..] && mpFreeTop == Link(mem, blocks[0])
      requires 0 <= pStackTop < 0x1_0000_0000
      modifies this`mem, this`pStackTop, this`mCount, this`held, this`contents, mpBuffer
      ensures Valid() && contents == [data] + old(contents)
    {
      FillBlock(newBlock, data, pStackTop, blocks[0]);
      PushKeeps(before, mem, base, mStackElSize, capacity, top, blocks, pStackTop, held, contents, data);
      pStackTop, mCount := newBlock, mCount + 1;
      held, contents := [blocks[0]] + held, [data] + contents;
    }

    /** memcpy out of a block's data. */
    method CopyOut(block: int, ghost b: nat) returns (data: seq<Byte>)
      requires mem == mpBuffer[..] && block == base + b && InMemory(mem, mStackElSize, b)
      ensures data == Element(mem, mStackElSize, b)
    {
      data := mpBuffer[block - base + POINTER_SIZE..block - base + POINTER_SIZE + mStackElSize];
    }

    /** `want` says whether the caller passed a place for the element (data != NULL). */
    method Pop(want: bool) returns (ok: bool, data: seq<Byte>)
      requires Valid()
      modifies this, mpBuffer
      ensures mpBuffer == old(mpBuffer) && base == old(base) && mStackElSize == old(mStackElSize) && capacity == old(capacity)
      ensures Valid()
      ensures ok <==> old(mCount) > 0
      ensures ok && want ==> data == old(contents)[0]
      ensures contents == if ok then old(contents)[1..] else old(contents)
    {
      data := [];
      var popped := pStackTop;
      if popped != NULL {
        if want {
          data := CopyOut(popped, held[0]);
        }
        PopBlock(popped);
        ok := true;
      } else {
        ok := false;
      }
    }

    /** The block on top of the stack goes back to the free chain. */
    method PopBlock(popped: int)
      requires mem == mpBuffer[..] && 0 < base && base + mpBuffer.Length < 0x1_0000_0000
      requires Consistent(mem, base, mStackElSize, capacity, mpFreeTop, free, pStackTop, held, contents) && mCount == |held|
      requires held != [] && popped == pStackTop == base + held[0] && InMemory(mem, mStackElSize, held[0])
      requires 0 <= mpFreeTop < 0x1_0000_0000
      modifies this`mem, this`mpFreeTop, this`free, this`pStackTop, this`mCount, this`held, this`contents, mpBuffer
      ensures Valid() && contents == old(contents)[1..]
    {
      ghost var before, top, blocks, list := mem, mpFreeTop, held, free;
      pStackTop := ReadLink(popped - base);
      Release(popped, blocks[0]);
      PopKeeps(before, mem, base, mStackElSize, capacity, top, list, popped, blocks, contents);
      mCount := mCount - 1;
      held, contents := blocks[1..], contents[1..];
    }
  }

  // ---------------------------------------------------------------- partitions of the blocks

  /** The offsets of blocks first, first + 1, ..., count - 1. */
  function Offsets(el: nat, first: nat, count: nat): (s: seq<nat>)
    requires first <= count
    ensures |s| == count - first
    decreases count - first
  {
    if first == count then [] else [BlockAt(el, first)] + Offsets(el, first + 1, count)
  }

  /** How often x occurs in s. */
  function Times(s: seq<nat>, x: nat): nat {
    if s == [] then 0 else (if s[0] == x then 1 else 0) + Times(s[1..], x)
  }

  /** Each of the `count` blocks is on exactly one of the two chains, once. */
  ghost predicate Partitions(a: seq<nat>, b: seq<nat>, el: nat, count: nat) {
    |a| + |b| == count
    && forall x: nat :: Times(a, x) + Times(b, x) == Times(Offsets(el, 0, count), x)
  }

  lemma {:induction false} TimesMember(s: seq<nat>, x: nat)
    ensures Times(s, x) > 0 <==> x in s
  {
    if s != [] {
      TimesMember(s[1..], x);
      assert s == [s[0]] + s[1..];
    }
  }

  lemma {:induction false} OffsetsOnce(el: nat, first: nat, count: nat, x: nat)
    requires first <= count
    ensures Times(Offsets(el, first, count), x) <= 1
    ensures Times(Offsets(el, first, count), x) > 0 ==>
              BlockAt(el, first) <= x && exists k: nat :: first <= k < count && x == BlockAt(el, k)
    decreases count - first
  {
    if first < count {
      assert Offsets(el, first, count)[1..] == Offsets(el, first + 1, count);
      OffsetsOnce(el, first + 1, count, x);
      Ahead(el, first, first + 1);
    }
  }

  /** Moving the first block of one chain to the front of the other. */
  lemma MovedBlock(a: seq<nat>, b: seq<nat>, el: nat, count: nat)
    requires Partitions(a, b, el, count) && a != []
    ensures Partitions(a[1..], [a[0]] + b, el, count)
    ensures Partitions([a[0]] + b, a[1..], el, count)
  {
    assert ([a[0]] + b)[1..] == b;
  }

  /** Two different blocks do not overlap. */
  lemma BlocksApart(el: nat, count: nat, b: nat, c: nat)
    requires el % 4 == 0 || count == 1
    requires Times(Offsets(el, 0, count), b) > 0 && Times(Offsets(el, 0, count), c) > 0 && b != c
    ensures ApartAt(el, b, c)
  {
    OffsetsOnce(el, 0, count, b);
    OffsetsOnce(el, 0, count, c);
    var i: nat :| i < count && b == BlockAt(el, i);
    var j: nat :| j < count && c == BlockAt(el, j);
    LayoutExact(el, count);
    assert if i < j then Apart(el, i, j) else Apart(el, j, i);
  }

  /** The first block of a chain is apart from all the others. */
  lemma OnePlace(a: seq<nat>, b: seq<nat>, el: nat, count: nat)
    requires Partitions(a, b, el, count) || Partitions(b, a, el, count)
    requires a != [] && (el % 4 == 0 || count == 1)
    ensures Disjoint(el, a[0], a[1..]) && Disjoint(el, a[0], b)
  {
    forall c | c in a[1..] || c in b
      ensures ApartAt(el, a[0], c)
    {
      TimesMember(a[1..], c);
      TimesMember(b, c);
      OffsetsOnce(el, 0, count, c);
      assert Times(a, a[0]) > 0;
      assert Times(a, a[0]) + Times(b, a[0]) == Times(Offsets(el, 0, count), a[0]);
      assert Times(a, c) + Times(b, c) == Times(Offsets(el, 0, count), c);
      BlocksApart(el, count, a[0], c);
    }
  }

  // ---------------------------------------------------------------- what init, push and pop keep

  /** A free chain and a stack chain that partition `count` blocks lying apart. */
  ghost predicate Consistent(mem: seq<Byte>, base: int, el: nat, count: nat, freeTop: int, free: seq<nat>,
                             stackTop: int, held: seq<nat>, contents: seq<seq<Byte>>)
  {
    (el % 4 == 0 || count == 1)
    && Partitions(free, held, el, count)
    && Chain(mem, base, el, freeTop, free)
    && Holds(mem, base, el, stackTop, held, contents)
  }

  /** The first n blocks are linked, each to its successor. */
  predicate LinkedUpTo(mem: seq<Byte>, base: int, el: nat, n: nat) {
    n == 0 ||
    (InMemory(mem, el, BlockAt(el, n - 1))
     && Link(mem, BlockAt(el, n - 1)) == base + BlockAt(el, n)
     && LinkedUpTo(mem, base, el, n - 1))
  }

  lemma {:induction false} LinkedFrame(mem: seq<Byte>, mem': seq<Byte>, base: int, el: nat, n: nat, at: nat)
    requires LinkedUpTo(mem, base, el, n) && BlockAt(el, n) <= at
    requires SameExcept(mem, mem', at, at + 4)
    ensures LinkedUpTo(mem', base, el, n)
  {
    if n > 0 {
      LinkedFrame(mem, mem', base, el, n - 1, at);
    }
  }

  lemma {:induction false} LinkedAt(mem: seq<Byte>, base: int, el: nat, n: nat, k: nat)
    requires LinkedUpTo(mem, base, el, n) && k < n
    ensures InMemory(mem, el, BlockAt(el, k)) && Link(mem, BlockAt(el, k)) == base + BlockAt(el, k + 1)
  {
    if k < n - 1 {
      LinkedAt(mem, base, el, n - 1, k);
    }
  }

  /** The blocks from `first` on form a chain once the last one is linked to NULL. */
  lemma {:induction false} FreshChain(mem: seq<Byte>, base: int, el: nat, count: nat, first: nat)
    requires first < count && LinkedUpTo(mem, base, el, count - 1) && InMemory(mem, el, BlockAt(el, count - 1))
    requires Link(mem, BlockAt(el, count - 1)) == NULL
    ensures Chain(mem, base, el, base + BlockAt(el, first), Offsets(el, first, count))
    decreases count - first
  {
    var rest := Offsets(el, first + 1, count);
    if first < count - 1 {
      LinkedAt(mem, base, el, count - 1, first);
      FreshChain(mem, base, el, count, first + 1);
    }
    ChainFront(mem, base, el, BlockAt(el, first), rest);
  }

  lemma ChainFront(mem: seq<Byte>, base: int, el: nat, b: nat, rest: seq<nat>)
    requires InMemory(mem, el, b) && Chain(mem, base, el, Link(mem, b), rest)
    ensures Chain(mem, base, el, base + b, [b] + rest)
  {
    assert ([b] + rest)[1..] == rest;
  }

  lemma LinkedStep(mem: seq<Byte>, mem': seq<Byte>, base: int, el: nat, n: nat)
    requires LinkedUpTo(mem, base, el, n) && InMemory(mem, el, BlockAt(el, n))
    requires SameExcept(mem, mem', BlockAt(el, n), BlockAt(el, n) + 4)
    requires Link(mem', BlockAt(el, n)) == base + BlockAt(el, n + 1)
    ensures LinkedUpTo(mem', base, el, n + 1)
  {
    LinkedFrame(mem, mem', base, el, n, BlockAt(el, n));
  }

  lemma LastBlock(mem: seq<Byte>, mem': seq<Byte>, base: int, el: nat, count: nat)
    requires count >= 1 && LinkedUpTo(mem, base, el, count - 1) && InMemory(mem, el, BlockAt(el, count - 1))
    requires SameExcept(mem, mem', BlockAt(el, count - 1), BlockAt(el, count - 1) + 4)
    requires Link(mem', BlockAt(el, count - 1)) == NULL
    ensures Chain(mem', base, el, base, Offsets(el, 0, count))
  {
    LinkedFrame(mem, mem', base, el, count - 1, BlockAt(el, count - 1));
    FreshChain(mem', base, el, count, 0);
  }

  lemma PushKeeps(mem: seq<Byte>, mem': seq<Byte>, base: int, el: nat, count: nat, freeTop: int, free: seq<nat>,
                  stackTop: U32, held: seq<nat>, contents: seq<seq<Byte>>, data: seq<Byte>)
    requires Consistent(mem, base, el, count, freeTop, free, stackTop, held, contents) && free != []
    requires |data| == el && SameOutside(mem, mem', el, free[0])
    requires Element(mem', el, free[0]) == data && Link(mem', free[0]) == stackTop
    ensures Consistent(mem', base, el, count, Link(mem, free[0]), free[1..],
                       freeTop, [free[0]] + held, [data] + contents)
  {
    var b := free[0];
    OnePlace(free, held, el, count);
    MovedBlock(free, held, el, count);
    ChainFrame(mem, mem', base, el, Link(mem, b), free[1..], b);
    HoldsFrame(mem, mem', base, el, stackTop, held, contents, b);
    assert ([b] + held)[1..] == held && ([data] + contents)[1..] == contents;
  }

  lemma PopKeeps(mem: seq<Byte>, mem': seq<Byte>, base: int, el: nat, count: nat, freeTop: U32, free: seq<nat>,
                 stackTop: int, held: seq<nat>, contents: seq<seq<Byte>>)
    requires Consistent(mem, base, el, count, freeTop, free, stackTop, held, contents) && held != []
    requires SameOutside(mem, mem', el, held[0]) && Link(mem', held[0]) == freeTop
    ensures Element(mem, el, held[0]) == contents[0]
    ensures Consistent(mem', base, el, count, stackTop, [held[0]] + free,
                       Link(mem, held[0]), held[1..], contents[1..])
  {
    var b := held[0];
    OnePlace(held, free, el, count);
    assert Partitions(held, free, el, count);
    MovedBlock(held, free, el, count);
    ChainFrame(mem, mem', base, el, freeTop, free, b);
    HoldsFrame(mem, mem', base, el, Link(mem, b), held[1..], contents[1..], b);
    assert ([b] + free)[1..] == free;
  }
}
