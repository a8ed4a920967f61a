/** include/iplwww/www_message.h: typed messages are copied into a slot of a buffer and the slot
    travels through an OSMessageQueue. Sends and receives run with interrupts disabled, so any
    interleaving of senders and receivers is a sequence of whole calls. */
module MessagePool {
  import opened Bytes

  const FREE: int := 0
  const TAKEN: int := 0xFFFF_FFFF
  /** The slots a send looks at, whatever the size of the buffer. */
  const SCANNED: nat := 8

  /** The bytes of a BufferEntry: a word and a value of this size and alignment, with the padding the
      compiler puts between and behind them. */
  function Stride(valueSize: nat, align: nat): (stride: nat)
    requires align == 1 || align == 2 || align == 4 || align == 8
    ensures stride >= 4 + valueSize && stride % 4 == 0
    ensures align <= 4 ==> stride < 4 + valueSize + 4
    ensures align == 8 ==> stride % 8 == 0 && 8 + valueSize <= stride < 8 + valueSize + 8
  {
    if align <= 4 then (4 + valueSize + 3) / 4 * 4 else (8 + valueSize + 7) / 8 * 8
  }

  /** The bytes of slot i's tag that the constructor's memset clears: it is asked for
      COUNT * sizeof(T) bytes, which counts values although slots are larger. */
  function ClearedBytes(count: nat, valueSize: nat, stride: nat, i: nat): (n: nat)
    ensures n <= 4 && (n > 0 ==> i * stride + n <= count * valueSize) && (n < 4 ==> count * valueSize <= i * stride + n)
  {
    var cleared := count * valueSize - i * stride;
    if cleared <= 0 then 0 else if cleared >= 4 then 4 else cleared
  }

  /** A big-endian word after its first n bytes are cleared. */
  function ClearHead(word: U32, n: nat): U32
    requires n <= 4
  {
    if n == 0 then word
    else if n == 1 then word % 0x100_0000
    else if n == 2 then word % 0x1_0000
    else if n == 3 then word % 0x100
    else 0
  }

  /** The bytes from the n-th on are as they were. */
  lemma ClearedBytesOf(word: U32, n: nat)
    requires n <= 4
    ensures forall k :: 0 <= k < 4 ==> WordBytes(ClearHead(word, n))[k] == if k < n then 0 else WordBytes(word)[k]
  {
    var b := WordBytes(word);
    WordRoundTrip(word);
    HeadCleared(b[0], b[1], b[2], b[3], n);
    BytesOfWord(if n > 0 then 0 else b[0], if n > 1 then 0 else b[1], if n > 2 then 0 else b[2], if n > 3 then 0 else b[3]);
  }

  lemma HeadCleared(b0: Byte, b1: Byte, b2: Byte, b3: Byte, n: nat)
    requires n <= 4
    ensures ClearHead(Word(b0, b1, b2, b3), n)
         == Word(if n > 0 then 0 else b0, if n > 1 then 0 else b1, if n > 2 then 0 else b2, if n > 3 then 0 else b3)
  {
    var low := 256 * b2 + b3;
    assert Word(b0, b1, b2, b3) == 0x1_0000 * (256 * b0 + b1) + low == 0x100_0000 * b0 + (0x1_0000 * b1 + low);
    assert Word(b0, b1, b2, b3) == 0x100 * (0x1_0000 * b0 + 0x100 * b1 + b2) + b3;
  }

  /** The free slots among the first n. */
  function FreeAmong(tags: seq<U32>, n: nat): nat
    requires n <= |tags|
  {
    if n == 0 then 0 else FreeAmong(tags, n - 1) + if tags[n - 1] == FREE then 1 else 0
  }

  /** The tags as the constructor leaves them, from whatever the memory held before. */
  function InitialTags(count: nat, valueSize: nat, stride: nat, before: seq<U32>): (tags: seq<U32>)
    requires |before| == count
    ensures |tags| == count
  {
    seq(count, i requires 0 <= i < count => ClearHead(before[i], ClearedBytes(count, valueSize, stride, i)))
  }

  /** A slot starts free exactly when the bytes of its tag that the memset does not reach, those from
      byte count * valueSize of the buffer on, happened to be zero. */
  lemma SlotFreeExact(count: nat, valueSize: nat, stride: nat, before: seq<U32>, i: nat)
    requires |before| == count && i < count
    ensures InitialTags(count, valueSize, stride, before)[i] == FREE
       <==> forall k :: 0 <= k < 4 && i * stride + k >= count * valueSize ==> WordBytes(before[i])[k] == 0
  {
    FreeHead(before[i], ClearedBytes(count, valueSize, stride, i));
  }

  lemma FreeHead(word: U32, n: nat)
    requires n <= 4
    ensures ClearHead(word, n) == FREE <==> forall k :: n <= k < 4 ==> WordBytes(word)[k] == 0
  {
    ClearedBytesOf(word, n);
    OnlyZero(ClearHead(word, n));
    ZeroBehind(WordBytes(ClearHead(word, n)), WordBytes(word), n);
  }

  lemma ZeroBehind(a: seq<Byte>, b: seq<Byte>, n: nat)
    requires |a| == |b| == 4 && n <= 4 && forall k :: 0 <= k < 4 ==> a[k] == if k < n then 0 else b[k]
    ensures (forall k :: 0 <= k < 4 ==> a[k] == 0) <==> (forall k :: n <= k < 4 ==> b[k] == 0)
  {
    if forall k :: 0 <= k < 4 ==> a[k] == 0 {
      assert forall k :: n <= k < 4 ==> a[k] == b[k];
    }
  }

  lemma OnlyZero(word: U32)
    ensures word == 0 <==> forall k :: 0 <= k < 4 ==> WordBytes(word)[k] == 0
  {
    var b := WordBytes(word);
    WordRoundTrip(word);
    if forall k :: 0 <= k < 4 ==> b[k] == 0 {
      assert b[0] == 0 && b[1] == 0 && b[2] == 0 && b[3] == 0;
    }
  }

  /** All eight slots start free, whatever the memory held, exactly when the memset reaches the
      end of the eighth tag. */
  lemma AllFreeExact(count: nat, valueSize: nat, align: nat)
    requires count >= SCANNED && (align == 1 || align == 2 || align == 4 || align == 8)
    ensures count * valueSize >= 7 * Stride(valueSize, align) + 4
       <==> forall before: seq<U32> :: |before| == count ==>
              FreeAmong(InitialTags(count, valueSize, Stride(valueSize, align), before), SCANNED) == SCANNED
  {
    AllFreeAt(count, valueSize, Stride(valueSize, align));
  }

  lemma AllFreeAt(count: nat, valueSize: nat, stride: nat)
    requires count >= SCANNED
    ensures count * valueSize >= 7 * stride + 4
       <==> forall before: seq<U32> :: |before| == count ==>
              FreeAmong(InitialTags(count, valueSize, stride, before), SCANNED) == SCANNED
  {
    if count * valueSize >= 7 * stride + 4 {
      forall before: seq<U32> | |before| == count
        ensures FreeAmong(InitialTags(count, valueSize, stride, before), SCANNED) == SCANNED
      {
        var tags := InitialTags(count, valueSize, stride, before);
        forall i | 0 <= i < SCANNED
          ensures tags[i] == FREE
        {
          assert i * stride <= 7 * stride;
          assert ClearedBytes(count, valueSize, stride, i) == 4;
        }
        FreeAll(tags, SCANNED);
      }
    } else {
      var ones: seq<U32> := seq(count, _ => TAKEN);
      var tags := InitialTags(count, valueSize, stride, ones);
      assert ClearedBytes(count, valueSize, stride, 7) < 4;
      assert tags[7] != FREE;
      FreeBound(tags, 7);
      assert FreeAmong(tags, SCANNED) < SCANNED;
    }
  }

  lemma {:induction false} FreeAll(tags: seq<U32>, n: nat)
    requires n <= |tags| && forall i :: 0 <= i < n ==> tags[i] == FREE
    ensures FreeAmong(tags, n) == n
  {
    if n > 0 {
      FreeAll(tags, n - 1);
    }
  }

  lemma {:induction false} FreeBound(tags: seq<U32>, n: nat)
    requires n <= |tags|
    ensures FreeAmong(tags, n) <= n
    ensures FreeAmong(tags, n) == 0 <==> forall i :: 0 <= i < n ==> tags[i] != FREE
  {
    if n > 0 {
      FreeBound(tags, n - 1);
    }
  }

  /** Changing one tag changes the number of free slots by at most that slot. */
  lemma {:induction false} FreeUpdate(tags: seq<U32>, n: nat, slot: nat, tag: U32)
    requires slot < n <= |tags|
    ensures FreeAmong(tags[slot := tag], n)
         == FreeAmong(tags, n) - (if tags[slot] == FREE then 1 else 0) + (if tag == FREE then 1 else 0)
  {
    if slot == n - 1 {
      FreeSame(tags, tags[slot := tag], n - 1);
    } else {
      FreeUpdate(tags, n - 1, slot, tag);
    }
  }

  lemma {:induction false} FreeSame(tags: seq<U32>, other: seq<U32>, n: nat)
    requires n <= |tags| && n <= |other| && forall i :: 0 <= i < n ==> tags[i] == other[i]
    ensures FreeAmong(tags, n) == FreeAmong(other, n)
  {
    if n > 0 {
      FreeSame(tags, other, n - 1);
    }
  }

  /** The values in a list of slots. */
  function Values<T>(values: seq<T>, slots: seq<nat>, zero: T): (s: seq<T>)
    ensures |s| == |slots|
  {
    if slots == [] then []
    else [if slots[0] < |values| then values[slots[0]] else zero] + Values(values, slots[1..], zero)
  }

  lemma {:induction false} ValuesAppend<T>(values: seq<T>, slots: seq<nat>, zero: T, slot: nat, v: T)
    requires slot < |values| && slot !in slots
    ensures Values(values[slot := v], slots + [slot], zero) == Values(values, slots, zero) + [v]
    ensures Values(values[slot := v], slots, zero) == Values(values, slots, zero)
  {
    if slots == [] {
      assert slots + [slot] == [slot];
    } else {
      ValuesAppend(values, slots[1..], zero, slot, v);
      assert slots[0] != slot;
      assert (slots + [slot])[1..] == slots[1..] + [slot];
    }
  }

  /** The queued slots are among the first eight, tagged as taken, and pairwise different. */
  predicate InFlight(tags: seq<U32>, queue: seq<nat>)
    requires SCANNED <= |tags|
  {
    queue == [] ||
    (queue[0] < SCANNED && tags[queue[0]] == TAKEN && queue[0] !in queue[1..] && InFlight(tags, queue[1..]))
  }

  lemma {:induction false} InFlightRange(tags: seq<U32>, queue: seq<nat>)
    requires SCANNED <= |tags| && InFlight(tags, queue)
    ensures forall k :: 0 <= k < |queue| ==> queue[k] < SCANNED && tags[queue[k]] == TAKEN
  {
    if queue != [] {
      InFlightRange(tags, queue[1..]);
      assert forall k :: 1 <= k < |queue| ==> queue[k] == queue[1..][k - 1];
    }
  }

  lemma {:induction false} InFlightAppend(tags: seq<U32>, queue: seq<nat>, slot: nat)
    requires SCANNED <= |tags| && InFlight(tags, queue)
    requires slot < SCANNED && tags[slot] == FREE
    ensures InFlight(tags[slot := TAKEN], queue + [slot])
    ensures slot !in queue
  {
    if queue == [] {
      assert queue + [slot] == [slot];
    } else {
      InFlightAppend(tags, queue[1..], slot);
      assert queue == [queue[0]] + queue[1..];
      assert (queue + [slot])[1..] == queue[1..] + [slot];
    }
  }

  lemma {:induction false} InFlightRelease(tags: seq<U32>, queue: seq<nat>, slot: nat)
    requires SCANNED <= |tags| && InFlight(tags, queue) && slot !in queue && slot < |tags|
    ensures InFlight(tags[slot := FREE], queue)
  {
    if queue != [] {
      assert queue[0] != slot;
      assert slot !in queue[1..];
      InFlightRelease(tags, queue[1..], slot);
    }
  }

  class Pool<T(==)> {
    const count: nat
    /** The all-zero value that memset leaves behind. */
    const zero: T
    // mBuffer: the tags and the values of its entries
    var taken: array<U32>
    var value: array<T>
    /** The OSMessageQueue: slots in the order they were sent, at most `count` of them. */
    var queue: seq<nat>

    /** The bytes of mBuffer. */
    ghost var tags: seq<U32>
    ghost var values: seq<T>
    /** Everything ever sent and accepted, everything ever received: by Valid() the second is a
        prefix of the first, and the rest waits in the queue. */
    ghost var sent: seq<T>
    ghost var received: seq<T>
    /** Free slots among the first eight right after construction. */
    ghost const initiallyFree: nat

    ghost predicate Valid()
      reads this, taken, value
    {
      taken as object != value
      && tags == taken[..] && values == value[..]
      && |tags| == count && |values| == count
      && SCANNED <= count
      && InFlight(tags, queue)
      && FreeAmong(tags, SCANNED) + |queue| == initiallyFree
      && initiallyFree <= SCANNED
      && sent == received + Values(values, queue, zero)
    }

    constructor (count: nat, valueSize: nat, align: nat, zero: T, before: seq<U32>, values: seq<T>)
      requires SCANNED <= count && |before| == count && |values| == count
      requires align == 1 || align == 2 || align == 4 || align == 8
      ensures Valid() && fresh(taken) && fresh(value)
      ensures this.count == count && this.zero == zero
      ensures queue == [] && sent == [] && received == []
      ensures initiallyFree == FreeAmong(InitialTags(count, valueSize, Stride(valueSize, align), before), SCANNED)
    {
      this.count, this.zero := count, zero;
      var all := InitialTags(count, valueSize, Stride(valueSize, align), before);
      taken := new U32[count](i requires 0 <= i < count => all[i]);
      value := new T[count](i requires 0 <= i < count => values[i]);
      queue := [];
      sent, received := [], [];
      tags, this.values := all, values;
      initiallyFree := FreeAmong(all, SCANNED);
      FreeBound(all, SCANNED);
      new;
      assert taken[..] == tags;
      assert value[..] == this.values;
    }

    /** OSSendMessage without blocking. */
    method QueueSend(slot: nat) returns (ok: bool)
      modifies this`queue
      ensures ok <==> |old(queue)| < count
      ensures queue == if ok then old(queue) + [slot] else old(queue)
    {
      if count <= |queue| {
        return false;
      }
      queue := queue + [slot];
      return true;
    }

    /** OSReceiveMessage without blocking. */
    method QueueReceive() returns (ok: bool, slot: nat)
      modifies this`queue
      ensures ok <==> old(queue) != []
      ensures ok ==> slot == old(queue)[0] && queue == old(queue)[1..]
      ensures !ok ==> queue == old(queue)
    {
      if queue == [] {
        return false, 0;
      }
      slot, queue := queue[0], queue[1..];
      ok := true;
    }

    method SendTypedMessage(data: T) returns (accepted: bool)
      requires Valid()
      modifies this, taken, value
      ensures Valid() && taken == old(taken) && value == old(value)
      ensures accepted <==> old(FreeAmong(tags, SCANNED)) > 0
      ensures accepted <==> |old(queue)| < initiallyFree
      ensures received == old(received)
      ensures sent == if accepted then old(sent) + [data] else old(sent)
    {
      accepted := false;
      var i := 0;
      while i < SCANNED
        invariant 0 <= i <= SCANNED
        invariant forall k :: 0 <= k < i ==> tags[k] != FREE
      {
        if taken[i] == FREE {
          break;
        }
        i := i + 1;
      }
      FreeBound(tags, SCANNED);
      if i != SCANNED {
        FreeUpdate(tags, SCANNED, i, TAKEN);
        InFlightAppend(tags, queue, i);
        ValuesAppend(values, queue, zero, i, data);
        taken[i] := TAKEN;
        value[i] := data;
        tags, values := tags[i := TAKEN], values[i := data];
        assert tags == taken[..] && values == value[..];
        var queued := QueueSend(i);
        assert queued;
        sent := sent + [data];
        accepted := true;
      }
    }

    /** `error` is set where the source reports "ERROR?". */
    method TryReceiveTypedMessage() returns (ok: bool, data: T, error: bool)
      requires Valid()
      modifies this, taken, value
      ensures Valid() && taken == old(taken) && value == old(value)
      ensures !error
      ensures ok <==> |old(queue)| > 0
      ensures sent == old(sent)
      ensures received == if ok then old(received) + [data] else old(received)
      ensures ok ==> data == old(sent)[|old(received)|]
    {
      error := false;
      data := zero;
      var slot;
      InFlightRange(tags, queue);
      ok, slot := QueueReceive();
      if ok {
        if taken[slot] != TAKEN {
          error := true;
        }
        data := value[slot];
        FreeUpdate(tags, SCANNED, slot, FREE);
        InFlightRelease(tags, queue, slot);
        ValuesAppend(values, queue, zero, slot, zero);
        taken[slot] := FREE;
        value[slot] := zero;
        tags, values := tags[slot := FREE], values[slot := zero];
        assert tags == taken[..] && values == value[..];
        received := received + [data];
      }
    }
  }
}
