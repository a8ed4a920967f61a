/** The wave buffer of src/bannerSound/AudioWavePlayer.cpp: three packets with a lane of samples for
    each channel. */
module WaveLanes {
  import opened Bytes
  import Arithmetic

  /** One sample for each channel. */
  type Frame = seq<U16>

  /** Samples between the buffers of two packets, and in all of wsize bytes. */
  const PACKET_SAMPLES := 0x400
  const BUFFER_SAMPLES := 0x1800

  /** Addresses are sample offsets into the wave buffer, the size is in bytes. */
  datatype Packet = Packet(channelCount: nat, bufferAddress: seq<nat>, bufferSize: nat)

  /** The quotient of unsigned numbers. */
  function Quotient(a: nat, m: nat): (q: int)
    requires m > 0
    ensures q >= 0 && m * q <= a < m * q + m
  {
    Arithmetic.Floor(a, m);
    a / m
  }

  /** Where the lane of channel j of packet i starts, and how many samples it holds. */
  function LaneStart(i: nat, j: nat, channels: nat): nat
    requires channels > 0
  {
    PACKET_SAMPLES * i + Quotient(j * 0x800, channels * 2)
  }

  function LaneLength(channels: nat): nat
    requires channels > 0
  {
    Quotient(0x800, channels * 2)
  }

  function PacketOf(i: nat, channels: nat): Packet
    requires channels > 0
  {
    Packet(channels, seq(channels, j requires 0 <= j < channels => LaneStart(i, j, channels)), LaneLength(channels) * 2)
  }

  /** The lanes of a packet are as long as fits: sizes are in bytes, two for each sample. */
  lemma LanesFill(i: nat, channels: nat)
    requires channels > 0
    ensures var packet := PacketOf(i, channels);
            && |packet.bufferAddress| == channels == packet.channelCount
            && packet.bufferSize % 2 == 0 && packet.bufferSize / 2 == LaneLength(channels)
            && channels * packet.bufferSize <= 2 * PACKET_SAMPLES < channels * (packet.bufferSize + 2)
  {
    var length := LaneLength(channels);
    assert channels * 2 * length == channels * (length * 2);
    assert channels * 2 * length + channels * 2 == channels * (length * 2 + 2);
  }

  /** For any number of channels, a lane ends before the next one of its packet starts and inside
      its packet. */
  lemma LaneFits(i: nat, j: nat, j': nat, channels: nat)
    requires j < channels
    ensures j < j' ==> LaneStart(i, j, channels) + LaneLength(channels) <= LaneStart(i, j', channels)
    ensures PACKET_SAMPLES * i <= LaneStart(i, j, channels)
    ensures LaneStart(i, j, channels) + LaneLength(channels) <= PACKET_SAMPLES * (i + 1)
  {
    var m := channels * 2;
    if j < j' {
      QuotientsAdd(j * 0x800, 0x800, j' * 0x800, m);
    }
    QuotientsAdd(j * 0x800, 0x800, m * 0x400, m);
    WholeQuotient(0x400, m);
  }

  lemma WholeQuotient(q: nat, m: nat)
    requires m > 0
    ensures Quotient(m * q, m) == q
  {
    Arithmetic.ModUnique(m * q, m, q, 0);
  }

  lemma QuotientsAdd(a: nat, b: nat, c: nat, m: nat)
    requires m > 0 && a + b <= c
    ensures Quotient(a, m) + Quotient(b, m) <= Quotient(c, m)
  {
    var x, y, q := Quotient(a, m), Quotient(b, m), Quotient(c, m);
    Arithmetic.Scaled(m, x + y - q);
    Arithmetic.Distributes(m, x, y, q);
  }

  /** The 3 x channels lanes are pairwise disjoint and lie inside the wave buffer. */
  lemma LanesDisjoint(i: nat, j: nat, i': nat, j': nat, channels: nat)
    requires j < channels && j' < channels && i < 3 && i' < 3 && (i, j) != (i', j')
    ensures LaneStart(i, j, channels) + LaneLength(channels) <= LaneStart(i', j', channels)
         || LaneStart(i', j', channels) + LaneLength(channels) <= LaneStart(i, j, channels)
    ensures LaneStart(i, j, channels) + LaneLength(channels) <= BUFFER_SAMPLES
  {
    LaneFits(i, j, j', channels);
    LaneFits(i', j', j, channels);
  }

  // ---------------------------------------------------------------- what the lanes hold

  /** From `start` on, the wave buffer holds channel j of these frames. */
  ghost predicate LaneHolds(wave: seq<U16>, start: nat, frames: seq<Frame>, j: nat) {
    start + |frames| <= |wave|
    && forall k :: 0 <= k < |frames| ==> |frames[k]| > j && wave[start + k] == frames[k][j]
  }

  ghost predicate InLane(x: nat, lanes: seq<nat>, length: nat) {
    lanes != [] && (lanes[0] <= x < lanes[0] + length || InLane(x, lanes[1..], length))
  }

  lemma {:induction false} LaneAt(x: nat, lanes: seq<nat>, length: nat, j: nat)
    requires j < |lanes| && lanes[j] <= x < lanes[j] + length
    ensures InLane(x, lanes, length)
  {
    if j > 0 {
      LaneAt(x, lanes[1..], length, j - 1);
    }
  }

  lemma {:induction false} LaneGrows(x: nat, lanes: seq<nat>, length: nat)
    ensures InLane(x, lanes, length) ==> InLane(x, lanes, length + 1)
  {
    if lanes != [] {
      LaneGrows(x, lanes[1..], length);
    }
  }

  /** An index that is in none of the lanes. */
  lemma {:induction false} LaneMissed(x: nat, lanes: seq<nat>, length: nat)
    requires forall j :: 0 <= j < |lanes| ==> !(lanes[j] <= x < lanes[j] + length)
    ensures !InLane(x, lanes, length)
  {
    if lanes != [] {
      LaneMissed(x, lanes[1..], length);
    }
  }

  /** Outside these lanes nothing has changed. */
  ghost predicate Untouched(before: seq<U16>, now: seq<U16>, lanes: seq<nat>, length: nat) {
    |before| == |now| && forall x :: 0 <= x < |now| && !InLane(x, lanes, length) ==> now[x] == before[x]
  }

  /** The wave buffer with sample i of the first n lanes replaced by the samples of a frame. */
  ghost function Placed(wave: seq<U16>, lanes: seq<nat>, i: nat, frame: Frame, n: nat): (r: seq<U16>)
    requires n <= |lanes| == |frame| && forall j :: 0 <= j < |lanes| ==> lanes[j] + i < |wave|
    ensures |r| == |wave|
  {
    if n == 0 then wave else Placed(wave, lanes, i, frame, n - 1)[lanes[n - 1] + i := frame[n - 1]]
  }

  /** The wave buffer after the first frames of packet p have been written. */
  ghost predicate Filled(before: seq<U16>, now: seq<U16>, p: nat, channels: int, frames: seq<Frame>)
    requires channels > 0
  {
    Untouched(before, now, PacketOf(p, channels).bufferAddress, |frames|)
    && forall j :: 0 <= j < channels ==> LaneHolds(now, LaneStart(p, j, channels), frames, j)
  }

  lemma LanesInside(p: nat, channels: int, i: nat)
    requires channels > 0 && p < 3 && i < LaneLength(channels)
    ensures forall j :: 0 <= j < channels ==> PacketOf(p, channels).bufferAddress[j] + i < BUFFER_SAMPLES
  {
    forall j | 0 <= j < channels
      ensures LaneStart(p, j, channels) + i < BUFFER_SAMPLES
    {
      LaneFits(p, j, j, channels);
    }
  }

  lemma FilledNothing(wave: seq<U16>, p: nat, channels: int)
    requires channels > 0 && p < 3 && |wave| >= BUFFER_SAMPLES
    ensures Filled(wave, wave, p, channels, [])
  {
    forall j | 0 <= j < channels
      ensures LaneHolds(wave, LaneStart(p, j, channels), [], j)
    {
      LaneFits(p, j, j, channels);
    }
  }

  lemma {:induction false} FilledFurther(before: seq<U16>, now: seq<U16>, p: nat, channels: int, frames: seq<Frame>, frame: Frame)
    requires 1 <= channels <= 2 && |frame| == channels && p < 3 && |now| >= BUFFER_SAMPLES && |frames| < LaneLength(channels)
    requires Filled(before, now, p, channels, frames)
    requires forall j :: 0 <= j < channels ==> PacketOf(p, channels).bufferAddress[j] + |frames| < |now|
    ensures Filled(before, Placed(now, PacketOf(p, channels).bufferAddress, |frames|, frame, channels), p, channels, frames + [frame])
  {
    LaneFits(p, 0, 1, channels);
    LanesFurther(before, now, PacketOf(p, channels).bufferAddress, frames, frame);
  }

  lemma LanesFurther(before: seq<U16>, now: seq<U16>, lanes: seq<nat>, frames: seq<Frame>, frame: Frame)
    requires 1 <= |lanes| == |frame| <= 2 && (|lanes| == 2 ==> lanes[0] + |frames| < lanes[1])
    requires forall j :: 0 <= j < |lanes| ==> lanes[j] + |frames| < |now|
    requires Untouched(before, now, lanes, |frames|)
    requires forall j :: 0 <= j < |lanes| ==> LaneHolds(now, lanes[j], frames, j)
    ensures var next := Placed(now, lanes, |frames|, frame, |lanes|);
            && Untouched(before, next, lanes, |frames + [frame]|)
            && forall j :: 0 <= j < |lanes| ==> LaneHolds(next, lanes[j], frames + [frame], j)
  {
    PlacedOutside(now, lanes, |frames|, frame, |lanes|);
    UntouchedFurther(before, now, Placed(now, lanes, |frames|, frame, |lanes|), lanes, |frames|);
    forall j | 0 <= j < |lanes|
      ensures LaneHolds(Placed(now, lanes, |frames|, frame, |lanes|), lanes[j], frames + [frame], j)
    {
      LaneFurther(now, lanes, |frames|, frames, frame, j);
    }
  }

  lemma {:induction false} PlacedOutside(wave: seq<U16>, lanes: seq<nat>, i: nat, frame: Frame, n: nat)
    requires n <= |lanes| == |frame| && forall j :: 0 <= j < |lanes| ==> lanes[j] + i < |wave|
    ensures forall x :: 0 <= x < |wave| && !InLane(x, lanes, i + 1) ==> Placed(wave, lanes, i, frame, n)[x] == wave[x]
    decreases n
  {
    if n > 0 {
      PlacedOutside(wave, lanes, i, frame, n - 1);
      LaneAt(lanes[n - 1] + i, lanes, i + 1, n - 1);
    }
  }

  lemma LaneFurther(now: seq<U16>, lanes: seq<nat>, n: nat, frames: seq<Frame>, frame: Frame, j: nat)
    requires |frames| == n && 1 <= |lanes| == |frame| <= 2 && j < |lanes|
    requires forall k :: 0 <= k < |lanes| ==> lanes[k] + n < |now|
    requires |lanes| == 2 ==> lanes[0] + n < lanes[1]
    requires LaneHolds(now, lanes[j], frames, j)
    ensures LaneHolds(Placed(now, lanes, n, frame, |lanes|), lanes[j], frames + [frame], j)
  {
    var first := Placed(now, lanes, n, frame, 1);
    assert Placed(now, lanes, n, frame, 0) == now && first == now[lanes[0] + n := frame[0]];
    if |lanes| == 2 {
      assert Placed(now, lanes, n, frame, 2) == first[lanes[1] + n := frame[1]];
    }
  }

  lemma UntouchedFurther(before: seq<U16>, now: seq<U16>, next: seq<U16>, lanes: seq<nat>, n: nat)
    requires Untouched(before, now, lanes, n) && |next| == |now|
    requires forall x :: 0 <= x < |now| && !InLane(x, lanes, n + 1) ==> next[x] == now[x]
    ensures Untouched(before, next, lanes, n + 1)
  {
    forall x | 0 <= x < |now| && !InLane(x, lanes, n + 1)
      ensures next[x] == before[x]
    {
      LaneGrows(x, lanes, n);
    }
  }

  /** Filling one packet leaves the lanes of the others alone. */
  lemma OthersKept(before: seq<U16>, now: seq<U16>, p: nat, channels: int, frames: seq<Frame>,
                                      k: nat, j: nat, part: seq<Frame>)
    requires channels > 0 && p < 3 && k < 3 && k != p && j < channels
    requires |frames| <= LaneLength(channels) && |part| <= LaneLength(channels)
    ensures Filled(before, now, p, channels, frames) && LaneHolds(before, LaneStart(k, j, channels), part, j)
        ==> LaneHolds(now, LaneStart(k, j, channels), part, j)
  {
    var start := LaneStart(k, j, channels);
    LaneFits(k, j, j, channels);
    if Filled(before, now, p, channels, frames) && LaneHolds(before, start, part, j) {
      forall n | 0 <= n < |part|
        ensures now[start + n] == part[n][j]
      {
        NotInLanes(k, j, n, p, channels, |frames|);
      }
    }
  }

  lemma NotInLanes(k: nat, j: nat, n: nat, p: nat, channels: int, length: nat)
    requires channels > 0 && p < 3 && k < 3 && k != p && j < channels
    requires n < LaneLength(channels) && length <= LaneLength(channels)
    ensures !InLane(LaneStart(k, j, channels) + n, PacketOf(p, channels).bufferAddress, length)
  {
    var x, lanes := LaneStart(k, j, channels) + n, PacketOf(p, channels).bufferAddress;
    forall j' | 0 <= j' < |lanes|
      ensures !(lanes[j'] <= x < lanes[j'] + length)
    {
      LanesDisjoint(k, j, p, j', channels);
    }
    LaneMissed(x, lanes, length);
  }

  /** No later packet of the list is the i-th one again. */
  predicate Latest(packets: seq<nat>, i: nat)
    requires i < |packets|
  {
    forall k :: i < k < |packets| ==> packets[k] != packets[i]
  }

  /** Packets have been filled in this order, each with its part: the lanes of each hold the part
      it got last. */
  ghost predicate PartsHeld(wave: seq<U16>, channels: int, packets: seq<nat>, parts: seq<seq<Frame>>)
    requires channels > 0
  {
    |packets| == |parts|
    && (forall i :: 0 <= i < |parts| ==> packets[i] < 3 && |parts[i]| <= LaneLength(channels))
    && (forall i, j :: 0 <= i < |parts| && 0 <= j < channels && Latest(packets, i) ==>
          LaneHolds(wave, LaneStart(packets[i], j, channels), parts[i], j))
  }

  lemma PartsHeldNext(before: seq<U16>, now: seq<U16>, channels: int, packets: seq<nat>,
                                         parts: seq<seq<Frame>>, p: nat, next: seq<Frame>)
    requires channels > 0 && p < 3 && |next| <= LaneLength(channels)
    requires PartsHeld(before, channels, packets, parts) && Filled(before, now, p, channels, next)
    ensures PartsHeld(now, channels, packets + [p], parts + [next])
  {
    forall i, j | 0 <= i < |parts| && 0 <= j < channels && Latest(packets + [p], i)
      ensures LaneHolds(now, LaneStart(packets[i], j, channels), parts[i], j)
    {
      LatestBefore(packets, p, i);
      OthersKept(before, now, p, channels, next, packets[i], j, parts[i]);
    }
  }

  lemma LatestBefore(packets: seq<nat>, p: nat, i: nat)
    requires i < |packets| && Latest(packets + [p], i)
    ensures Latest(packets, i) && packets[i] != p
  {
    assert (packets + [p])[|packets|] == p;
    forall k | i < k < |packets|
      ensures packets[k] != packets[i]
    {
      assert (packets + [p])[k] == packets[k];
    }
  }
}
