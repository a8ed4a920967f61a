/** SimpleWavePlayer of src/bannerSound/AudioWavePlayer.cpp: packets of a wave buffer are filled
    with the frames of a sound file, once or round a loop. */
module WavePlayer {
  import opened Bytes
  import opened ChunkReader
  import opened WaveFile
  import opened WaveLanes
  import opened PlayingHead
  import Arithmetic

  // ---------------------------------------------------------------- what a player delivers

  /** The file in memory that a player plays. */
  datatype Source = Source(mem: Memory, kind: Kind, format: Format) {

    /** The samples at a frame's address, even in front of the data start. */
    function FrameAt(k: int): (frame: Frame) {
      var first := Samples(format.channels, k);
      if format.channels == 1 then [SampleOf(mem, kind, format.data, first)]
      else [SampleOf(mem, kind, format.data, first), SampleOf(mem, kind, format.data, first + 1)]
    }

    /** These samples have been written into the file, channel by channel and frame by frame. */
    predicate Records(samples: seq<U16>) {
      Recorded(mem, kind, format.data, samples) && |samples| == format.frames * format.channels
    }

    /** The head after n frames. */
    function HeadAfter(h: Head, n: nat): Head {
      Steps(format, h, n)
    }

    /** What a player standing at h delivers as its n-th frame from there. Where nothing is read,
        nothing is promised. */
    predicate Plays(h: Head, n: nat, frame: Frame) {
      |frame| == format.channels
      && (Reads(format, HeadAfter(h, n).pos) ==> frame == FrameAt(HeadAfter(h, n).pos))
    }
  }

  /** The frame's channels are the p-th group of these samples. */
  predicate IsFrame(frame: Frame, samples: seq<U16>, channels: int, p: int) {
    |frame| == channels
    && forall j :: 0 <= j < channels ==> 0 <= p * channels + j < |samples| && frame[j] == samples[p * channels + j]
  }

  /** The frame at the address of frame p is the p-th of the samples that were written. */
  lemma FrameRecorded(source: Source, samples: seq<U16>, p: nat)
    requires source.Records(samples) && 1 <= source.format.channels <= 2 && p < source.format.frames
    ensures IsFrame(source.FrameAt(p), samples, source.format.channels, p)
  {
    var channels := source.format.channels;
    SampleCount(channels, source.format.frames);
    SampleCount(channels, p);
    SampleRecorded(source.mem, source.kind, source.format.data, samples, p * channels);
    SampleRecorded(source.mem, source.kind, source.format.data, samples, p * channels + channels - 1);
  }

  /** A frame is the p-th of whatever samples were written into the file. */
  ghost predicate ShowsWritten(source: Source, frame: Frame, p: int) {
    forall samples: seq<U16> :: source.Records(samples) ==> IsFrame(frame, samples, source.format.channels, p)
  }

  lemma FrameShows(source: Source, p: nat)
    requires 1 <= source.format.channels <= 2 && p < source.format.frames
    ensures ShowsWritten(source, source.FrameAt(p), p)
  {
    forall samples: seq<U16> | source.Records(samples)
      ensures IsFrame(source.FrameAt(p), samples, source.format.channels, p)
    {
      FrameRecorded(source, samples, p);
    }
  }

  /** These frames are what a player standing at h delivers. */
  ghost predicate Run(source: Source, h: Head, frames: seq<Frame>) {
    forall n :: 0 <= n < |frames| ==> source.Plays(h, n, frames[n])
  }

  /** Where nothing is read, the frame before is delivered again. */
  ghost predicate Repeats(source: Source, h: Head, frames: seq<Frame>) {
    forall n :: 0 < n < |frames| && !Reads(source.format, source.HeadAfter(h, n).pos) ==> frames[n] == frames[n - 1]
  }

  lemma RunFurther(source: Source, h: Head, frames: seq<Frame>, frame: Frame)
    requires Run(source, h, frames) && source.Plays(h, |frames|, frame)
    ensures Run(source, h, frames + [frame])
  {
  }

  lemma RepeatsFurther(source: Source, h: Head, frames: seq<Frame>, frame: Frame)
    requires Repeats(source, h, frames)
    requires frames != [] && !Reads(source.format, source.HeadAfter(h, |frames|).pos) ==> frame == frames[|frames| - 1]
    ensures Repeats(source, h, frames + [frame])
  {
  }

  /** Deliveries follow each other: one run, whatever packets it came in. */
  lemma RunOn(source: Source, h: Head, first: seq<Frame>, second: seq<Frame>)
    requires Run(source, h, first) && Run(source, source.HeadAfter(h, |first|), second)
    ensures Run(source, h, first + second)
    ensures source.HeadAfter(h, |first + second|) == source.HeadAfter(source.HeadAfter(h, |first|), |second|)
  {
    forall n | 0 <= n < |first + second|
      ensures source.Plays(h, n, (first + second)[n])
    {
      if n >= |first| {
        StepsAdd(source.format, h, |first|, n - |first|);
      }
    }
    StepsAdd(source.format, h, |first|, |second|);
  }

  /** Looped playback from the start of the file is exactly periodic: frame n of any run is the
      file's frame n before the loop end and goes round the loop from there on. */
  lemma LoopedPlayback(source: Source, frames: seq<Frame>, n: nat)
    requires PlayableFormat(source.format) && source.format.loop.Loop?
    requires Run(source, Head(0, 0), frames) && n < |frames|
    ensures var s, e := source.format.loop.start, source.format.loop.end;
            && frames[n] == source.FrameAt(if n < e then n else s + (n - s) % (e - s))
            && ShowsWritten(source, frames[n], if n < e then n else s + (n - s) % (e - s))
  {
    LoopedRun(source.format, n);
    InsideReads(source.format, Position(n, source.format.frames, source.format.loop));
    FrameShows(source, Position(n, source.format.frames, source.format.loop));
    assert source.Plays(Head(0, 0), n, frames[n]);
  }

  /** And of every accepted loop, whatever the sign of its bounds: up to the first jump the file,
      as far as it goes; from there on what lies at the jump's target and behind it, with the
      period of the jumps. */
  lemma AllowedPlayback(source: Source, frames: seq<Frame>, n: nat)
    requires AllowedLoop(source.format) && Run(source, Head(0, 0), frames) && n < |frames|
    ensures var f := source.format;
            var first, m := FirstJump(f.loop), (n - FirstJump(f.loop)) % JumpPeriod(f.loop);
            var k := if n < first then n else Roll(f, JumpFrame(f.loop.start, f.channels), m);
            (if n < first then n < f.frames ==> frames[n] == source.FrameAt(n)
             else Reads(f, k) ==> frames[n] == source.FrameAt(k))
            && (0 <= k < f.frames ==> ShowsWritten(source, frames[n], k))
  {
    AllowedRun(source.format, n);
    assert source.Plays(Head(0, 0), n, frames[n]);
    var f := source.format;
    var k := if n < FirstJump(f.loop) then n
             else Roll(f, JumpFrame(f.loop.start, f.channels), (n - FirstJump(f.loop)) % JumpPeriod(f.loop));
    if 0 <= k < f.frames {
      InsideReads(f, k);
      FrameShows(source, k);
    }
  }

  /** Without a loop a run from frame p on delivers each frame once and in order. */
  lemma OneShotPlayback(source: Source, p: nat, frames: seq<Frame>, n: nat)
    requires PlayableFormat(source.format) && source.format.loop == NoLoop
    requires Run(source, Head(0, p), frames) && n < |frames| && p + |frames| <= source.format.frames
    ensures frames[n] == source.FrameAt(p + n) && ShowsWritten(source, frames[n], p + n)
  {
    OneShotRun(source.format, p, n);
    InsideReads(source.format, p + n);
    FrameShows(source, p + n);
    assert source.Plays(Head(0, p), n, frames[n]);
  }

  // ---------------------------------------------------------------- packets

  function Joined(parts: seq<seq<Frame>>): seq<Frame> {
    if parts == [] then [] else Joined(parts[..|parts| - 1]) + parts[|parts| - 1]
  }

  lemma JoinedNext(parts: seq<seq<Frame>>, part: seq<Frame>)
    ensures Joined(parts + [part]) == Joined(parts) + part
  {
    assert (parts + [part])[..|parts|] == parts;
  }

  /** Over any number of packets looped playback is periodic, across packet borders too. */
  lemma PacketsPlayTheLoop(source: Source, packets: seq<nat>, parts: seq<seq<Frame>>, wave: seq<U16>, h: Head,
                                              starved: int, n: nat)
    requires PlayableFormat(source.format) && source.format.loop.Loop?
    requires Given(source, Head(0, 0), packets, parts, wave, h, starved) && n < |Joined(parts)|
    ensures var s, e := source.format.loop.start, source.format.loop.end;
            && Joined(parts)[n] == source.FrameAt(if n < e then n else s + (n - s) % (e - s))
            && ShowsWritten(source, Joined(parts)[n], if n < e then n else s + (n - s) % (e - s))
    ensures starved == 0
  {
    LoopedPlayback(source, Joined(parts), n);
  }

  /** And without a loop the packets together are the file's frames, once and in order, and all of
      them if they were enough. */
  lemma {:induction false} PacketsPlayOnce(source: Source, packets: seq<nat>, parts: seq<seq<Frame>>, wave: seq<U16>, h: Head,
                                           starved: int, n: nat)
    requires PlayableFormat(source.format) && source.format.loop == NoLoop
    requires Given(source, Head(0, 0), packets, parts, wave, h, starved)
    ensures |Joined(parts)| == Taken(Sum(Capacities(source.format, |parts|)), source.format.frames)
    ensures n < |Joined(parts)| ==> Joined(parts)[n] == source.FrameAt(n) && ShowsWritten(source, Joined(parts)[n], n)
  {
    PlayedTotal(source.format.frames, 0, Capacities(source.format, |parts|));
    if n < |Joined(parts)| {
      OneShotPlayback(source, 0, Joined(parts), n);
    }
  }

  function Sum(capacities: seq<nat>): nat {
    if capacities == [] then 0 else Sum(capacities[..|capacities| - 1]) + capacities[|capacities| - 1]
  }

  function Taken(capacity: nat, remaining: nat): nat {
    if capacity > remaining then remaining else capacity
  }

  /** The frames played and the starved calls after packets of these capacities. */
  function Calls(frames: nat, at: nat, capacities: seq<nat>): (r: (nat, nat))
    requires at <= frames
    ensures r.0 <= frames
    decreases |capacities|
  {
    if capacities == [] then (at, 0)
    else
      var n := |capacities| - 1;
      var (played, starved) := Calls(frames, at, capacities[..n]);
      (played + Taken(capacities[n], frames - played), if played == frames then starved + 1 else starved)
  }

  /** The frames played are as many as there are or as many as fit. */
  lemma {:induction false} PlayedTotal(frames: nat, at: nat, capacities: seq<nat>)
    requires at <= frames
    ensures Calls(frames, at, capacities).0 == at + Taken(Sum(capacities), frames - at)
    decreases |capacities|
  {
    if capacities != [] {
      PlayedTotal(frames, at, capacities[..|capacities| - 1]);
    }
  }

  /** The starved calls are all those from the first one that finds nothing left. */
  lemma {:induction false} StarvedExact(frames: nat, at: nat, capacities: seq<nat>, i: nat)
    requires at <= frames && i <= |capacities|
    requires forall k :: 0 <= k <= |capacities| ==> (at + Sum(capacities[..k]) >= frames <==> k >= i)
    ensures Calls(frames, at, capacities).1 == |capacities| - i
    decreases |capacities|
  {
    if capacities != [] {
      var n := |capacities| - 1;
      var rest := capacities[..n];
      assert forall k :: 0 <= k <= n ==> rest[..k] == capacities[..k];
      PlayedTotal(frames, at, rest);
      assert capacities[..n] == rest && rest[..n] == rest;
      if i <= n {
        StarvedExact(frames, at, rest, i);
      } else {
        NoneStarved(frames, at, rest);
      }
    }
  }

  lemma {:induction false} NoneStarved(frames: nat, at: nat, capacities: seq<nat>)
    requires at + Sum(capacities) < frames
    ensures Calls(frames, at, capacities).1 == 0
    decreases |capacities|
  {
    if capacities != [] {
      PlayedTotal(frames, at, capacities[..|capacities| - 1]);
      NoneStarved(frames, at, capacities[..|capacities| - 1]);
    }
  }

  /** The frames one call of MakeWave delivers from frame pos on. */
  function PacketFrames(f: Format, pos: int): (n: int)
    requires f.channels > 0
  {
    if f.loop.Loop? || LaneLength(f.channels) <= f.frames - pos then LaneLength(f.channels) else f.frames - pos
  }

  /** The frames that fit n packets. */
  function Capacities(f: Format, n: nat): seq<nat>
    requires f.channels > 0
  {
    seq(n, _ => LaneLength(f.channels))
  }

  /** The frames played and the starved calls after n packets of a file without a loop. */
  function Filling(f: Format, at: nat, n: nat): (nat, nat)
    requires f.channels > 0 && at <= f.frames
  {
    Calls(f.frames, at, Capacities(f, n))
  }

  lemma FillingNext(f: Format, at: nat, n: nat)
    requires f.channels > 0 && at <= f.frames
    ensures Filling(f, at, 0) == (at, 0)
    ensures var (played, starved) := Filling(f, at, n);
            && Filling(f, at, n + 1).0 == played + Taken(LaneLength(f.channels), f.frames - played)
            && Filling(f, at, n + 1).1 == if played == f.frames then starved + 1 else starved
  {
    assert Capacities(f, n + 1)[..n] == Capacities(f, n);
  }

  /** After the three packets of start(), a file without a loop has starved twice, which update()
      takes for the end of the sound, exactly when what was left is not nothing but one packet or
      less; with nothing left it has starved three times, which update() never takes for the end. */
  lemma StartStarves(f: Format, at: nat)
    requires 1 <= f.channels <= 2 && at <= f.frames
    ensures Filling(f, at, 3).1 == 2 <==> 0 < f.frames - at <= LaneLength(f.channels)
    ensures Filling(f, at, 3).1 == 3 <==> at == f.frames
  {
    FillingNext(f, at, 0);
    FillingNext(f, at, 1);
    FillingNext(f, at, 2);
  }

  /** The frames of n full packets. */
  function FullPackets(n: nat, length: nat): nat {
    if n == 0 then 0 else FullPackets(n - 1, length) + length
  }

  /** The frames delivered in n packets from frame p on, and the calls starved on the way. */
  ghost predicate Tallied(f: Format, p: int, n: nat, total: nat, pos: int, starved: int)
    requires f.channels > 0
  {
    if f.loop.Loop? then starved == 0 && total == FullPackets(n, LaneLength(f.channels))
    else 0 <= p <= f.frames && (pos, starved) == Filling(f, p, n) && total == pos - p
  }

  lemma TalliedNext(f: Format, p: int, n: nat, total: nat, pos: int, starved: int, more: nat)
    requires f.channels > 0 && Tallied(f, p, n, total, pos, starved)
    requires more == PacketFrames(f, pos)
    ensures Tallied(f, p, n + 1, total + more, pos + more, starved + if f.loop == NoLoop && pos == f.frames then 1 else 0)
  {
    if f.loop == NoLoop {
      FillingNext(f, p, n);
    }
  }

  /** What a player has done that stood at h0 and has filled these packets one after the other:
      the parts are one run, the wave buffer holds what each packet got last, and this many calls
      found nothing left. */
  ghost predicate Given(source: Source, h0: Head, packets: seq<nat>, parts: seq<seq<Frame>>, wave: seq<U16>, h: Head, starved: int) {
    1 <= source.format.channels <= 2
    && Run(source, h0, Joined(parts))
    && h == source.HeadAfter(h0, |Joined(parts)|)
    && PartsHeld(wave, source.format.channels, packets, parts)
    && Tallied(source.format, h0.pos, |parts|, |Joined(parts)|, h.pos, starved)
  }

  lemma GivenNothing(source: Source, h: Head, wave: seq<U16>)
    requires 1 <= source.format.channels <= 2 && (source.format.loop == NoLoop ==> 0 <= h.pos <= source.format.frames)
    ensures Given(source, h, [], [], wave, h, 0)
  {
    if source.format.loop == NoLoop {
      FillingNext(source.format, h.pos, 0);
    }
  }

  lemma GivenNext(source: Source, h0: Head, packets: seq<nat>, parts: seq<seq<Frame>>, before: seq<U16>, h: Head,
                                     starved: int, p: nat, next: seq<Frame>, now: seq<U16>)
    requires p < 3 && Fits(source.format) && Given(source, h0, packets, parts, before, h, starved)
    requires source.format.loop == NoLoop ==> h.pos <= source.format.frames
    requires Run(source, h, next) && |next| == PacketFrames(source.format, h.pos)
    requires Filled(before, now, p, source.format.channels, next)
    ensures var more := if source.format.loop == NoLoop && h.pos == source.format.frames then 1 else 0;
            Given(source, h0, packets + [p], parts + [next], now, source.HeadAfter(h, |next|), starved + more)
  {
    PartsHeldNext(before, now, source.format.channels, packets, parts, p, next);
    JoinedNext(parts, next);
    RunOn(source, h0, Joined(parts), next);
    TallyNext(source, h0, |parts|, |Joined(parts)|, h, starved, |next|);
  }

  lemma TallyNext(source: Source, h0: Head, n: nat, total: nat, h: Head, starved: int, more: nat)
    requires Fits(source.format) && (source.format.loop == NoLoop ==> h.pos <= source.format.frames)
    requires Tallied(source.format, h0.pos, n, total, h.pos, starved)
    requires more == PacketFrames(source.format, h.pos)
    ensures Tallied(source.format, h0.pos, n + 1, total + more, source.HeadAfter(h, more).pos,
                    starved + if source.format.loop == NoLoop && h.pos == source.format.frames then 1 else 0)
  {
    var f := source.format;
    TalliedNext(f, h0.pos, n, total, h.pos, starved, more);
    if f.loop == NoLoop {
      StraightOn(f, h, more);
    } else {
      TallyOfLoop(f, h0.pos, n, total, h.pos, starved, more, Steps(f, h, more).pos);
    }
  }

  /** With a loop the tally does not depend on where the cursor is. */
  lemma TallyOfLoop(f: Format, p: int, n: nat, total: nat, pos: int, starved: int, more: nat, pos': int)
    requires f.channels > 0 && f.loop.Loop?
    requires Tallied(f, p, n, total, pos, starved) && more == LaneLength(f.channels)
    ensures Tallied(f, p, n + 1, total + more, pos', starved)
  {
  }

  /** Without a loop the cursor moves one frame for each frame left. */
  lemma {:induction false} StraightOn(f: Format, h: Head, n: nat)
    requires Fits(f) && f.loop == NoLoop && 0 <= h.pos && h.pos + n <= f.frames
    ensures Steps(f, h, n).pos == h.pos + n
    decreases n
  {
    if n > 0 {
      StraightOn(f, h, n - 1);
      InsideReads(f, h.pos + n - 1);
    }
  }

  // ---------------------------------------------------------------- the player

  /** What a player has done since it stood at h0 with this count of starved calls: the packets it
      has filled, and what each of them got. */
  datatype Past = Past(h0: Head, starved: int, packets: seq<nat>, parts: seq<seq<Frame>>) {

    /** This past and these packets after it. */
    predicate Continues(past: Past, more: seq<nat>) {
      h0 == past.h0 && starved == past.starved && packets == past.packets + more && past.parts <= parts
    }
  }

  /** What happens to a player: a packet has been played or cancelled, the menu updates the player
      while the sound library holds these packets, or the worker thread receives a message. */
  datatype Event = Callback(finish: bool, i: nat) | Updating(appended: seq<bool>) | Message(i: nat)

  predicate ValidEvent(event: Event) {
    match event
    case Callback(_, i) => i < 3
    case Updating(appended) => |appended| == 3
    case Message(i) => i < 3
  }

  /** The packets an event makes a player fill. */
  function Asked(event: Event, thread: bool, inCallback: bool, playing: bool): seq<nat> {
    match event
    case Callback(finish, i) => if finish && !thread && inCallback then [i] else []
    case Updating(appended) => if playing && !inCallback && false in appended then [FirstFree(appended)] else []
    case Message(i) => [i]
  }

  /** The same for a list of events, given whether the player was playing at each. */
  function AllAsked(events: seq<Event>, thread: bool, inCallback: bool, playing: seq<bool>): seq<nat>
    requires |playing| == |events|
    decreases |events|
  {
    if events == [] then []
    else
      var n := |events| - 1;
      AllAsked(events[..n], thread, inCallback, playing[..n]) + Asked(events[n], thread, inCallback, playing[n])
  }

  predicate Loads(kind: Kind, mem: Memory, data: nat) {
    if kind == Wav then WavLoads(mem, data) else AiffLoads(mem, data)
  }

  /** The format a file object finds at an address. */
  function Description(file: WaveFile, data: nat, undefined: U32): Format
    reads file
  {
    if file.kind == Wav then WavFormat(file.mem, data, undefined)
    else AiffFormat(file.mem, data, (file.mLoopStart, file.mLoopEnd))
  }

  /** A format the player does not come to grief over: a jump of an AIFF file does not go behind
      the last sample, from where a negative count would be copied. */
  predicate Handled(f: Format, kind: Kind) {
    Fits(f) && (kind == Aiff && f.loop.Loop? ==> JumpFrame(f.loop.start, f.channels) <= f.frames)
  }

  lemma PlayableIsHandled(f: Format, kind: Kind)
    requires PlayableFormat(f)
    ensures Handled(f, kind)
  {
    if f.loop.Loop? {
      InsideJump(f, f.loop.start);
    }
  }

  /** The setting of the cursor for a jump. */
  lemma JumpSets(base: nat, s: int, channels: int)
    requires 1 <= channels <= 2
    ensures Address(base, s % TWO_32 * channels % TWO_32) == Address(base, Samples(channels, JumpFrame(s, channels)))
    ensures -TWO_30 <= Samples(channels, JumpFrame(s, channels)) < TWO_30
  {
    var k, j := s % TWO_32 * channels % TWO_32, Samples(channels, JumpFrame(s, channels));
    SameAddress(s, channels);
    Arithmetic.ModEqual(base + 2 * k, base + 2 * j, TWO_32);
    assert (base + 2 * k) - (base + 2 * j) == 2 * k - 2 * j;
  }

  lemma SameAddress(s: int, channels: int)
    requires 1 <= channels <= 2
    ensures (2 * (s % TWO_32 * channels % TWO_32) - 2 * Samples(channels, JumpFrame(s, channels))) % TWO_32 == 0
    ensures -TWO_30 <= Samples(channels, JumpFrame(s, channels)) < TWO_30
  {
    if channels == 1 {
      assert s % TWO_32 * channels % TWO_32 == s % TWO_32;
      MonoAddress(s);
    } else {
      assert s % TWO_32 * channels == 2 * (s % TWO_32);
      StereoAddress(s);
    }
  }

  lemma MonoAddress(s: int)
    ensures (2 * (s % TWO_32) - 2 * Centered(s, TWO_31)) % TWO_32 == 0
  {
    var a := s / TWO_31 + if s % TWO_31 < TWO_30 then 0 else 1;
    assert Centered(s, TWO_31) == s - TWO_31 * a;
    Arithmetic.ModUnique(2 * (s % TWO_32) - 2 * Centered(s, TWO_31), TWO_32, a - 2 * (s / TWO_32), 0);
  }

  lemma StereoAddress(s: int)
    ensures (2 * (2 * (s % TWO_32) % TWO_32) - 4 * Centered(s, TWO_30)) % TWO_32 == 0
  {
    var a, b := s / TWO_30 + if s % TWO_30 < TWO_30 / 2 then 0 else 1, 2 * (s % TWO_32) / TWO_32;
    assert Centered(s, TWO_30) == s - TWO_30 * a;
    Arithmetic.ModUnique(2 * (2 * (s % TWO_32) % TWO_32) - 4 * Centered(s, TWO_30), TWO_32,
                         a - 4 * (s / TWO_32) - 2 * b, 0);
  }

  /** What is left behind frame pos, as readData computes it. */
  lemma LeftOf(f: Format, pos: int)
    requires Fits(f) && -TWO_30 <= Samples(f.channels, pos) < TWO_30
    ensures S32(f.frames * f.channels - Samples(f.channels, pos)) == Samples(f.channels, f.frames - pos)
  {
    SampleCount(f.channels, f.frames);
  }

  /** How many samples readData makes of a frame. */
  lemma FrameLeft(f: Format, pos: int)
    requires Fits(f)
    ensures pos < f.frames <==> f.channels <= Samples(f.channels, f.frames - pos)
    ensures pos >= f.frames <==> Samples(f.channels, f.frames - pos) <= 0
    ensures pos == f.frames <==> Samples(f.channels, f.frames - pos) == 0
    ensures Samples(f.channels, pos + 1) == Samples(f.channels, pos) + f.channels
  {
  }

  /** A cursor on the data start. */
  lemma OnStart(f: Format)
    requires Fits(f)
    ensures f.data < TWO_32 && f.data == Address(f.data, Samples(f.channels, 0))
  {
  }

  /** Behind a frame that is read the cursor is still in range. */
  lemma NextFits(f: Format, pos: int)
    requires Fits(f) && pos < f.frames && -TWO_30 <= Samples(f.channels, pos)
    ensures -TWO_30 <= Samples(f.channels, pos + 1) < TWO_30
  {
  }

  /** The samples of a frame that was read. */
  lemma FrameSamples(source: Source, pos: int, frame: Frame)
    requires 1 <= source.format.channels <= 2 && |frame| == source.format.channels
    requires forall i :: 0 <= i < |frame| ==>
               frame[i] == SampleOf(source.mem, source.kind, source.format.data, Samples(source.format.channels, pos) + i)
    ensures frame == source.FrameAt(pos)
  {
  }

  // Every accepted file that lies in memory can be set.

  predicate InMemory(f: Format, end: nat) {
    0 < f.data <= end < TWO_32 && Samples(f.channels, f.frames) < TWO_30
  }

  lemma WavCanBeSet(mem: Memory, data: nat, dataLen: U32, ignoreSize: bool, undefined: U32)
    ensures WavAccepted(mem, data, dataLen, ignoreSize) && InMemory(WavFormat(mem, data, 0), data + dataLen) ==>
              WavLoads(mem, data) && Handled(WavFormat(mem, data, undefined), Wav)
  {
    if WavAccepted(mem, data, dataLen, ignoreSize) && InMemory(WavFormat(mem, data, 0), data + dataLen) {
      FramesAre32Bits(mem, data, 0, (0, 0));
      WavValidatorLoader(mem, data, dataLen, ignoreSize, undefined);
      AcceptedFits(WavFormat(mem, data, 0), data, dataLen);
    }
  }

  lemma AiffCanBeSet(mem: Memory, data: nat, dataLen: U32, ignoreSize: bool, before: (int, int))
    requires -TWO_31 <= before.0 < TWO_31 && -TWO_31 <= before.1 < TWO_31
    ensures var f := AiffFormat(mem, data, before);
            AiffAccepted(mem, data, dataLen, ignoreSize, before) && InMemory(f, data + dataLen) ==>
              AiffLoads(mem, data)
              && (Handled(f, Aiff) <==> (f.loop.Loop? ==> JumpFrame(f.loop.start, f.channels) <= f.frames))
              && (PlayableFormat(f) ==> Handled(f, Aiff))
  {
    var f := AiffFormat(mem, data, before);
    if AiffAccepted(mem, data, dataLen, ignoreSize, before) && InMemory(f, data + dataLen) {
      FramesAre32Bits(mem, data, 0, before);
      AiffLoopRange(mem, data, before);
      AcceptedFits(f, data, dataLen);
      if PlayableFormat(f) {
        PlayableIsHandled(f, Aiff);
      }
    }
  }

  lemma AiffLoopRange(mem: Memory, data: nat, before: (int, int))
    requires -TWO_31 <= before.0 < TWO_31 && -TWO_31 <= before.1 < TWO_31
    ensures var loop := AiffLoop(mem, data, before);
            loop.Loop? ==> -TWO_31 <= loop.start < TWO_31 && -TWO_31 <= loop.end < TWO_31
  {
    var inst, mark := Cursor(AiffChunk(mem, data, INST)), Cursor(AiffChunk(mem, data, MARK));
    MarkersAreLast(mem, mark + 2, Num16(BigEndian, mem, mark), Num16(BigEndian, mem, inst + 10),
                   Num16(BigEndian, mem, inst + 12), before);
  }

  const QUEUE_SIZE := 8

  class SimpleWavePlayer {
    const wave: array<U16>
    var mpFile: WaveFile?
    var mpBuffers: seq<nat>
    var mWavePackets: seq<Packet>
    var mIsSetData: bool
    var mIsPlaying: bool
    var mThreadRunning: bool
    var unk_0xB5: bool
    var mCurrSampleIdx: int
    var mDataStarvedCount: nat
    /** The packets sent to the worker thread. */
    var mQueue: seq<nat>
    /** The frame the file cursor stands on. */
    ghost var pos: int

    constructor (wave: array<U16>)
      ensures this.wave == wave && !mIsSetData && !mIsPlaying && !mThreadRunning && unk_0xB5 && mQueue == []
    {
      this.wave := wave;
      mpFile, mpBuffers, mWavePackets, mQueue := null, [], [], [];
      mIsSetData, mIsPlaying, mThreadRunning, unk_0xB5 := false, false, false, true;
      mCurrSampleIdx, mDataStarvedCount := 0, 0;
    }

    /** A file is set that the player handles, and the cursor stands on a frame; without a loop or
        in an AIFF file not behind the last one. */
    ghost predicate Loaded()
      reads `mpFile, `pos, mpFile
    {
      mpFile != null && Handled(mpFile.Shown(), mpFile.kind)
      && mpFile.OnSample(Samples(mpFile.mNumChans, pos))
      && (!mpFile.mIsLoop ==> 0 <= pos) && (!mpFile.mIsLoop || mpFile.kind == Aiff ==> pos <= mpFile.mFrames)
    }

    ghost predicate Ready()
      reads `mIsSetData, `mWavePackets, `mpFile, `pos, mpFile
    {
      mIsSetData && Loaded() && wave.Length >= BUFFER_SAMPLES && |mWavePackets| == 3
      && (forall i :: 0 <= i < 3 ==> mWavePackets[i] == PacketOf(i, mpFile.mNumChans))
    }

    ghost function Playing(): Head
      reads `mCurrSampleIdx, `pos
    {
      Head(mCurrSampleIdx, pos)
    }

    function Sound(): Source
      requires mpFile != null
      reads `mpFile, mpFile
    {
      Source(mpFile.mem, mpFile.kind, mpFile.Shown())
    }

    // The loop of MakeWave: read a frame, spread it over the lanes, count it.

    /** readData for one frame. */
    method ReadSamples(samples: array<U16>)
      requires Loaded() && samples.Length == 2
      modifies mpFile`mpDataCur, samples
      ensures mpFile.mpDataCur == Address(mpFile.mpDataBase, Samples(mpFile.mNumChans, if Reads(mpFile.Shown(), pos) then pos + 1 else pos))
      ensures Reads(mpFile.Shown(), pos) ==> forall i :: 0 <= i < mpFile.mNumChans ==>
                samples[i] == SampleOf(mpFile.mem, mpFile.kind, mpFile.mpDataBase, Samples(mpFile.mNumChans, pos) + i)
      ensures !Reads(mpFile.Shown(), pos) ==> samples[..] == old(samples[..])
    {
      LeftOf(mpFile.Shown(), pos);
      FrameLeft(mpFile.Shown(), pos);
      var read := mpFile.ReadData(samples, mpFile.mNumChans, Samples(mpFile.mNumChans, pos));
    }

    /** Where nothing is read, `samples` keeps what it held before. */
    method ReadFrame(samples: array<U16>) returns (ghost frame: Frame)
      requires Loaded() && samples.Length == 2
      modifies this`pos, mpFile`mpDataCur, samples
      ensures Loaded() && Sound() == old(Sound())
      ensures pos == if Reads(Sound().format, old(pos)) then old(pos) + 1 else old(pos)
      ensures frame == samples[..mpFile.mNumChans]
      ensures if Reads(Sound().format, old(pos)) then frame == Sound().FrameAt(old(pos)) else samples[..] == old(samples[..])
    {
      ReadSamples(samples);
      frame := samples[..mpFile.mNumChans];
      if Reads(mpFile.Shown(), pos) {
        FrameSamples(Sound(), pos, frame);
        NextFits(mpFile.Shown(), pos);
        pos := pos + 1;
      }
    }

    /** waveBufs[j][i] for each channel j. */
    method Spread(samples: array<U16>, waveBufs: seq<nat>, i: nat)
      requires samples.Length == 2 && samples as object != wave && 1 <= |waveBufs| <= 2
      requires forall j :: 0 <= j < |waveBufs| ==> waveBufs[j] + i < wave.Length
      modifies wave
      ensures wave[..] == Placed(old(wave[..]), waveBufs, i, samples[..|waveBufs|], |waveBufs|)
    {
      var j := 0;
      while j < |waveBufs|
        invariant 0 <= j <= |waveBufs|
        invariant wave[..] == Placed(old(wave[..]), waveBufs, i, samples[..|waveBufs|], j)
      {
        wave[waveBufs[j] + i] := samples[j];
        j := j + 1;
      }
    }

    /** The counter, and the jump back at the loop end. */
    method Count()
      requires Loaded()
      modifies this`mCurrSampleIdx, this`pos, mpFile`mpDataCur
      ensures Loaded() && Sound() == old(Sound())
      ensures Playing() == Counted(mpFile.Shown(), old(Playing()))
    {
      var file := mpFile;
      mCurrSampleIdx := (mCurrSampleIdx + 1) % TWO_32;
      if file.mIsLoop && mCurrSampleIdx >= file.GetLoopEnd() % TWO_32 {
        mCurrSampleIdx := file.GetLoopStart() % TWO_32;
        JumpSets(file.mpDataBase, file.mLoopStart, file.mNumChans);
        file.SetDataCur(mCurrSampleIdx * file.mNumChans % TWO_32);
        pos := JumpFrame(file.mLoopStart, file.mNumChans);
      }
    }

    method WriteFrame(samples: array<U16>, waveBufs: seq<nat>, i: nat) returns (ghost frame: Frame)
      requires Loaded() && samples.Length == 2 && samples as object != wave
      requires |waveBufs| == mpFile.mNumChans && forall j :: 0 <= j < |waveBufs| ==> waveBufs[j] + i < wave.Length
      modifies this`mCurrSampleIdx, this`pos, mpFile`mpDataCur, samples, wave
      ensures Loaded() && Sound() == old(Sound())
      ensures Playing() == Step(Sound().format, old(Playing()))
      ensures |frame| == |waveBufs| && frame == samples[..|frame|]
      ensures if Reads(Sound().format, old(pos)) then frame == Sound().FrameAt(old(pos)) else frame == old(samples[..|waveBufs|])
      ensures wave[..] == Placed(old(wave[..]), waveBufs, i, frame, |frame|)
    {
      frame := ReadFrame(samples);
      Spread(samples, waveBufs, i);
      Count();
    }

    /** One packet: as many frames as fit, or as are left of a file without a loop. */
    method MakeWave(i: nat) returns (append: bool, ghost delivered: seq<Frame>)
      requires Ready() && i < 3
      modifies this`mCurrSampleIdx, this`mDataStarvedCount, this`pos, mpFile`mpDataCur, wave
      ensures Ready() && Sound() == old(Sound())
      ensures |delivered| == PacketFrames(Sound().format, old(pos))
      ensures Playing() == Sound().HeadAfter(old(Playing()), |delivered|)
      ensures Run(Sound(), old(Playing()), delivered) && Repeats(Sound(), old(Playing()), delivered)
      ensures Filled(old(wave[..]), wave[..], i, Sound().format.channels, delivered)
      ensures mDataStarvedCount == old(mDataStarvedCount) + if !mpFile.mIsLoop && old(pos) == mpFile.mFrames then 1 else 0
      ensures append <==> mDataStarvedCount == 0
    {
      var samples := new U16[2];
      var waveBufs := mWavePackets[i].bufferAddress;
      var samplesToRead := mWavePackets[i].bufferSize / 2;
      if !mpFile.mIsLoop {
        var remaining := Remaining();
        if samplesToRead > remaining {
          samplesToRead := remaining;
        }
        if remaining == 0 {
          mDataStarvedCount := mDataStarvedCount + 1;
        }
      }
      delivered := Fill(i, samples, waveBufs, samplesToRead);
      append := mDataStarvedCount == 0;
    }

    /** frames - dataOff / 2 / channels */
    method Remaining() returns (remaining: nat)
      requires Loaded() && !mpFile.mIsLoop
      ensures remaining == mpFile.mFrames - pos
    {
      OffsetIs(mpFile.mpDataBase, Samples(mpFile.mNumChans, pos));
      var dataOff := S32(mpFile.mpDataCur - mpFile.mpDataBase);
      remaining := mpFile.mFrames - dataOff / 2 / mpFile.mNumChans;
    }

    method Fill(p: nat, samples: array<U16>, waveBufs: seq<nat>, samplesToRead: nat) returns (ghost delivered: seq<Frame>)
      requires Loaded() && samples.Length == 2 && samples as object != wave && p < 3 && wave.Length >= BUFFER_SAMPLES
      requires waveBufs == PacketOf(p, mpFile.mNumChans).bufferAddress && samplesToRead <= LaneLength(mpFile.mNumChans)
      modifies this`mCurrSampleIdx, this`pos, mpFile`mpDataCur, samples, wave
      ensures Loaded() && Sound() == old(Sound())
      ensures |delivered| == samplesToRead
      ensures Playing() == Sound().HeadAfter(old(Playing()), |delivered|)
      ensures Run(Sound(), old(Playing()), delivered) && Repeats(Sound(), old(Playing()), delivered)
      ensures Filled(old(wave[..]), wave[..], p, Sound().format.channels, delivered)
    {
      delivered := [];
      ghost var source, h, before, channels := Sound(), Playing(), wave[..], mpFile.mNumChans;
      FilledNothing(before, p, channels);
      var i := 0;
      while i < samplesToRead
        invariant 0 <= i <= samplesToRead && |delivered| == i
        invariant Loaded() && Sound() == source && Playing() == source.HeadAfter(h, i)
        invariant Run(source, h, delivered) && Repeats(source, h, delivered)
        invariant i > 0 ==> delivered[i - 1] == samples[..channels]
        invariant Filled(before, wave[..], p, channels, delivered)
      {
        LanesInside(p, channels, i);
        ghost var now := wave[..];
        ghost var frame := WriteFrame(samples, waveBufs, i);
        FilledFurther(before, now, p, channels, delivered, frame);
        RunFurther(source, h, delivered, frame);
        RepeatsFurther(source, h, delivered, frame);
        delivered := delivered + [frame];
        i := i + 1;
      }
    }

    /** The buffers of the three packets. */
    method SetBuffer()
      requires wave.Length >= BUFFER_SAMPLES
      modifies this`mpBuffers
      ensures mpBuffers == [0, PACKET_SAMPLES, 2 * PACKET_SAMPLES]
    {
      var offset := 0;
      mpBuffers := [];
      for i := 0 to 3
        invariant offset == PACKET_SAMPLES * i && |mpBuffers| == i
        invariant forall k :: 0 <= k < i ==> mpBuffers[k] == PACKET_SAMPLES * k
      {
        mpBuffers := mpBuffers + [offset];
        offset := offset + PACKET_SAMPLES;
      }
    }

    /** setWavData and setAiffData: `setup` is what the sound library's Setup returns. */
    method SetData(file: WaveFile, data: nat, undefined: U32, setup: bool) returns (ok: bool)
      requires wave.Length >= BUFFER_SAMPLES && mpBuffers == [0, PACKET_SAMPLES, 2 * PACKET_SAMPLES]
      requires Loads(file.kind, file.mem, data) ==> Handled(Description(file, data, undefined), file.kind)
      modifies this`mpFile, this`mWavePackets, this`mIsSetData, this`pos, file
      ensures ok <==> Loads(file.kind, file.mem, data) && setup
      ensures ok ==> Ready() && mpFile == file && pos == 0
                       && Sound() == Source(file.mem, file.kind, old(Description(file, data, undefined)))
      ensures !ok ==> mIsSetData == old(mIsSetData) && mpFile == old(mpFile) && mWavePackets == old(mWavePackets)
    {
      var initRes;
      if file.kind == Wav {
        initRes := file.InitWav(data, undefined);
      } else {
        initRes := file.InitAiff(data);
      }
      if !initRes || !setup {
        return false;
      }
      mWavePackets := Packets(file.mNumChans);
      mpFile := file;
      mIsSetData := true;
      pos := 0;
      OnStart(file.Shown());
      ok := true;
    }

    method Packets(channels: nat) returns (packets: seq<Packet>)
      requires channels > 0 && mpBuffers == [0, PACKET_SAMPLES, 2 * PACKET_SAMPLES]
      ensures |packets| == 3 && forall i :: 0 <= i < 3 ==> packets[i] == PacketOf(i, channels)
    {
      packets := [];
      for i := 0 to 3
        invariant |packets| == i && forall k :: 0 <= k < i ==> packets[k] == PacketOf(k, channels)
      {
        var bufferAddress: seq<nat> := [];
        for j := 0 to channels
          invariant |bufferAddress| == j && forall k :: 0 <= k < j ==> bufferAddress[k] == LaneStart(i, k, channels)
        {
          bufferAddress := bufferAddress + [mpBuffers[i] + Quotient(j * 0x800, channels * 2)];
        }
        packets := packets + [Packet(channels, bufferAddress, Quotient(0x800, channels * 2) * 2)];
      }
    }

    /** This is what the player has done. */
    ghost predicate Since(past: Past)
      reads `mIsSetData, `mWavePackets, `mpFile, `pos, `mCurrSampleIdx, `mDataStarvedCount, mpFile, wave
    {
      Ready()
      && Given(Sound(), past.h0, past.packets, past.parts, wave[..], Playing(), mDataStarvedCount - past.starved)
    }

    /** A past that starts here. */
    ghost function Present(): Past
      reads `mCurrSampleIdx, `mDataStarvedCount, `pos
    {
      Past(Playing(), mDataStarvedCount, [], [])
    }

    lemma FromHere()
      requires Ready()
      ensures Since(Present())
    {
      GivenNothing(Sound(), Playing(), wave[..]);
    }

    /** One more packet. */
    method FillNext(ghost past: Past, i: nat) returns (ghost now: Past)
      requires Since(past) && i < 3
      modifies this`mCurrSampleIdx, this`mDataStarvedCount, this`pos, mpFile`mpDataCur, wave
      ensures Sound() == old(Sound()) && Since(now) && now.Continues(past, [i])
    {
      ghost var source, before, h, count := Sound(), wave[..], Playing(), mDataStarvedCount;
      ghost var delivered: seq<Frame>;
      var append;
      append, delivered := MakeWave(i);
      GivenNext(source, past.h0, past.packets, past.parts, before, h, count - past.starved, i, delivered, wave[..]);
      now := past.(packets := past.packets + [i], parts := past.parts + [delivered]);
    }

    /** The counter is cleared, and three packets are filled from wherever the file cursor is, or
        left to the worker thread. */
    method Start() returns (ok: bool, ghost now: Past)
      requires mIsSetData ==> Ready()
      modifies this`mCurrSampleIdx, this`mDataStarvedCount, this`mIsPlaying, this`mQueue, this`pos
      modifies (if mpFile == null then {} else {mpFile})`mpDataCur, wave
      ensures ok == mIsSetData
      ensures ok ==> mIsPlaying && Sound() == old(Sound())
      ensures ok ==> Since(now) && now.Continues(Past(Head(0, old(pos)), 0, [], []), if mThreadRunning then [] else [0, 1, 2])
      ensures mQueue == if ok && mThreadRunning then Sent(old(mQueue), [0, 1, 2]) else old(mQueue)
      ensures !ok ==> mIsPlaying == old(mIsPlaying) && Playing() == old(Playing())
    {
      now := Present();
      if !mIsSetData {
        return false, now;
      }
      mCurrSampleIdx := 0;
      mIsPlaying := true;
      mDataStarvedCount := 0;
      FromHere();
      now := Present();
      if !mThreadRunning {
        now := StartPackets(now);
      } else {
        SendPackets();
      }
      return true, now;
    }

    method StartPackets(ghost past: Past) returns (ghost now: Past)
      requires Since(past)
      modifies this`mCurrSampleIdx, this`mDataStarvedCount, this`pos, mpFile`mpDataCur, wave
      ensures Sound() == old(Sound()) && Since(now) && now.Continues(past, [0, 1, 2])
    {
      now := past;
      ghost var filled: seq<nat> := [];
      for i := 0 to 3
        invariant Sound() == old(Sound()) && Since(now) && now.Continues(past, filled)
        invariant |filled| == i && forall k :: 0 <= k < i ==> filled[k] == k
      {
        now := FillNext(now, i);
        filled := filled + [i];
      }
      assert filled == [0, 1, 2];
    }

    method SendPackets()
      modifies this`mQueue
      ensures mQueue == Sent(old(mQueue), [0, 1, 2])
    {
      SendMessage(0);
      SendMessage(1);
      SendMessage(2);
    }

    /** OSSendMessage without blocking: a full queue drops the message. */
    method SendMessage(i: nat)
      modifies this`mQueue
      ensures mQueue == Sent(old(mQueue), [i])
    {
      if |mQueue| < QUEUE_SIZE {
        mQueue := mQueue + [i];
      }
    }

    /** `created` is what OSCreateThread returns. */
    method MakeThread(created: bool) returns (ok: bool)
      modifies this`mQueue, this`mThreadRunning
      ensures mQueue == [] && ok == created && mThreadRunning == (old(mThreadRunning) || created)
    {
      mQueue := [];
      if created {
        mThreadRunning := true;
      }
      ok := created;
    }

    /** makeWaveProc: packets are filled as their messages are received, any number of them, up to
        a message of NULL. */
    method MakeWaveProc(received: seq<Option<nat>>, ghost past: Past) returns (ghost now: Past)
      requires Since(past) && forall i :: 0 <= i < |received| && received[i].Some? ==> received[i].value < 3
      modifies this`mCurrSampleIdx, this`mDataStarvedCount, this`pos, mpFile`mpDataCur, wave
      ensures Sound() == old(Sound()) && Since(now) && now.Continues(past, UpToNull(received))
    {
      now := past;
      ghost var filled: seq<nat> := [];
      var n := 0;
      while n < |received|
        invariant 0 <= n <= |received| && Sound() == old(Sound()) && Since(now) && now.Continues(past, filled)
        invariant filled + UpToNull(received[n..]) == UpToNull(received)
      {
        var msg := received[n];
        UpToNullNext(received[n..]);
        assert received[n..][1..] == received[n + 1..];
        if msg == None {
          return;
        }
        now := FillNext(now, msg.value);
        filled := filled + [msg.value];
        n := n + 1;
      }
    }

    /** A packet has been played: it is filled again, here or by the worker thread. */
    method WavePacketCallback(finish: bool, i: nat, ghost past: Past) returns (ghost now: Past)
      requires Since(past) && i < 3
      modifies this`mCurrSampleIdx, this`mDataStarvedCount, this`mQueue, this`pos, mpFile`mpDataCur, wave
      ensures Sound() == old(Sound()) && Since(now)
      ensures now.Continues(past, if finish && !mThreadRunning && unk_0xB5 then [i] else [])
      ensures mQueue == if finish && mThreadRunning then Sent(old(mQueue), [i]) else old(mQueue)
    {
      now := past;
      if !finish {
        return;
      }
      if mThreadRunning {
        SendMessage(i);
        return;
      }
      if unk_0xB5 {
        now := FillNext(past, i);
      }
    }

    /** The first packet that is not in the sound library's hands. */
    method FillFree(appended: seq<bool>, ghost past: Past) returns (ghost now: Past)
      requires Since(past) && |appended| == 3
      modifies this`mCurrSampleIdx, this`mDataStarvedCount, this`pos, mpFile`mpDataCur, wave
      ensures Sound() == old(Sound()) && Since(now)
      ensures now.Continues(past, if false in appended then [FirstFree(appended)] else [])
    {
      for i := 0 to 3
        invariant forall k :: 0 <= k < i ==> appended[k]
      {
        if appended[i] {
          continue;
        }
        now := FillNext(past, i);
        FirstFreeIs(appended, i);
        return now;
      }
      now := past;
    }

    /** Fills a packet when the callback does not do that, and looks for the end of a sound without
        a loop. */
    method Update(appended: seq<bool>, ghost past: Past) returns (ghost now: Past)
      requires |appended| == 3 && (mIsPlaying && !unk_0xB5 ==> Since(past))
      modifies this`mCurrSampleIdx, this`mDataStarvedCount, this`mIsPlaying, this`pos
      modifies (if mpFile == null then {} else {mpFile})`mpDataCur, wave
      ensures mIsPlaying == (old(mIsPlaying) && mDataStarvedCount != 2)
      ensures old(mIsPlaying) && !unk_0xB5 ==>
                && Sound() == old(Sound()) && Since(now)
                && now.Continues(past, if false in appended then [FirstFree(appended)] else [])
      ensures !old(mIsPlaying) || unk_0xB5 ==>
                && now == past && Playing() == old(Playing()) && mDataStarvedCount == old(mDataStarvedCount)
                && wave[..] == old(wave[..]) && (mpFile != null ==> mpFile.mpDataCur == old(mpFile.mpDataCur))
    {
      now := past;
      if mIsPlaying {
        if !unk_0xB5 {
          now := FillFree(appended, past);
        }
        if mDataStarvedCount == 2 {
          mIsPlaying := false;
        }
      }
    }

    /** One thing that happens to the player. */
    method Handle(event: Event, ghost past: Past) returns (ghost now: Past)
      requires Since(past) && ValidEvent(event)
      modifies this`mCurrSampleIdx, this`mDataStarvedCount, this`mIsPlaying, this`mQueue, this`pos, mpFile`mpDataCur, wave
      ensures Sound() == old(Sound()) && Since(now)
      ensures now.Continues(past, Asked(event, mThreadRunning, unk_0xB5, old(mIsPlaying)))
    {
      match event {
        case Callback(finish, i) =>
          now := WavePacketCallback(finish, i, past);
        case Updating(appended) =>
          now := Update(appended, past);
        case Message(i) =>
          now := FillNext(past, i);
      }
    }

    /** Any number of events. `playing` says whether the player was playing at each. */
    method HandleAll(events: seq<Event>, ghost past: Past) returns (ghost now: Past, ghost playing: seq<bool>)
      requires Since(past) && AllValid(events)
      modifies this`mCurrSampleIdx, this`mDataStarvedCount, this`mIsPlaying, this`mQueue, this`pos, mpFile`mpDataCur, wave
      ensures Sound() == old(Sound()) && Since(now) && |playing| == |events|
      ensures now.Continues(past, AllAsked(events, mThreadRunning, unk_0xB5, playing))
    {
      now, playing := past, [];
      ghost var source, thread, inCallback := Sound(), mThreadRunning, unk_0xB5;
      ghost var filled: seq<nat> := [];
      var n := 0;
      while n < |events|
        invariant 0 <= n <= |events| && |playing| == n && Sound() == source && Since(now)
        invariant now.Continues(past, filled) && filled == AllAsked(events[..n], thread, inCallback, playing)
      {
        ghost var before, isPlaying := now, mIsPlaying;
        EventValid(events, n);
        now := Handle(events[n], now);
        AskedNext(events, thread, inCallback, playing, isPlaying);
        ContinuesOn(past, before, now, filled, Asked(events[n], thread, inCallback, isPlaying));
        filled := filled + Asked(events[n], thread, inCallback, isPlaying);
        playing := playing + [isPlaying];
        n := n + 1;
      }
      assert events[..n] == events;
    }

    /** A sound from its start on, through any events: all packets filled on the way are one run
        from where the file cursor was. */
    method Session(events: seq<Event>) returns (ghost now: Past, ghost playing: seq<bool>)
      requires Ready() && AllValid(events)
      modifies this`mCurrSampleIdx, this`mDataStarvedCount, this`mIsPlaying, this`mQueue, this`pos, mpFile`mpDataCur, wave
      ensures Sound() == old(Sound()) && Since(now) && |playing| == |events|
      ensures now.Continues(Past(Head(0, old(pos)), 0, [], []),
                            (if mThreadRunning then [] else [0, 1, 2]) + AllAsked(events, mThreadRunning, unk_0xB5, playing))
    {
      ghost var origin := Past(Head(0, pos), 0, [], []);
      var ok;
      ghost var started;
      ok, started := Start();
      now, playing := HandleAll(events, started);
      ContinuesOn(origin, started, now, if mThreadRunning then [] else [0, 1, 2],
                  AllAsked(events, mThreadRunning, unk_0xB5, playing));
    }
  }

  predicate AllValid(events: seq<Event>) {
    forall n :: 0 <= n < |events| ==> ValidEvent(events[n])
  }

  lemma EventValid(events: seq<Event>, n: nat)
    requires AllValid(events) && n < |events|
    ensures ValidEvent(events[n])
  {
  }

  lemma ContinuesOn(past: Past, mid: Past, now: Past, first: seq<nat>, second: seq<nat>)
    requires mid.Continues(past, first) && now.Continues(mid, second)
    ensures now.Continues(past, first + second)
  {
    assert (past.packets + first) + second == past.packets + (first + second);
  }

  lemma AskedNext(events: seq<Event>, thread: bool, inCallback: bool, playing: seq<bool>, next: bool)
    requires |playing| < |events|
    ensures AllAsked(events[..|playing| + 1], thread, inCallback, playing + [next])
         == AllAsked(events[..|playing|], thread, inCallback, playing) + Asked(events[|playing|], thread, inCallback, next)
  {
    assert events[..|playing| + 1][..|playing|] == events[..|playing|] && (playing + [next])[..|playing|] == playing;
  }

  /** A queue after these messages have been sent to it. */
  function Sent(queue: seq<nat>, messages: seq<nat>): (r: seq<nat>)
    ensures queue <= r && r <= queue + messages
    ensures |r| == |queue + messages| || (|r| >= QUEUE_SIZE && (r == queue || |r| == QUEUE_SIZE))
  {
    var room := if |queue| < QUEUE_SIZE then QUEUE_SIZE - |queue| else 0;
    queue + messages[..if |messages| < room then |messages| else room]
  }

  function UpToNull(received: seq<Option<nat>>): seq<nat> {
    if received == [] || received[0] == None then [] else [received[0].value] + UpToNull(received[1..])
  }

  /** The messages up to the first NULL. */
  lemma {:induction false} UpToNullExact(received: seq<Option<nat>>)
    ensures var r := UpToNull(received);
            && |r| <= |received| && (forall i :: 0 <= i < |r| ==> received[i] == Some(r[i]))
            && (|r| < |received| ==> received[|r|] == None)
  {
    if received != [] && received[0].Some? {
      UpToNullExact(received[1..]);
    }
  }

  lemma UpToNullNext(received: seq<Option<nat>>)
    requires received != []
    ensures received[0].Some? ==> forall before: seq<nat> ::
              (before + [received[0].value]) + UpToNull(received[1..]) == before + UpToNull(received)
  {
  }

  function FirstFree(appended: seq<bool>): nat
    requires false in appended
  {
    if !appended[0] then 0 else 1 + FirstFree(appended[1..])
  }

  lemma {:induction false} FirstFreeIs(appended: seq<bool>, i: nat)
    requires i < |appended| && !appended[i] && forall k :: 0 <= k < i ==> appended[k]
    ensures false in appended && FirstFree(appended) == i
  {
    assert appended[i] in appended;
    if i > 0 {
      FirstFreeIs(appended[1..], i - 1);
    }
  }
}
