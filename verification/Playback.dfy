/** From the file as it is written to the frames a player delivers. */
module Playback {
  import opened Bytes
  import opened ChunkBodies
  import opened ChunkReader
  import opened PlayingHead
  import opened WaveFile
  import opened WaveLanes
  import opened WavePlayer
  import AiffFiles
  import WavFiles

  /** The frame of the file that belongs to moment n: once through it, or round the loop. */
  function FrameAfter(n: nat, loop: Loop): int
    requires loop.Loop? ==> 0 <= loop.start < loop.end
  {
    match loop
    case NoLoop => n
    case Loop(s, e) => if n < e then n else s + (n - s) % (e - s)
  }

  /** The n-th frame a player delivers from the start of a file whose samples are these. */
  lemma {:induction false} FilePlayed(source: Source, samples: seq<U16>, frames: seq<Frame>, n: nat)
    requires PlayableFormat(source.format) && source.Records(samples)
    requires Run(source, Head(0, 0), frames) && n < |frames|
    requires source.format.loop == NoLoop ==> |frames| <= source.format.frames
    ensures IsFrame(frames[n], samples, source.format.channels, FrameAfter(n, source.format.loop))
  {
    if source.format.loop == NoLoop {
      OneShotPlayback(source, 0, frames, n);
    } else {
      LoopedPlayback(source, frames, n);
    }
  }

  /** So many frames of one or two channels, less than 2^31 bytes, in a file that lies in memory. */
  predicate Playable(channels: U16, count: nat, samples: seq<U16>, end: nat) {
    1 <= channels <= 2 && |samples| == count * channels < TWO_30 && end < TWO_32
  }

  lemma FormatFits(f: Format, samples: seq<U16>)
    requires 1 <= f.channels <= 2 && f.frames * f.channels == |samples| < TWO_30
    requires 0 < f.data && f.data + 2 * |samples| < TWO_32 && UsableLoop(f.loop, f.frames)
    ensures PlayableFormat(f)
  {
    SampleCount(f.channels, f.frames);
  }

  lemma WholeFrames(frames: int, count: nat, channels: nat)
    requires 1 <= channels <= 2 && frames * channels == count * channels
    ensures frames == count
  {
  }

  /** A format with these samples behind its data start. */
  ghost predicate Describes(f: Format, mem: Memory, kind: Kind, samples: seq<U16>, channels: U16, loop: Loop) {
    f.channels == channels && f.loop == loop && f.frames * channels == |samples| && 0 < f.data
    && f.data + 2 * |samples| < TWO_32 && Recorded(mem, kind, f.data, samples)
  }

  lemma DescribedPlays(f: Format, mem: Memory, kind: Kind, samples: seq<U16>, channels: U16, loop: Loop, frames: seq<Frame>, n: nat)
    requires Describes(f, mem, kind, samples, channels, loop) && 1 <= channels <= 2 && |samples| < TWO_30
    requires UsableLoop(loop, f.frames) && Run(Source(mem, kind, f), Head(0, 0), frames) && n < |frames|
    requires loop == NoLoop ==> |frames| <= f.frames
    ensures IsFrame(frames[n], samples, channels, FrameAfter(n, loop))
  {
    FormatFits(f, samples);
    FilePlayed(Source(mem, kind, f), samples, frames, n);
  }

  /** The whole data chunk, or a part of the sound data chunk, lies inside the file. */
  lemma InsideFile(data: nat, chunks: seq<Chunk>, i: nat, at: nat, size: nat)
    requires i < |chunks| && at <= 8 && at + size == |chunks[i].body|
    ensures data + 12 + OffsetOf(chunks, i) + 8 + at + size <= data + 12 + TotalSize(chunks)
  {
    WavFiles.ChunkInside(chunks, i);
  }

  lemma {:induction false} WavDescribed(mem: Memory, data: nat, chunks: seq<Chunk>, fmt: Fmt, smpl: Option<Smpl>, body: seq<Byte>,
                                        count: nat, samples: seq<U16>)
    requires WavFiles.Holds(chunks, fmt, smpl) && Even(data) == data && Stored(mem, data, WavFiles.WavBytes(chunks))
    requires Playable(fmt.channels, count, samples, data + 12 + TotalSize(chunks))
    requires body == chunks[FirstVisible(chunks, DATA)].body == Words16(LittleEndian, samples)
    ensures Describes(WavFormat(mem, data, 0), mem, Wav, samples, fmt.channels, WavFiles.LoopWritten(smpl))
    ensures WavLoads(mem, data) <==> fmt.audioFmt == 1 && fmt.bits == 16
  {
    WavFiles.WavFieldsRoundTrip(mem, data, chunks, fmt, smpl);
    WavFiles.WavSamplesRoundTrip(mem, data, chunks, fmt, smpl, count, samples);
    InsideFile(data, chunks, FirstVisible(chunks, DATA), 0, |body|);
  }

  /** The loop of frames from `start` up to and with `end`. */
  predicate LoopInside(smpl: Option<Smpl>, count: nat) {
    smpl.Some? && smpl.value.loops != [] && smpl.value.loops[0].start <= smpl.value.loops[0].end < count
  }

  predicate NoLoops(smpl: Option<Smpl>) {
    smpl.None? || smpl.value.loops == []
  }

  /** What a player makes of a WAVE file: a file written with a format chunk of 16-bit PCM, these
      samples, low byte first, and possibly a sampler chunk whose first loop lies inside them loads, and
      from its start on the player delivers the samples that were written, once or round the loop,
      whose last frame is the stored end. */
  lemma {:induction false} WavPlayed(mem: Memory, data: nat, chunks: seq<Chunk>, fmt: Fmt, smpl: Option<Smpl>, body: seq<Byte>,
                                     count: nat, samples: seq<U16>, frames: seq<Frame>, n: nat)
    requires WavFiles.Holds(chunks, fmt, smpl) && Even(data) == data && Stored(mem, data, WavFiles.WavBytes(chunks))
    requires Playable(fmt.channels, count, samples, data + 12 + TotalSize(chunks))
    requires body == chunks[FirstVisible(chunks, DATA)].body == Words16(LittleEndian, samples)
    requires LoopInside(smpl, count) || NoLoops(smpl)
    requires Run(Source(mem, Wav, WavFormat(mem, data, 0)), Head(0, 0), frames) && n < |frames|
    ensures WavLoads(mem, data) <==> fmt.audioFmt == 1 && fmt.bits == 16
    ensures NoLoops(smpl) && |frames| <= count ==> IsFrame(frames[n], samples, fmt.channels, n)
    ensures !NoLoops(smpl) ==>
              IsFrame(frames[n], samples, fmt.channels,
                      FrameAfter(n, Loop(smpl.value.loops[0].start, smpl.value.loops[0].end + 1)))
  {
    var f := WavFormat(mem, data, 0);
    WavDescribed(mem, data, chunks, fmt, smpl, body, count, samples);
    WholeFrames(f.frames, count, fmt.channels);
    if !NoLoops(smpl) {
      LoopAsWritten(smpl, count, fmt.channels);
    }
    if !NoLoops(smpl) || |frames| <= count {
      DescribedPlays(f, mem, Wav, samples, fmt.channels, WavFiles.LoopWritten(smpl), frames, n);
    }
  }

  lemma LoopAsWritten(smpl: Option<Smpl>, count: nat, channels: nat)
    requires 1 <= channels <= 2 && count * channels < TWO_30 && LoopInside(smpl, count)
    ensures WavFiles.LoopWritten(smpl) == Loop(smpl.value.loops[0].start, smpl.value.loops[0].end + 1)
    ensures UsableLoop(WavFiles.LoopWritten(smpl), count)
  {
  }

  lemma {:induction false} AiffDescribed(mem: Memory, data: nat, chunks: seq<Chunk>, common: Common, inst: Option<Instrument>,
                                         markers: seq<AiffFiles.Marker>, offset: U32, blockSize: U32, body: seq<Byte>,
                                         samples: seq<U16>, before: (int, int))
    requires AiffFiles.Holds(chunks, common, inst, markers, offset, blockSize, body) && body == Words16(BigEndian, samples)
    requires Even(data) == data && Stored(mem, data, AiffFiles.AiffBytes(chunks))
    requires Playable(common.channels, common.frames, samples, data + 12 + TotalSize(chunks))
    ensures Describes(AiffFormat(mem, data, before), mem, Aiff, samples, common.channels,
                      AiffFiles.LoopWritten(inst, markers, before))
    ensures AiffLoads(mem, data) <==> common.bits == 16 && offset == 0 && blockSize == 0
    ensures AiffFormat(mem, data, before).frames == common.frames
  {
    AiffFiles.AiffFieldsRoundTrip(mem, data, chunks, common, inst, markers, offset, blockSize, body, before);
    AiffFiles.AiffSamplesRoundTrip(mem, data, chunks, common, inst, markers, offset, blockSize, body, samples, before);
    InsideFile(data, chunks, FirstVisible(chunks, SSND), 8, |body|);
    CountFits(common.frames, common.channels, |samples|);
  }

  lemma CountFits(frames: U32, channels: nat, samples: nat)
    requires 1 <= channels <= 2 && frames * channels == samples < TWO_30
    ensures S32(frames) == frames
  {
  }

  /** And of an AIFF file, high byte first, whose common chunk gives the number of its frames. */
  lemma {:induction false} AiffPlayed(mem: Memory, data: nat, chunks: seq<Chunk>, common: Common, inst: Option<Instrument>,
                                      markers: seq<AiffFiles.Marker>, offset: U32, blockSize: U32, body: seq<Byte>,
                                      samples: seq<U16>, before: (int, int), frames: seq<Frame>, n: nat)
    requires AiffFiles.Holds(chunks, common, inst, markers, offset, blockSize, body) && body == Words16(BigEndian, samples)
    requires Even(data) == data && Stored(mem, data, AiffFiles.AiffBytes(chunks))
    requires Playable(common.channels, common.frames, samples, data + 12 + TotalSize(chunks))
    requires UsableLoop(AiffFiles.LoopWritten(inst, markers, before), common.frames)
    requires Run(Source(mem, Aiff, AiffFormat(mem, data, before)), Head(0, 0), frames) && n < |frames|
    requires AiffFiles.LoopWritten(inst, markers, before) == NoLoop ==> |frames| <= common.frames
    ensures AiffLoads(mem, data) <==> common.bits == 16 && offset == 0 && blockSize == 0
    ensures IsFrame(frames[n], samples, common.channels, FrameAfter(n, AiffFiles.LoopWritten(inst, markers, before)))
  {
    AiffDescribed(mem, data, chunks, common, inst, markers, offset, blockSize, body, samples, before);
    DescribedPlays(AiffFormat(mem, data, before), mem, Aiff, samples, common.channels,
                   AiffFiles.LoopWritten(inst, markers, before), frames, n);
  }
}
