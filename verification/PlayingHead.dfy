/** Where MakeWave of src/bannerSound/AudioWavePlayer.cpp reads: the frame counter and the file
    cursor over a whole playback, in the processor's 32-bit arithmetic. */
module PlayingHead {
  import opened Bytes
  import opened WaveFile
  import Arithmetic

  /** The frame counter mCurrSampleIdx, and the frame the file cursor stands on, counted from the
      data start; negative in front of it. */
  datatype Head = Head(idx: int, pos: int)

  /** The samples before frame k. */
  function Samples(channels: int, k: int): int {
    if channels == 1 then k else 2 * k
  }

  lemma SampleCount(channels: int, frames: int)
    requires 1 <= channels <= 2
    ensures frames * channels == Samples(channels, frames)
  {
  }

  /** The address of frame k. */
  function FrameAddress(f: Format, k: int): (a: nat)
    ensures a < TWO_32
  {
    Address(f.data, Samples(f.channels, k))
  }

  /** readData delivers a frame: one is left, and the cursor is not NULL. */
  predicate Reads(f: Format, pos: int) {
    pos < f.frames && FrameAddress(f, pos) != 0
  }

  /** The representative of x modulo m that is nearest to 0. */
  function Centered(x: int, m: nat): int
    requires m > 0
  {
    if x % m < m / 2 then x % m else x % m - m
  }

  /** The frame setDataCur(mCurrSampleIdx * channels) puts the cursor on. */
  function JumpFrame(s: int, channels: int): int {
    Centered(s, if channels == 1 then TWO_31 else TWO_30)
  }

  /** One frame further. */
  function Step(f: Format, h: Head): Head {
    Counted(f, h.(pos := if Reads(f, h.pos) then h.pos + 1 else h.pos))
  }

  /** The counter has 32 bits and is compared unsigned. */
  function Counted(f: Format, h: Head): Head {
    var idx := (h.idx + 1) % TWO_32;
    match f.loop
    case NoLoop => Head(idx, h.pos)
    case Loop(s, e) => if idx >= e % TWO_32 then Head(s % TWO_32, JumpFrame(s, f.channels)) else Head(idx, h.pos)
  }

  function Steps(f: Format, h: Head, n: nat): Head
    decreases n
  {
    if n == 0 then h else Step(f, Steps(f, h, n - 1))
  }

  lemma {:induction false} StepsAdd(f: Format, h: Head, a: nat, b: nat)
    ensures Steps(f, h, a + b) == Steps(f, Steps(f, h, a), b)
    decreases b
  {
    if b > 0 {
      StepsAdd(f, h, a, b - 1);
      assert a + (b - 1) == a + b - 1;
    }
  }

  // ---------------------------------------------------------------- what can be played

  /** One or two channels, and samples of less than 2^31 bytes that end below 2^32, as in any file
      in memory; loop positions of 32 bits. */
  predicate Fits(f: Format) {
    1 <= f.channels <= 2 && 0 <= f.frames && Samples(f.channels, f.frames) < TWO_30
    && 0 < f.data && f.data + 2 * Samples(f.channels, f.frames) < TWO_32
    && (f.loop.Loop? ==> -TWO_31 <= f.loop.start < TWO_31 && -TWO_31 <= f.loop.end < TWO_31)
  }

  /** And a loop inside the frames. */
  predicate PlayableFormat(f: Format) {
    Fits(f) && UsableLoop(f.loop, f.frames)
  }

  /** An accepted file that fits is playable exactly when its loop does not start before its first
      frame. */
  lemma AcceptedIsPlayable(f: Format, start: nat, dataLen: U32)
    requires FormatAllowed(f, start, dataLen) && Fits(f)
    ensures PlayableFormat(f) <==> (f.loop.Loop? ==> f.loop.start >= 0)
  {
  }

  /** An accepted format fits if the file lies below 2^32, its samples start inside it and take less
      than 2^31 bytes. */
  lemma AcceptedFits(f: Format, start: nat, dataLen: U32)
    requires FormatAllowed(f, start, dataLen)
    requires -TWO_31 <= f.frames < TWO_31 && 0 <= f.data - start < TWO_32
    requires f.loop.Loop? ==> -TWO_31 <= f.loop.start < TWO_31 && -TWO_31 <= f.loop.end < TWO_31
    ensures 0 < f.data <= start + dataLen < TWO_32 && Samples(f.channels, f.frames) < TWO_30 ==> Fits(f)
  {
    SamplesInside(f, start, dataLen);
    SampleCount(f.channels, f.frames);
  }

  /** The frames of a file that fits are where they should be. */
  lemma InsideReads(f: Format, pos: int)
    requires Fits(f) && 0 <= pos <= f.frames
    ensures FrameAddress(f, pos) == f.data + 2 * Samples(f.channels, pos) != 0
    ensures Reads(f, pos) <==> pos < f.frames
  {
  }

  lemma InsideJump(f: Format, s: int)
    requires Fits(f) && 0 <= s < f.frames
    ensures JumpFrame(s, f.channels) == s
  {
  }

  // ---------------------------------------------------------------- usable loops

  /** The frame that belongs to the n-th moment of a playback. */
  function Position(n: nat, frames: nat, loop: Loop): int
    requires UsableLoop(loop, frames)
  {
    match loop
    case NoLoop => if n < frames then n else frames
    case Loop(s, e) => if n < e then n else s + (n - s) % (e - s)
  }

  lemma NextRemainder(a: nat, m: nat)
    requires m > 0
    ensures (a + 1) % m == if a % m + 1 == m then 0 else a % m + 1
  {
    if a % m + 1 == m {
      assert a + 1 == m * (a / m + 1);
      Arithmetic.ModUnique(a + 1, m, a / m + 1, 0);
    } else {
      Arithmetic.ModUnique(a + 1, m, a / m, a % m + 1);
    }
  }

  /** Played from the start, frame n of a looped file is frame n up to the loop end, and from
      there on goes round the loop: counter and cursor stay together. */
  lemma {:induction false} LoopedRun(f: Format, n: nat)
    requires PlayableFormat(f) && f.loop.Loop?
    ensures Steps(f, Head(0, 0), n) == Head(Position(n, f.frames, f.loop), Position(n, f.frames, f.loop))
    ensures 0 <= Position(n, f.frames, f.loop) < f.loop.end
    decreases n
  {
    if n > 0 {
      LoopedRun(f, n - 1);
      NextPosition(n - 1, f.frames, f.loop);
      NextHead(f, Position(n - 1, f.frames, f.loop));
    }
  }

  lemma NextHead(f: Format, p: int)
    requires PlayableFormat(f) && f.loop.Loop? && 0 <= p < f.loop.end
    ensures var next := if p + 1 >= f.loop.end then f.loop.start else p + 1;
            Step(f, Head(p, p)) == Head(next, next)
  {
    InsideReads(f, p);
    InsideJump(f, f.loop.start);
  }

  lemma NextPosition(n: nat, frames: int, loop: Loop)
    requires loop.Loop? && UsableLoop(loop, frames)
    ensures Position(n + 1, frames, loop)
         == if Position(n, frames, loop) + 1 >= loop.end then loop.start else Position(n, frames, loop) + 1
    ensures 0 <= Position(n, frames, loop) < loop.end
  {
    var s, e := loop.start, loop.end;
    if n + 1 == e {
      Arithmetic.ModUnique(e - s, e - s, 1, 0);
    } else if n >= e {
      NextRemainder(n - s, e - s);
    }
  }

  /** The loop is exactly periodic. */
  lemma LoopPeriod(n: nat, frames: int, loop: Loop)
    requires loop.Loop? && UsableLoop(loop, frames) && n >= loop.start
    ensures Position(n + (loop.end - loop.start), frames, loop) == Position(n, frames, loop)
  {
    var d := loop.end - loop.start;
    Arithmetic.ModShift(n - loop.start, d, 1);
    assert n + d - loop.start == n - loop.start + d * 1;
    if n < loop.end {
      Arithmetic.ModUnique(n - loop.start, d, 0, n - loop.start);
    }
  }

  // ---------------------------------------------------------------- no loop, and restarts

  function Least(a: int, b: int): int {
    if a < b then a else b
  }

  /** Without a loop the frames come once and in order, and the cursor waits at the end. */
  lemma {:induction false} OneShotRun(f: Format, at: nat, n: nat)
    requires Fits(f) && f.loop == NoLoop && at <= f.frames
    ensures Steps(f, Head(0, at), n) == Head(n % TWO_32, Least(at + n, f.frames))
    decreases n
  {
    if n > 0 {
      OneShotRun(f, at, n - 1);
      InsideReads(f, Least(at + n - 1, f.frames));
      Arithmetic.ModAdd(n - 1, 1, TWO_32);
    }
  }

  /** start() clears the counter and leaves the cursor where it is. From a cursor on frame p a
      looped file plays on from there, waits at its end if it gets that far, and is back in step
      with the counter from the loop end on. */
  lemma {:induction false} RestartedRun(f: Format, p: nat, n: nat)
    requires PlayableFormat(f) && f.loop.Loop? && p <= f.frames
    ensures Steps(f, Head(0, p), n)
         == if n < f.loop.end then Head(n, Least(p + n, f.frames)) else Steps(f, Head(0, 0), n)
    decreases n
  {
    if n > 0 {
      RestartedRun(f, p, n - 1);
      if n <= f.loop.end {
        LoopedRun(f, n - 1);
        LoopedRun(f, n);
        RestartedStep(f, n - 1, Least(p + (n - 1), f.frames));
      }
    }
  }

  lemma RestartedStep(f: Format, idx: nat, pos: nat)
    requires PlayableFormat(f) && f.loop.Loop? && idx < f.loop.end && pos <= f.frames
    ensures Step(f, Head(idx, pos))
         == if idx + 1 < f.loop.end then Head(idx + 1, Least(pos + 1, f.frames)) else Head(f.loop.start, f.loop.start)
  {
    InsideReads(f, pos);
    InsideJump(f, f.loop.start);
  }

  /** So frame n after a restart is frame n of a playback from the start exactly when the cursor
      stood on frame 0, or from the end of the loop or of the file on. */
  lemma RestartExact(f: Format, p: nat, n: nat)
    requires PlayableFormat(f) && p <= f.frames
    ensures Steps(f, Head(0, p), n).pos == Steps(f, Head(0, 0), n).pos
       <==> p == 0 || n >= (match f.loop case NoLoop => f.frames case Loop(_, e) => e)
  {
    match f.loop
    case NoLoop =>
      OneShotRun(f, p, n);
      OneShotRun(f, 0, n);
    case Loop(_, _) =>
      RestartedRun(f, p, n);
      RestartedRun(f, 0, n);
  }

  // ---------------------------------------------------------------- all accepted loops

  /** What LoopAllowed leaves: a start that may be negative, and then an end that may be. */
  predicate AllowedLoop(f: Format) {
    Fits(f) && f.loop.Loop? && LoopAllowed(f.loop, f.frames)
  }

  /** The frames before the first jump. The counter is compared with the end as an unsigned number,
      after it has been increased. */
  function FirstJump(loop: Loop): nat
    requires loop.Loop?
  {
    if loop.end % TWO_32 == 0 then 1 else loop.end % TWO_32
  }

  /** The frames from one jump to the next: a negative start is a large counter, past every end
      that is not negative too. Only -1 comes round to 0 first. */
  function JumpPeriod(loop: Loop): (d: int)
    requires loop.Loop? && loop.start < loop.end
    ensures d >= 1
  {
    if loop.start < -1 && loop.end >= 0 then 1 else loop.end - loop.start
  }

  /** The cursor after m frames read from frame p on. */
  function Roll(f: Format, p: int, m: nat): int
    decreases m
  {
    if m == 0 then p
    else
      var q := Roll(f, p, m - 1);
      if Reads(f, q) then q + 1 else q
  }

  lemma {:induction false} RollInside(f: Format, p: nat, m: nat)
    requires Fits(f) && p <= f.frames
    ensures Roll(f, p, m) == Least(p + m, f.frames)
    decreases m
  {
    if m > 0 {
      RollInside(f, p, m - 1);
      InsideReads(f, Least(p + m - 1, f.frames));
    }
  }

  /** When the counter, m frames after a jump, reaches the end. */
  lemma JumpsAt(loop: Loop, m: nat)
    requires loop.Loop? && -TWO_31 <= loop.start < loop.end < TWO_31 && m < JumpPeriod(loop)
    ensures (loop.start + m + 1) % TWO_32 >= loop.end % TWO_32 <==> m + 1 == JumpPeriod(loop)
  {
  }

  lemma BetweenStep(f: Format, m: nat, pos: int)
    requires AllowedLoop(f) && m < JumpPeriod(f.loop)
    ensures Step(f, Head((f.loop.start + m) % TWO_32, pos))
         == if m + 1 < JumpPeriod(f.loop)
            then Head((f.loop.start + (m + 1)) % TWO_32, if Reads(f, pos) then pos + 1 else pos)
            else Head(f.loop.start % TWO_32, JumpFrame(f.loop.start, f.channels))
  {
    JumpsAt(f.loop, m);
    Arithmetic.ModAdd(f.loop.start + m, 1, TWO_32);
  }

  /** From one jump to the next. */
  lemma {:induction false} BetweenJumps(f: Format, m: nat)
    requires AllowedLoop(f) && m <= JumpPeriod(f.loop)
    ensures var s, j := f.loop.start, JumpFrame(f.loop.start, f.channels);
            Steps(f, Head(s % TWO_32, j), m)
            == if m < JumpPeriod(f.loop) then Head((s + m) % TWO_32, Roll(f, j, m)) else Head(s % TWO_32, j)
    decreases m
  {
    if m > 0 {
      BetweenJumps(f, m - 1);
      BetweenStep(f, m - 1, Roll(f, JumpFrame(f.loop.start, f.channels), m - 1));
    }
  }

  /** Round after round. */
  lemma {:induction false} ManyJumps(f: Format, q: nat)
    requires AllowedLoop(f)
    ensures var h := Head(f.loop.start % TWO_32, JumpFrame(f.loop.start, f.channels));
            Steps(f, h, Rounds(q, JumpPeriod(f.loop))) == h
  {
    var h := Head(f.loop.start % TWO_32, JumpFrame(f.loop.start, f.channels));
    if q > 0 {
      ManyJumps(f, q - 1);
      BetweenJumps(f, JumpPeriod(f.loop));
      StepsAdd(f, h, Rounds(q - 1, JumpPeriod(f.loop)), JumpPeriod(f.loop));
    }
  }

  /** The frames of q rounds. */
  function Rounds(q: nat, d: int): (n: nat)
    requires d >= 1
  {
    if q == 0 then 0 else Rounds(q - 1, d) + d
  }

  lemma {:induction false} RoundsIsProduct(q: nat, d: int)
    requires d >= 1
    ensures Rounds(q, d) == d * q
  {
    if q > 0 {
      RoundsIsProduct(q - 1, d);
    }
  }

  lemma BeforeStep(f: Format, n: nat)
    requires AllowedLoop(f) && n < FirstJump(f.loop)
    ensures Step(f, Head(n, Least(n, f.frames)))
         == if n + 1 < FirstJump(f.loop) then Head(n + 1, Least(n + 1, f.frames))
            else Head(f.loop.start % TWO_32, JumpFrame(f.loop.start, f.channels))
  {
    InsideReads(f, Least(n, f.frames));
    assert n + 1 <= TWO_32 && (n + 1 < FirstJump(f.loop) ==> (n + 1) % TWO_32 == n + 1);
  }

  /** Before the first jump. */
  lemma {:induction false} BeforeJump(f: Format, n: nat)
    requires AllowedLoop(f) && n <= FirstJump(f.loop)
    ensures Steps(f, Head(0, 0), n)
         == if n < FirstJump(f.loop) then Head(n, Least(n, f.frames))
            else Head(f.loop.start % TWO_32, JumpFrame(f.loop.start, f.channels))
    decreases n
  {
    if n > 0 {
      BeforeJump(f, n - 1);
      BeforeStep(f, n - 1);
    }
  }

  lemma RoundsAnd(k: nat, d: int)
    requires d >= 1
    ensures k / d >= 0 && 0 <= k % d < d && k == Rounds(k / d, d) + k % d
  {
    Arithmetic.Floor(k, d);
    RoundsIsProduct(k / d, d);
  }

  /** From the first jump on. */
  lemma {:induction false} AfterJump(f: Format, k: nat)
    requires AllowedLoop(f)
    ensures var s, j, m := f.loop.start, JumpFrame(f.loop.start, f.channels), k % JumpPeriod(f.loop);
            Steps(f, Head(s % TWO_32, j), k) == Head((s + m) % TWO_32, Roll(f, j, m))
  {
    var d, h := JumpPeriod(f.loop), Head(f.loop.start % TWO_32, JumpFrame(f.loop.start, f.channels));
    RoundsAnd(k, d);
    StepsAdd(f, h, Rounds(k / d, d), k % d);
    ManyJumps(f, k / d);
    BetweenJumps(f, k % d);
  }

  /** Every accepted loop, whatever the signs of its start and end: the file is played up to the
      first jump, as far as it goes, and from there on exactly the same frames come round, from
      the jump's target on. */
  lemma AllowedRun(f: Format, n: nat)
    requires AllowedLoop(f)
    ensures Steps(f, Head(0, 0), n)
         == if n < FirstJump(f.loop) then Head(n, Least(n, f.frames))
            else
              var m := (n - FirstJump(f.loop)) % JumpPeriod(f.loop);
              Head((f.loop.start + m) % TWO_32, Roll(f, JumpFrame(f.loop.start, f.channels), m))
  {
    if n < FirstJump(f.loop) {
      BeforeJump(f, n);
    } else {
      BeforeJump(f, FirstJump(f.loop));
      StepsAdd(f, Head(0, 0), FirstJump(f.loop), n - FirstJump(f.loop));
      AfterJump(f, n - FirstJump(f.loop));
    }
  }

  /** How far in front of the data start the jump goes, in bytes modulo 2^32. */
  function JumpBack(s: int, channels: int): (r: nat)
    ensures r < TWO_32
  {
    -2 * Samples(channels, s) % TWO_32
  }

  /** The same in terms of the centered remainder, for a distance of 2^32 / m bytes a frame. */
  lemma BackExact(s: int, m: nat, bytes: int)
    requires (m == TWO_31 && bytes == 2) || (m == TWO_30 && bytes == 4)
    ensures -bytes * s % TWO_32 == if s % m == 0 then 0 else TWO_32 - bytes * (s % m)
  {
    var q, w := s / m, s % m;
    if w == 0 {
      Arithmetic.ModUnique(-bytes * s, TWO_32, -q, 0);
    } else {
      Arithmetic.ModUnique(-bytes * s, TWO_32, -q - 1, TWO_32 - bytes * w);
    }
  }

  lemma JumpTarget(s: int, channels: int)
    requires 1 <= channels <= 2
    ensures var r, j := JumpBack(s, channels), JumpFrame(s, channels);
            && (r == 0 ==> j == 0)
            && (0 < r <= TWO_31 ==> 2 * Samples(channels, j) + r == 0)
            && (r > TWO_31 ==> 2 * Samples(channels, j) == TWO_32 - r)
  {
    if channels == 1 {
      BackExact(s, TWO_31, 2);
    } else {
      BackExact(s, TWO_30, 4);
      assert -2 * (2 * s) == -4 * s;
    }
  }

  /** Where a jump lands. Not at all in front of the data start, it is on frame 0; no farther than
      the data start's own address, it is that far in front of the samples; farther, it has
      wrapped, and is that much behind the data start, on a frame of the file exactly when that is
      less than all its bytes. */
  lemma JumpExact(f: Format, s: int)
    requires Fits(f)
    ensures var r, j := JumpBack(s, f.channels), JumpFrame(s, f.channels);
            && FrameAddress(f, j) == (f.data - r) % TWO_32
            && (j == 0 <==> r == 0)
            && (FrameAddress(f, j) < f.data <==> 0 < r <= f.data)
            && (0 <= j < f.frames <==> (r == 0 && f.frames > 0) || TWO_32 - r < 2 * Samples(f.channels, f.frames))
            && (r > 0 && 0 <= j ==> TWO_32 - r == 2 * Samples(f.channels, j))
  {
    var r, j := JumpBack(s, f.channels), JumpFrame(s, f.channels);
    JumpTarget(s, f.channels);
    if r > TWO_31 {
      assert f.data + 2 * Samples(f.channels, j) == f.data - r + TWO_32;
    }
    assert FrameAddress(f, j) == (f.data + 2 * Samples(f.channels, j)) % TWO_32;
  }
}
