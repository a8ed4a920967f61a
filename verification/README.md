# A Dafny model of the system menu's algorithms

This project models the self-contained algorithms of a Wii system menu decompilation and of its
build tools, and proves what they are for. Each module stands for one component:

- `ChunkReader`, `WaveFile`, `WavePlayer`, `PlayingHead`, `WaveLanes`, `MemCopy`, `DspAddress`: the
  banner sound. RIFF/WAVE and AIFF files are searched chunk by chunk (chapter 2 of "Multimedia
  Programming Interface and Data Specifications 1.0"; "AIFF version 1.3"), validated, loaded and played
  packet by packet, once or round a loop. `Containers`, `ChunkBodies`, `WavFiles` and `AiffFiles` describe
  such files as they are written, and say what the loaders and validators make of them, and `Playback` what
  a player makes of their samples; `ChunkCycles` says when the search ends.
- `NinjaWriter`, `NinjaPaths`, `NinjaWraps`, `NinjaNarrow`, `NinjaLists`, `NinjaBuilds`: the writer of
  Ninja files. Ninja's reading of lines (the Ninja manual, section "Lexical syntax") is modelled as a
  function, and wrapping is related to it, for any text, for lists of paths and for build statements.
- `Random`: the linear congruential generator, with its full period.
- `Tree`: the pre-order iterator without a stack, over heap nodes.
- `FatalScreen`: the text renderer of the fatal-error screen.
- `MessagePool`, `FreeListStack`: a typed message pool over a message queue, and a stack over a free
  list carved out of raw bytes.
- `Calendar`: date steps and the day of the week (the Gregorian calendar, section 3.2.1 of ISO
  8601:2004).
- `BootFlags`, `TitleTables`: the boot flags kept across sessions, and the disc's title queries.
- `IncludeFlattener`, `IncludeGuards`: the script that expands includes once per guard, and what is in its
  output.
- `Bytes`, `Arithmetic`: words made of bytes, and facts about division.

`dafny verify dfyconfig.toml` checks the whole project.

## How it is modelled

Code that changes things step by step is a class or a method with loops, proved equal to a function
of its inputs or of the old state; the theorems are lemmas about those functions. Three places join
what the source has twice. `ChunkReader.Reader` is both binary readers, told apart by a byte order;
`WaveFile.WaveFile` is both file classes, told apart by a kind, because the two differ in their
reading order and their chunks only; `SimpleWavePlayer.SetData` is `setWavData` and `setAiffData`,
which differ in the file object only. Long functions of the source are cut into several methods, in
the source's order. Memory is a sequence of bytes from address 0 on; reading behind it gives 0. A
loop's ghost variables and fields (`pos`, `delivered`, `free`, `held`, `sent` and so on) record what the
proofs talk about and nothing the program uses.

## What the proofs bring out

Where the code does not do what its name or documentation promises, the model follows the code, and
a lemma says exactly when the promise is kept:

- An empty chunk at the very end of a file is never looked at, since the search limit is data +
  fileSize, eight bytes short of the end (`ChunkReader.Visible`, `ChunkReader.FirstVisibleIsFirst`).
  With 32-bit addresses the search can also go round for ever (`ChunkReader.SearchCanLoop`); it ends as
  it should exactly when no address on its way passes 2^32 (`ChunkReader.Search32Exact`), and at all exactly
  when its cursor never comes back to an address (`ChunkCycles.SearchLoopsExact`).
- Both validators compare loop bounds as signed numbers and do not test the sign, so a stored start of
  2^31 or more is let through (`WaveFile.AcceptedLoopExact`, `WavFiles.NegativeLoopAccepted`;
  `WaveFile.AiffAcceptedLoopExact`, `AiffFiles.NegativeMarkAccepted`). `PlayingHead.AllowedRun` says what
  is then played. The first jump comes when the counter reaches the end taken as an unsigned number, or
  after one frame if the end is 0. After it, a start below -1 with an end that is not negative jumps
  after every frame; any other loop has its own length as its period. The jump goes 2 * channels * -start
  bytes back, modulo 2^32 (`PlayingHead.JumpExact`): if that is 0, to frame 0; if it is not more than the
  address of the samples, to memory in front of them; if it is more, forward to a place behind the data
  start, which is a frame of the file exactly when it is less than its bytes. So in a mono file whose
  samples are at 0x80000000 a start of -1 reads one frame in front of the samples, a stored start of 0x80000000 is
  frame 0 and one of 0xC0000000 is the lowest that lies in front of them. The validators do not test
  that the samples start inside the file either; all of them lie inside exactly when the first does
  (`WaveFile.SamplesInside`), and `WavFiles.LateSamplesAccepted` gives the files where it does not.
- `start()` clears the frame counter but not the file cursor, so a sound plays on from where it was and
  is back in step with a playback from the start only at the loop end or the end of the file, unless the
  cursor was at the start (`PlayingHead.RestartExact`, `PlayingHead.RestartedRun`). A sound that fits one
  packet has starved twice when `start()` returns, and `update()` stops it at once; an empty one has
  starved three times, and `update()` never stops it (`WavePlayer.StartStarves`).
- `memcpy_s` takes its block strategy without having tested the alignment it asserts
  (`MemCopy.MemcpyS`).
- The stack's blocks overlap for elements that are not whole words (`FreeListStack.LayoutExact`,
  `FreeListStack.NeighbourCorrupted`).
- The message pool's constructor clears too few bytes for small values or few entries
  (`MessagePool.AllFreeExact`).
- `_count_dollars_before_index` is documented to count the dollars in front of an index but never
  looks at the first character (`NinjaWriter.DollarsExact`). Lists and build statements survive this at
  every width exactly when no path of nothing but spaces, and dollars in front of them, stands directly in
  front of another path (`NinjaLists.ListRoundTrip`, `NinjaBuilds.BuildRoundTrip`), and all of them do at
  widths above 2 * (indent + 2) + 6, such as the default of 78 for a statement
  (`NinjaLists.WideListRoundTrip`, `NinjaBuilds.WideBuildRoundTrip`).
- Where no break of a line obeys the width, the comment in `_line` promises the first one. A width without
  room for the indentation and " $" makes Python count from the end of the text instead; the first break is
  still chosen exactly if at most one is that far in front of the end (`NinjaWriter.FirstPromisedExact`).
- `getWeek` is wrong for most dates before March of year 0, where C division rounds towards zero. It is
  right there only in leap years, on Sundays and on the latest days of the last of them
  (`Calendar.WeekExact`).
- Booting from the cache is passed on from session to session but never begins in this code
  (`BootFlags.CacheNeverArises`). Two reset functions store a disc state where a shutdown type is meant;
  the numbers happen to be the right ones (`BootFlags.Console.RebootSystem`,
  `BootFlags.Console.ReturnToMenu`).
- A file without a guard that includes itself, through others without one, sends the include script
  into endless recursion (`IncludeFlattener.TrapNeverEnds`). Macros and paths share one set of names, so a
  file can also be left out because of a file of that path, or a macro of that name
  (`IncludeGuards.LeftOutExact`).

## Model

| member | source | states |
|---|---|---|
| `ChunkReader.SeekFindsFirst` | src/bannerSound/AudioWaveUtility.cpp:127-142 | searching undoes writing: over any list of chunks serialised with even padding from an even address, in either byte order, up to the limit the file headers give, the search ends, finds an identifier exactly when a chunk it can see has it, and stops on the body of the first such chunk |
| `ChunkReader.FirstVisibleIsFirst` | src/bannerSound/AudioWaveUtility.cpp:194-209 | the chunk in question is the first of its kind that is not an empty chunk at the very end (the limit is eight bytes short of the end, so such a chunk is never looked at) |
| `ChunkReader.Reader.SeekChunk` | src/bannerSound/AudioWaveUtility.cpp:127-209 | the loop of both readers terminates and leaves result and cursor as the search function says |
| `ChunkReader.Reader.Read32` | src/bannerSound/AudioWaveUtility.cpp:88-92 | four bytes read in the order of the reader are the number they stand for, and the cursor is behind them |
| `ChunkReader.Reader.Read16` | src/bannerSound/AudioWaveUtility.cpp:170-175 | two bytes read in the order of the reader are the number they stand for |
| `ChunkReader.DigitsRead` | src/bannerSound/AudioWaveUtility.cpp:162-175 | a number that was written is read back, for both orders and any width |
| `ChunkReader.WordDigits` | src/bannerSound/AudioWaveUtility.cpp:88-175 | which bytes a number of four bytes is written as, low byte first or high byte first |
| `ChunkReader.HalfDigits` | src/bannerSound/AudioWaveUtility.cpp:88-175 | and a number of two bytes |
| `ChunkReader.StepExact` | src/bannerSound/AudioWaveUtility.cpp:136-138 | the step over a chunk as computed in 32 bits is the mathematical one exactly when the next chunk starts below 2^32 |
| `ChunkReader.Search32Exact` | src/bannerSound/AudioWaveUtility.cpp:127-142 | on every memory the search as the processor runs it, with 32-bit cursors, ends with the result of the search on unbounded addresses exactly when no address on its way passes 2^32 |
| `ChunkReader.SearchCanLoop` | src/bannerSound/AudioWaveUtility.cpp:127-142 | from a chunk in front of the end of the area with a size field of 0xFFFFFFF8 the 32-bit search for another identifier never ends, however many chunks it is given |
| `ChunkCycles.SearchEndsExact` | src/bannerSound/AudioWaveUtility.cpp:127-142 | the 32-bit search ends at all exactly when it ends within 2^31 + 1 rounds |
| `ChunkCycles.SearchLoopsExact` | src/bannerSound/AudioWaveUtility.cpp:127-142 | and it goes on for ever exactly when its cursor comes back to an address before the search has ended |
| `MemCopy.MemcpyS` | src/bannerSound/AudioWaveUtility.cpp:9-69 | all three strategies leave the destination equal to the source and everything else unchanged, for every size and alignment; a word access is misaligned exactly when the first strategy is taken with both addresses off by the same amount and something to copy |
| `MemCopy.WordLoop` | src/bannerSound/AudioWaveUtility.cpp:47-53 | every word access of the middle strategy is at a multiple of four, and the counter ends below four without passing zero |
| `MemCopy.BlockLoop` | src/bannerSound/AudioWaveUtility.cpp:22-35 | blocks of sixteen bytes move unchanged; all word accesses are at multiples of four exactly when both addresses were or nothing is copied |
| `MemCopy.ByteLoop` | src/bannerSound/AudioWaveUtility.cpp:55-67 | single bytes move unchanged |
| `WaveFile.WaveFile.InitWav` | src/bannerSound/AudioWaveUtility.cpp:571-639 | the WAVE loader succeeds exactly on the files the format asks for and leaves the format and both sample cursors as the file says; the frame count is that of the whole frames in the data chunk |
| `WaveFile.FramesExact` | src/bannerSound/AudioWaveUtility.cpp:630-633 | the frame count is the only number of whole frames that the bytes of the data chunk hold, for any number of channels |
| `WaveFile.SizeAgreesExact` | src/bannerSound/AudioWaveUtility.cpp:648-651 | the size test passes exactly when header and given length need the same number of 32-byte blocks, so a file in a buffer filled up to 32 bytes passes |
| `WaveFile.RoundUpExact` | src/bannerSound/AudioWaveUtility.cpp:648-651 | sizes are rounded up to the next multiple of 32, and to 0 from where that would be 2^32 |
| `WaveFile.DecodeExact` | src/bannerSound/AudioWaveUtility.cpp:545-564 | the 80-bit number is its sign times its 64-bit mantissa times the power of two that the exponent asks for |
| `WaveFile.RateRead` | src/bannerSound/AudioWaveUtility.cpp:545-564 | a whole sampling rate that was written with its first bit in front is read back |
| `WaveFile.WaveFile.CheckWav` | src/bannerSound/AudioWaveUtility.cpp:641-745 | the WAVE validator accepts exactly the files that load, agree in size, have one or two channels, 4 to 48 kHz, their samples inside the file and (signed) ordered loop bounds |
| `WaveFile.WaveFile.InitAiff` | src/bannerSound/AudioWaveUtility.cpp:259-369 | the AIFF loader succeeds exactly when the tests it makes hold (whether the sound data chunk exists is not one of them) |
| `WaveFile.WaveFile.CheckAiff` | src/bannerSound/AudioWaveUtility.cpp:371-526 | the AIFF validator accepts exactly the files that pass its tests, with the markers of a forward loop resolved |
| `WaveFile.WaveFile.ReadMarkers` | src/bannerSound/AudioWaveUtility.cpp:323-335 | the marker loop leaves the loop positions that the marker list determines |
| `WaveFile.WavValidatorLoader` | src/bannerSound/AudioWaveUtility.cpp:571-745 | whatever the WAVE validator accepts the loader loads, with the same format |
| `WaveFile.AiffValidatorLoader` | src/bannerSound/AudioWaveUtility.cpp:259-526 | whatever the AIFF validator accepts the loader of the same object loads, with the same format, even where the file leaves a loop position unset |
| `WaveFile.MarkersTwice` | src/bannerSound/AudioWaveUtility.cpp:461-472 | a second pass over the markers finds the same positions, or none where the first found none |
| `WaveFile.SamplesInside` | src/bannerSound/AudioWaveUtility.cpp:726-728 | in an accepted file no product of the sample count overflows 32 bits, and all samples lie inside the file exactly when their start does |
| `WaveFile.AcceptedLoopExact` | src/bannerSound/AudioWaveUtility.cpp:731-742 | an accepted WAVE loop is usable exactly when its stored start is below 2^31 |
| `WaveFile.AiffAcceptedLoopExact` | src/bannerSound/AudioWaveUtility.cpp:514-523 | an accepted AIFF loop is usable exactly when the last begin marker's stored position is below 2^31, or there is no such marker and the object held no negative start |
| `WaveFile.MarkersAreLast` | src/bannerSound/AudioWaveUtility.cpp:323-335 | the pass over the markers leaves the position of the last marker of each identifier; a marker that is both only counts as the begin |
| `WavFiles.NegativeLoopAccepted` | src/bannerSound/AudioWaveUtility.cpp:641-745 | every file of a whole family with a stored loop start of 2^31 or more is accepted |
| `WavFiles.LateSamplesAccepted` | src/bannerSound/AudioWaveUtility.cpp:726-728 | every mono file of three chunks is accepted with a given length that ends in front of its samples, exactly when that length passes the comparison with the size in the header (or that is ignored) |
| `WavFiles.WavRoundTrip` | src/bannerSound/AudioWaveUtility.cpp:571-639 | loading undoes writing: from any list of chunks with a format and a data chunk the loader recovers format, loop and the place of the data |
| `WavFiles.WavFieldsRoundTrip` | src/bannerSound/AudioWaveUtility.cpp:571-639 | the same from encoded chunks: the format fields and the first loop of a sampler chunk that were written come back, whatever stands beside them, with as many frames as the data chunk holds whole |
| `WavFiles.WavSamplesRoundTrip` | src/bannerSound/AudioWaveUtility.cpp:571-639 | of a data chunk with n frames of samples, written low byte first, the loader finds n frames and their place |
| `WavFiles.WavAcceptedWritten` | src/bannerSound/AudioWaveUtility.cpp:641-745 | a written file whose given length leaves nothing out is accepted exactly when it is 16-bit PCM with one or two channels at 4 to 48 kHz, its sizes agree, and its loop is in signed order and ends inside the data chunk |
| `WavFiles.WavAcceptedExact` | src/bannerSound/AudioWaveUtility.cpp:641-745 | exactly which written files the validator accepts, in terms of what was written |
| `WavFiles.WavChunkFound` | src/bannerSound/AudioWaveUtility.cpp:580-587 | in a written file the search for any identifier lands on its first visible chunk |
| `AiffFiles.AiffRoundTrip` | src/bannerSound/AudioWaveUtility.cpp:259-369 | loading undoes writing: from any list of chunks with a common chunk, a sound data chunk and possibly an instrument chunk with its list of markers the loader recovers format, loop and the place of the samples |
| `AiffFiles.AiffFieldsRoundTrip` | src/bannerSound/AudioWaveUtility.cpp:259-369 | the same from encoded chunks: the fields of the common chunk and the sustain loop of the instrument chunk, with its markers, come back, and so do the samples |
| `AiffFiles.AiffSamplesRoundTrip` | src/bannerSound/AudioWaveUtility.cpp:259-369 | of a sound data chunk with samples written high byte first the loader finds these samples |
| `AiffFiles.AiffAcceptedWritten` | src/bannerSound/AudioWaveUtility.cpp:371-526 | a written file whose given length reaches its samples is accepted exactly when they are plain 16-bit samples of one or two channels at 4 to 48 kHz, its sizes agree, all frames have room in the given length, and its loop is in signed order and ends inside the frames |
| `AiffFiles.AiffAcceptedExact` | src/bannerSound/AudioWaveUtility.cpp:371-526 | exactly which written files the validator accepts, in terms of what was written |
| `AiffFiles.NegativeMarkAccepted` | src/bannerSound/AudioWaveUtility.cpp:371-526 | every file with room for its samples and a loop end inside them is accepted with any begin marker at 2^31 or more |
| `AiffFiles.MarkBodyRead` | src/bannerSound/AudioWaveUtility.cpp:323-335 | from a written list of markers the last position of any identifier is read back |
| `WaveFile.WaveFile.ReadData` | src/bannerSound/AudioWaveUtility.cpp:747-764 | from any cursor, in 32-bit addresses: as many samples as asked for or left, with the cursor behind them, and if samples were written behind the data start, low byte first in a WAVE file and high byte first in an AIFF file, then these; nothing from a NULL cursor, and nothing in a WAVE file from behind its end |
| `WaveFile.SampleRecorded` | src/bannerSound/AudioWaveUtility.cpp:758-762 | a sample that was written, low byte first in a WAVE file and high byte first in an AIFF file, is the number the processor gets |
| `WaveFile.WaveFile.SetDataCur` | src/bannerSound/AudioWaveUtility.cpp:778-780 | the cursor is that many samples behind the data start, in 32-bit addresses |
| `WaveFile.WaveFile.CopyWords` | src/bannerSound/AudioWaveUtility.cpp:528-543 | the AIFF variant moves its samples unchanged |
| `WaveFile.SwappedIsLittle` | src/bannerSound/AudioWaveUtility.cpp:758-762 | swapping the bytes of a word read big-endian gives the little-endian number |
| `WavePlayer.LoopedPlayback` | src/bannerSound/AudioWavePlayer.cpp:33-45 | looped playback from the start of the file is exactly periodic: frame n of any run is file frame n before the loop end and frame loopStart + (n - loopStart) mod (loopEnd - loopStart) from there on, which are the samples that were written there |
| `WavePlayer.FrameRecorded` | src/bannerSound/AudioWavePlayer.cpp:33-39 | channel j of the frame at the address of frame p is the written sample p * channels + j |
| `Playback.WavPlayed` | src/bannerSound/AudioWaveUtility.cpp:571-764 | from the bytes of a WAVE file to what is delivered: of n frames of written samples a player delivers from the start exactly these, once, or round the first loop of the sampler chunk, whose last frame is the stored end |
| `Playback.AiffPlayed` | src/bannerSound/AudioWaveUtility.cpp:259-543 | the same for an AIFF file, with its samples high byte first and the loop its markers give |
| `WavePlayer.AllowedPlayback` | src/bannerSound/AudioWavePlayer.cpp:33-45 | frame n of a playback for every loop the validators accept, whatever the signs of its bounds, and the written samples where it is a frame of the file |
| `PlayingHead.AllowedRun` | src/bannerSound/AudioWavePlayer.cpp:39-44 | counter and cursor after n frames for every accepted loop: straight on up to the first jump, from there on periodic, with the period of the jumps |
| `PlayingHead.JumpExact` | src/bannerSound/AudioWavePlayer.cpp:43-43 | where the jump to a loop start puts the cursor in 32-bit arithmetic: exactly when on frame 0, exactly when in front of the samples, and exactly when on a frame of the file |
| `PlayingHead.LoopedRun` | src/bannerSound/AudioWavePlayer.cpp:41-44 | for a usable loop sample counter and file cursor stay together and below the loop end |
| `PlayingHead.LoopPeriod` | src/bannerSound/AudioWavePlayer.cpp:41-44 | one loop length later the same frame is played |
| `WavePlayer.OneShotPlayback` | src/bannerSound/AudioWavePlayer.cpp:14-39 | without a loop each frame is delivered once and in order, with the samples that were written |
| `WavePlayer.PlayedTotal` | src/bannerSound/AudioWavePlayer.cpp:14-25 | over any sequence of packets the frames delivered are as many as fit or as many as there are |
| `WavePlayer.StarvedExact` | src/bannerSound/AudioWavePlayer.cpp:23-25 | the starved calls are exactly those from the first one that finds nothing left |
| `WavePlayer.PacketsPlayTheLoop` | src/bannerSound/AudioWavePlayer.cpp:33-45 | the loop formula over any number of packets filled one after the other by a player that stood at the start, across their borders |
| `WavePlayer.PacketsPlayOnce` | src/bannerSound/AudioWavePlayer.cpp:14-39 | without a loop the packets together are the frames of the file, once and in order, as many as fit or as there are |
| `WavePlayer.RunOn` | src/bannerSound/AudioWavePlayer.cpp:33-39 | deliveries of consecutive calls form one run, whatever packets they came in |
| `WavePlayer.SimpleWavePlayer.MakeWave` | src/bannerSound/AudioWavePlayer.cpp:5-53 | one call delivers the next frames of the run, and where nothing is read the frame before again; it puts channel j into lane j and touches nothing else, keeps the cursor where the player can go on from, counts starvation exactly and appends the packet exactly while nothing has starved |
| `WavePlayer.SimpleWavePlayer.MakeWaveProc` | src/bannerSound/AudioWavePlayer.cpp:212-223 | any number of packets filled as their messages come in, up to NULL: they continue the run of all packets filled before, each packet's lanes hold what it got last, and the starved calls are counted |
| `WavePlayer.SimpleWavePlayer.HandleAll` | src/bannerSound/AudioWavePlayer.cpp:55-223 | any number of callbacks, updates and messages to the worker thread, in any order: the packets filled are those the flags ask for, and all of them are one run |
| `WavePlayer.SimpleWavePlayer.Session` | src/bannerSound/AudioWavePlayer.cpp:165-223 | the same from start() on: one run from where the file cursor was |
| `WavePlayer.SimpleWavePlayer.WavePacketCallback` | src/bannerSound/AudioWavePlayer.cpp:55-70 | a finished packet is sent to the worker thread if there is one, else filled with the next frames if the callback is to do that; otherwise nothing happens |
| `WavePlayer.SimpleWavePlayer.SetBuffer` | src/bannerSound/AudioWavePlayer.cpp:86-101 | the three buffers start 0x400 samples apart |
| `WavePlayer.SimpleWavePlayer.SetData` | src/bannerSound/AudioWavePlayer.cpp:103-163 | a file that loads is set with its cursor on the first frame and with three packets of the lane layout; otherwise packets and file in use stay |
| `WavePlayer.WavCanBeSet` | src/bannerSound/AudioWaveUtility.cpp:641-745 | every accepted WAVE file in memory can be set |
| `WavePlayer.AiffCanBeSet` | src/bannerSound/AudioWaveUtility.cpp:371-526 | an accepted AIFF file in memory can be set exactly when its loop start does not jump behind the last frame, and so if its loop is usable |
| `WaveLanes.LanesDisjoint` | src/bannerSound/AudioWavePlayer.cpp:118-127 | for any number of channels the lanes of the three packets are pairwise disjoint and lie inside wsize |
| `WaveLanes.LanesFill` | src/bannerSound/AudioWavePlayer.cpp:118-127 | the lanes of a packet are as long as fits its 0x400 samples, and the size of the packet is theirs in bytes |
| `WavePlayer.SimpleWavePlayer.Start` | src/bannerSound/AudioWavePlayer.cpp:165-186 | start() clears the counter and fills three packets with the run from wherever the file cursor is, each of which still holds its part at the end, with the starved count of three packets; or it sends the three packets to the worker thread, as many as its queue takes |
| `PlayingHead.RestartedRun` | src/bannerSound/AudioWavePlayer.cpp:165-186 | the whole course of a looped file restarted with its cursor on frame p: on from p, waiting at the end of the file, in step again from the loop end on |
| `PlayingHead.RestartExact` | src/bannerSound/AudioWavePlayer.cpp:165-186 | frame n after a restart is frame n of a playback from the start exactly when the cursor was on the first frame or n has reached the loop end (without a loop, the end of the file) |
| `WavePlayer.StartStarves` | src/bannerSound/AudioWavePlayer.cpp:193-210 | after start() the count that update() takes for the end of the sound is there exactly when one packet holds all that is left; with nothing left the count has passed it |
| `WavePlayer.SimpleWavePlayer.Update` | src/bannerSound/AudioWavePlayer.cpp:193-210 | when the callback does not fill packets, the first one not in the sound library's hands gets the next frames; playing ends exactly at a starved count of two |
| `PlayingHead.AcceptedIsPlayable` | src/bannerSound/AudioWaveUtility.cpp:641-745 | an accepted format of a file in memory is playable exactly when its loop does not start before the first frame |
| `PlayingHead.AcceptedFits` | src/bannerSound/AudioWaveUtility.cpp:726-728 | an accepted file is of a size the 32-bit arithmetic can take if its samples start inside it and are less than 2^31 bytes |
| `DspAddress.StrictlyIncreasing` | src/bannerSound/AudioWavePlayer.cpp:235-240 | in mode 0 later samples have higher nibble addresses |
| `DspAddress.SampleRecovered` | src/bannerSound/AudioWavePlayer.cpp:235-240 | an explicit inverse recovers the sample offset |
| `DspAddress.EveryDataNibble` | src/bannerSound/AudioWavePlayer.cpp:235-240 | from an 8-byte aligned address every nibble outside the two headers of 16 is some sample's |
| `DspAddress.HeadersSkippedIffAligned` | src/bannerSound/AudioWavePlayer.cpp:235-240 | header nibbles are skipped exactly when the address is 8-byte aligned |
| `DspAddress.CachedIsPhysical` | src/bannerSound/AudioWavePlayer.cpp:235-240 | a cached address and its physical one have the same nibble address |
| `DspAddress.PcmInjective` | src/bannerSound/AudioWavePlayer.cpp:242-249 | in the PCM modes different offsets have different addresses |
| `DspAddress.PcmPlaces` | src/bannerSound/AudioWavePlayer.cpp:242-249 | where the PCM samples are: one byte after the other, or in words of two bytes from the address rounded down |
| `NinjaWriter.WrapExact` | tools/ninja_syntax.py:170-205 | wrapping preserves what Ninja reads exactly when no chosen break is followed by a space that would otherwise be read |
| `NinjaWriter.LineExact` | tools/ninja_syntax.py:170-205 | the same for a whole written line with its indentation |
| `NinjaWriter.SingleSpacesKept` | tools/ninja_syntax.py:170-205 | every text without two spaces in a row survives any width |
| `NinjaWriter.Writer.Line` | tools/ninja_syntax.py:170-205 | terminates for every text, indentation and width and writes the lines of the text taken apart at the chosen breaks, all but the last ending in a space and a dollar |
| `NinjaWriter.BreakIsBest` | tools/ninja_syntax.py:176-197 | if some break leaves the line with its " $" below the width, the last break that does is chosen, otherwise the first break of the text, and none only if there is none; for widths too narrow for the indentation, the last one that far in front of the end of the text |
| `NinjaWriter.FirstPromisedExact` | tools/ninja_syntax.py:176-197 | where no break fits the comment promises the first one; exactly when it is chosen: if the width has room for the indentation and " $", or at most one break is that far in front of the end of the text |
| `NinjaWriter.BreakExactly` | tools/ninja_syntax.py:161-181 | lines break exactly at the spaces that Ninja takes unescaped, and the other way round behind nothing but dollars |
| `NinjaWriter.LinesFit` | tools/ninja_syntax.py:170-205 | with room for the indentations and " $" only lines without a break are wider than the width |
| `NinjaWriter.ApartTogether` | tools/ninja_syntax.py:170-205 | the parts on the lines, joined with single spaces, are the text |
| `NinjaWriter.ApartOnce` | tools/ninja_syntax.py:170-205 | the width, the indentation and the text determine the lines |
| `NinjaWriter.Writer.RightmostBreak` | tools/ninja_syntax.py:179-183 | the search with rfind finds the rightmost break, for negative bounds too |
| `NinjaWriter.Writer.LeftmostBreak` | tools/ninja_syntax.py:187-194 | the search with find finds the first break from there on |
| `NinjaWriter.Writer.CountDollarsBeforeIndex` | tools/ninja_syntax.py:161-168 | counts the dollars in front of an index as the loop does |
| `NinjaWriter.DollarsExact` | tools/ninja_syntax.py:161-168 | that count is one short exactly when nothing but dollars stands in front |
| `NinjaPaths.EscapingIsEscapePath` | tools/ninja_syntax.py:34-35 | on every word the three replacements together escape character by character, a dollar only in front of a space |
| `NinjaLists.ListRoundTrip` | tools/ninja_syntax.py:34-35 | a list of paths whose dollars stand in front of spaces, with bars between them or not, escaped, joined and wrapped, is read back by Ninja as the same list at every width, and at every natural width, exactly when no path of nothing but spaces (and dollars in front of them) stands directly in front of another path |
| `NinjaLists.ListLost` | tools/ninja_syntax.py:170-205 | otherwise it is lost at a natural width that is given |
| `NinjaLists.OnlyTheLast` | tools/ninja_syntax.py:34-35 | without bars the condition means that only the last path may be like that |
| `NinjaLists.WideListRoundTrip` | tools/ninja_syntax.py:170-205 | and every such list is read back at every width above 2 * (indent + 2) + 4, or + 6 if a path has a dollar |
| `NinjaBuilds.BuildRoundTrip` | tools/ninja_syntax.py:97-147 | a build statement is read back, with its outputs, implicit outputs, rule, inputs, implicit and order-only inputs each in its place, at every width exactly under the same condition on either side of the colon, and a width of 6 tells |
| `NinjaBuilds.WideBuildRoundTrip` | tools/ninja_syntax.py:97-147 | and every build statement is read back at every width above 8, or 10 if a path has a dollar |
| `NinjaWraps.KeptIsThin` | tools/ninja_syntax.py:170-205 | wrapping a text of such a shape loses no more than separators between an escaped space and a bar |
| `NinjaNarrow.NarrowFree` | tools/ninja_syntax.py:170-205 | where every line is broken as early as possible, such a path always loses the separator behind it |
| `NinjaPaths.ExpandEscape` | tools/ninja_syntax.py:228-249 | expanding undoes escaping for every text, in the middle of any other text and whatever the variables are |
| `NinjaPaths.ExpandVariable` | tools/ninja_syntax.py:236-249 | a variable with the longest name possible stands for its local value, else its global one, else nothing, in front of any text |
| `Random.FullPeriod` | include/math/iplMathRandom.h:13-16 | from every seed each of the 2^32 states occurs at exactly one of the first 2^32 draws, and the seed recurs exactly at their multiples |
| `Random.PeriodModulo` | include/math/iplMathRandom.h:13-13 | modulo 2^k two draws agree exactly when their distance is a multiple of 2^k |
| `Random.Reaches` | include/math/iplMathRandom.h:13-13 | every residue modulo 2^k is reached within 2^k draws |
| `Random.GeometricValuation` | include/math/iplMathRandom.h:13-13 | 1 + a + ... + a^(n-1) has as many factors of two as n: where the multiplier being 1 modulo 4 counts |
| `Random.StateClosedForm` | include/math/iplMathRandom.h:13-13 | closed form of the n-th state |
| `Random.FirstStates` | include/math/iplMathRandom.h:13-17 | the first states from 0 are those that Numerical Recipes gives for its generator |
| `Random.ByteWindowIsPermutation` | include/math/iplMathRandom.h:18-18 | any 256 consecutive byte draws are a permutation of 0..255 |
| `Random.Generator.GetU8` | include/math/iplMathRandom.h:18-18 | draws once and gives the low byte |
| `Random.Generator.GetU16` | include/math/iplMathRandom.h:19-19 | draws once and gives the upper half |
| `Random.Generator.GetU32` | include/math/iplMathRandom.h:20-20 | draws once and gives the state |
| `Random.Generator.GetF01` | include/math/iplMathRandom.h:22-22 | draws once and gives a number from 0 to 1 in exact arithmetic |
| `Tree.TraversalIsPreorder` | include/utility/iplTree.h:42-59 | from the root of a whole tree the iterator visits the recursive flattening, every node exactly once, and then reaches null |
| `Tree.RowRun` | include/utility/iplTree.h:42-59 | the same for any row of siblings below any ancestors |
| `Tree.StepFollowsPreorder` | include/utility/iplTree.h:42-59 | one step leads from each node to its successor in the flattening |
| `Tree.RunIsUnique` | include/utility/iplTree.h:42-59 | no other sequence of nodes is a walk from that root to null |
| `Tree.PreorderEnumerates` | include/utility/iplTree.h:42-59 | the flattening lists each node once |
| `Tree.Iterator.Next` | include/utility/iplTree.h:42-59 | the loop terminates and computes the successor |
| `Tree.ReverseIterator.Reverse` | include/utility/iplTree.h:78-85 | the loops terminate on the last node of the flattening |
| `Tree.ReverseIterator.constructor` | include/utility/iplTree.h:71-71 | constructing from a root lands on its last node |
| `FatalScreen.ScreenReport` | src/BS2/BS2Fatal.c:51-114 | terminates for every string, writes only inside the frame, and leaves each luma and chroma byte as the texels drawn on its pixels determine |
| `FatalScreen.ScreenClear` | src/BS2/BS2Fatal.c:35-49 | writes luma, Cb, luma, Cr for each two pixels of each row, for odd widths too, and nothing behind them |
| `FatalScreen.ClearExact` | src/BS2/BS2Fatal.c:35-49 | the bytes written are those of the frame exactly when its width is even |
| `FatalScreen.LanesKept` | src/BS2/BS2Fatal.c:35-114 | after clearing and drawing any text, bytes at 1 modulo 4 hold a Cb value and bytes at 3 modulo 4 a Cr value |
| `FatalScreen.InkOfGlyph` | src/BS2/BS2Fatal.c:87-108 | after a character each pixel shows the character's texel there unless that is 0 |
| `FatalScreen.PictureShown` | src/BS2/BS2Fatal.c:88-94 | of a picture of 24 by 24 texels stored in tiles of eight by eight, leftmost texel in the upper four bits, each row and column gives the texel of the picture |
| `FatalScreen.PictureInk` | src/BS2/BS2Fatal.c:87-108 | so after a character each pixel of its cell shows the picture unless that is 0 there |
| `FatalScreen.TextIsGrid` | src/BS2/BS2Fatal.c:60-116 | where the characters of a text go in a font of one width: character k of a line in row k / q and column k mod q of a grid, q as many as start 48 pixels in front of the right edge, down to the last whole line; the text behind a newline goes on below the lines that were taken |
| `FatalScreen.LumaScaled` | src/BS2/BS2Fatal.c:95-95 | luma and texel are scaled together to 16 to 255, rounded down; full white is 255 |
| `FatalScreen.TexelBijection` | src/BS2/BS2Fatal.c:88-93 | rows and columns of a character go to different texels of the 72 words |
| `FatalScreen.TexelOnto` | src/BS2/BS2Fatal.c:88-93 | and every texel of the 72 words is the one of some row and column |
| `FatalScreen.LaneOfByte` | src/BS2/BS2Fatal.c:99-105 | in a frame of even width the parity of the column decides the chroma lane |
| `FatalScreen.LumaFits` | src/BS2/BS2Fatal.c:95-95 | the scaled luma fits eight bits |
| `FatalScreen.DrawTexel` | src/BS2/BS2Fatal.c:93-106 | one texel writes its luma and the two chroma bytes around it, or nothing |
| `FatalScreen.ReportLine` | src/BS2/BS2Fatal.c:62-113 | one line: up to a newline, the right margin or the end of the text, with the image cleared before each character |
| `FatalScreen.FontTexel` | src/BS2/BS2Fatal.c:78-88 | drawing the font's bits into a cleared image leaves the character's texels |
| `FatalScreen.ClearImage` | src/BS2/BS2Fatal.c:78-83 | the clearing loop clears all 72 words |
| `MessagePool.Pool.SendTypedMessage` | include/iplwww/www_message.h:42-66 | accepted exactly while a slot is free; then the message is last in the queue, which never refuses; free slots and queue length add up to a constant |
| `MessagePool.Pool.TryReceiveTypedMessage` | include/iplwww/www_message.h:67-85 | delivers the oldest message not yet delivered, once; the error report is unreachable |
| `MessagePool.Pool.constructor` | include/iplwww/www_message.h:37-40 | an empty pool whose free slots are those the memset has cleared, for values of any size and alignment |
| `MessagePool.AllFreeExact` | include/iplwww/www_message.h:32-40 | all eight slots start free whatever the memory held exactly when the memset, which counts in values, reaches the eighth tag, with the entries padded as the compiler pads them |
| `MessagePool.SlotFreeExact` | include/iplwww/www_message.h:32-40 | a slot starts free exactly when the bytes of its tag behind the ones cleared happened to be zero |
| `MessagePool.FreeUpdate` | include/iplwww/www_message.h:52-61 | changing a tag changes the free count by that slot |
| `MessagePool.InFlightAppend` | include/iplwww/www_message.h:57-61 | a newly taken slot keeps the queued slots distinct and taken |
| `FreeListStack.Stack.Push` | include/utility/iplStack.h:82-93 | succeeds exactly below capacity and puts the element on top; both chains still partition the blocks |
| `FreeListStack.Stack.Pop` | include/utility/iplStack.h:67-80 | succeeds exactly when something is held and returns the bytes of the most recent push |
| `FreeListStack.Stack.Init` | include/utility/iplStack.h:59-65 | gives a valid empty stack when elements are whole words or there is one block |
| `FreeListStack.Stack.InitFreeList` | include/utility/iplStack.h:19-32 | links all blocks into one chain |
| `FreeListStack.Stack.Get` | include/utility/iplStack.h:34-41 | takes the first block off the free chain, or nothing |
| `FreeListStack.Stack.Release` | include/utility/iplStack.h:42-45 | puts a block in front of the free chain |
| `FreeListStack.LayoutExact` | include/utility/iplStack.h:19-28 | blocks do not overlap exactly when elements are whole words or there is only one block |
| `FreeListStack.NeighbourCorrupted` | include/utility/iplStack.h:82-93 | for every other element size some element stored in a block changes the next block's link |
| `FreeListStack.PushKeeps` | include/utility/iplStack.h:82-93 | moving a block from the free chain to the stack keeps partition, chains and contents |
| `FreeListStack.PopKeeps` | include/utility/iplStack.h:67-80 | moving it back does too |
| `Calendar.Date.Greater` | include/utility/iplCalendar.h:40-55 | the order of dates, which for valid ones is the order of the day count |
| `Calendar.Date.Less` | include/utility/iplCalendar.h:57-72 | the opposite order |
| `Calendar.GetTomorrow` | include/utility/iplCalendar.h:95-107 | computes the following date, also in place |
| `Calendar.GetYesterday` | include/utility/iplCalendar.h:108-119 | computes the preceding date, also in place |
| `Calendar.GetNextMonth` | include/utility/iplCalendar.h:150-158 | the first day of the next month, as a distance in days, whatever the day |
| `Calendar.GetLastMonth` | include/utility/iplCalendar.h:160-171 | the last day of the month before, as a distance in days, whatever the day |
| `Calendar.TomorrowCounts` | include/utility/iplCalendar.h:95-107 | keeps dates valid and moves the day count on by one |
| `Calendar.YesterdayCounts` | include/utility/iplCalendar.h:108-119 | keeps dates valid and moves the day count back by one |
| `Calendar.StepsAreInverse` | include/utility/iplCalendar.h:95-119 | the two steps undo each other |
| `Calendar.DayOrder` | include/utility/iplCalendar.h:57-72 | the lexicographic order is the order of the day count |
| `Calendar.DayNumberInjective` | include/utility/iplCalendar.h:38-38 | different valid dates have different day numbers |
| `Calendar.AfterReaches` | include/utility/iplCalendar.h:95-107 | the difference of the counts is the only number of tomorrows from one date to the other |
| `Calendar.YearLength` | include/utility/iplCalendar.h:121-128 | a year has 366 days exactly when the leap rule says so |
| `Calendar.GetWeek` | include/utility/iplCalendar.h:142-148 | gives the day of the week of the day count from year 1 on |
| `Calendar.WeekExact` | include/utility/iplCalendar.h:130-148 | exactly for which dates of all years the formula with C division gives the day of the week: from March of year 0 on, and before that in leap years (counted from March) on Sundays and on the latest days of the last of them |
| `Calendar.WeekAdvances` | include/utility/iplCalendar.h:130-140 | n tomorrows shift the weekday by n modulo 7 |
| `Calendar.CenturiesRepeat` | include/utility/iplCalendar.h:130-140 | the calendar repeats after 400 years, 146097 days |
| `IncludeFlattener.Flattener.ProcessFile` | tools/decompctx.py:77-110 | terminates, and output, definitions and dependencies are those of the depth-first expansion that threads the set of guards |
| `IncludeFlattener.Flattener.ImportH` | tools/decompctx.py:50-60 | the first existing candidate is brought in, or nothing |
| `IncludeFlattener.Flattener.ImportC` | tools/decompctx.py:63-74 | the file is noted as a dependency and expanded, from the first encoding that can be read |
| `IncludeFlattener.OnceEach` | tools/decompctx.py:77-90 | a guarded body is begun exactly once if its guard is set on the way and not at all otherwise, and the file's own guard is set at the end |
| `IncludeGuards.LeftOutExact` | tools/decompctx.py:77-90 | exactly which included files are left out, told from their guards and the output before: with an ifndef guard, if the macro was defined or a file that sets it was opened before; with pragma once, if the file was opened before; all others are opened |
| `IncludeGuards.DefinesExact` | tools/decompctx.py:77-90 | the definitions at the end are those at the beginning and the macros and paths that the opened files set |
| `IncludeGuards.LinesInOrder` | tools/decompctx.py:77-110 | the output of a file that is not left out shows each of its lines once and in order, an include as the comment that announces it |
| `IncludeGuards.IncludesInOrder` | tools/decompctx.py:77-110 | and so does what stands between the two comments of any include in it, however deep: nothing, or each line of the included file |
| `IncludeGuards.IncludeFinds` | tools/decompctx.py:50-60 | an include stands for the first of its paths that exists; an excluded one leaves a note and one that is not found nothing |
| `IncludeFlattener.DepsExact` | tools/decompctx.py:65-65 | the dependencies are what the includes in the output brought in, in order |
| `IncludeFlattener.RankedExact` | tools/decompctx.py:77-110 | the order of files that gives termination exists exactly when no unguarded files form a cycle of includes |
| `IncludeFlattener.TrapNeverEnds` | tools/decompctx.py:77-110 | from a file of such a cycle the expansion never ends, however deep it is followed |
| `IncludeFlattener.FuelAgrees` | tools/decompctx.py:77-110 | where a depth-limited expansion ends it is the expansion |
| `BootFlags.Console.UpdateStateFlagsAndBootCache` | src/BS2/BS2.c:190-332 | what one boot concludes from the stored record, and the BAD record it leaves |
| `BootFlags.Console.ShutdownSequence` | src/BS2/BS2.c:1009-1081 | when the sequence ends the session, with what record, and otherwise which flags hold after it |
| `BootFlags.ExactlyOne` | src/BS2/BS2.c:1009-1081 | after the sequence exactly one of boot-from-cache and boot-caching holds |
| `BootFlags.NeverBoth` | src/BS2/BS2Mach.c:106-180 | no later step makes both true or boot-from-cache true again |
| `BootFlags.StaysBad` | src/BS2/BS2Reset.c:265-285 | the record says BAD until a reset function overwrites it |
| `BootFlags.AbruptIsInvalid` | src/BS2/BS2.c:232-237 | a session without such a write makes the next boot invalid, not from the cache, with the drive reset |
| `BootFlags.NextInvalidExact` | src/BS2/BS2.c:199-237 | exactly when the next boot takes the last session for invalid |
| `BootFlags.PurposeInherited` | src/BS2/BS2.c:232-270 | what a session asks for when it ends the next one does: it goes to the menu, to the data manager, to idle or to a title exactly as the trusted shutdown type says |
| `BootFlags.StandbyIdles` | src/BS2/BS2Reset.c:92-157 | a console switched off by the user goes to idle with the next boot exactly if it has standby, in a console whose record is trusted |
| `BootFlags.IdleOnce` | src/BS2/BS2Reset.c:159-220 | the session that shifts to idle leaves a record that leads neither to idle nor to the menu again |
| `BootFlags.WaitsExact` | src/BS2/BS2.c:1009-1081 | a session goes on without waiting for the drive exactly when it boots from the cache and was not asked to the menu |
| `BootFlags.DiscStateLeft` | src/BS2/BS2Reset.c:57-90 | the record left says that the disc is in exactly after a session from the cache with the cover closed and the RTC flags clear, keeps the menu mode, and has the cache bit exactly after a session from the cache |
| `BootFlags.AppTypeRead` | src/BS2/BS2.c:207-230 | disc bit, cache bit and mode of the application type are told apart |
| `BootFlags.CacheInheritedExact` | src/BS2/BS2.c:285-296 | exactly when a session boots from the cache, in terms of how the one before ended and what this one meets |
| `BootFlags.CacheNeverArises` | src/BS2/BS2.c:190-332 | over every history from a record without the cache bit no session boots from the cache |
| `BootFlags.Console.RebootSystem` | src/BS2/BS2Reset.c:57-90 | the record a reboot leaves |
| `BootFlags.Console.ShutdownSystem` | src/BS2/BS2Reset.c:92-157 | the record a shutdown leaves |
| `BootFlags.Console.ShutdownSystemForBS` | src/BS2/BS2Reset.c:159-220 | the record a shutdown from the boot program leaves |
| `BootFlags.Console.ReturnToMenu` | src/BS2/BS2Reset.c:222-263 | the record a return to the menu leaves |
| `BootFlags.Console.SetStateFlags` | src/BS2/BS2Reset.c:265-285 | the record before a title is launched |
| `BootFlags.Console.NANDCallback` | src/BS2/BS2Mach.c:106-118 | a failed access to the cache file clears both flags |
| `BootFlags.Console.RestartStateMachine` | src/BS2/BS2Mach.c:161-180 | RTC flags switch to caching |
| `TitleTables.Disc.GetLockedTitles` | src/BS2/BS2Mach.c:309-380 | the counting pass gives the number of locked partitions of both tables; the filling pass writes the first min(k, n) of their titles in table order and nothing else; other states are refused |
| `TitleTables.Disc.IsTitleAvailable` | src/BS2/BS2Mach.c:382-408 | true exactly for titles whose lower half is the type of some partition |
| `TitleTables.Disc.StartLoadingTitle` | src/BS2/BS2Mach.c:457-499 | notes the ticket, selects the first partition of the title's type, in the first table or else in the second, moves the state by the cache flag, to one that refuses further queries, and clears both flags; without such a partition only the ticket is noted, and nothing in other states |
| `TitleTables.TwoPasses` | src/BS2/BS2Mach.c:309-380 | the counted number is the least that makes the filling pass complete |
| `TitleTables.TitlesAvailable` | src/BS2/BS2Mach.c:309-408 | every title the filling pass yields is available, and loading it selects a locked partition with that title |
| `TitleTables.AllYielded` | src/BS2/BS2Mach.c:309-380 | every locked partition's title is yielded, behind those of the locked partitions in front of it |
| `TitleTables.YieldedExact` | src/BS2/BS2Mach.c:309-380 | a title of disc type is yielded exactly when some partition has its lower half as type and one of the upper eight bits of that is set |
| `TitleTables.FillTable` | src/BS2/BS2Mach.c:345-374 | one table's loop of the filling pass |
| `TitleTables.CountTable` | src/BS2/BS2Mach.c:319-341 | one table's loop of the counting pass |

## Left out

- Hardware, DVD, NAND, ES, EXI, VI and sound library calls: their answers are parameters (the boot
  flags' `Start` and `Closing`, the font, the result of `Setup`, what division by zero leaves).
- Wrap-around of cursors and sizes at 2^32 in the loaders and validators, apart from the search
  (`ChunkReader.Search32Exact`): files are taken not to reach the end of the address space.
- Floating point: sampling rates are exact numbers, `pow2` and `decodeIeeeExtended` without rounding;
  the coefficients of `RGB2YUV` and its clamps; infinities and NaN in the 80-bit rate.
- WavePlayer.SimpleWavePlayer.SetData: asks for what the player's arithmetic and arrays can take: one or
  two channels, samples of less than 2^31 bytes that end below 2^32, and in an AIFF file no loop start
  whose jump goes behind the last frame, from where the source passes a negative count to `memcpy_s`.
  Any other negative start is played. After a failed call on the file object in use nothing is said about
  further packets.
- WavePlayer.SimpleWavePlayer.MakeWave: what the first frame of a packet is where nothing is read (behind
  the end of a looped file that was restarted out of step, or at a jump's target that is NULL or behind
  the end), since the source's local buffer then holds what was in memory.
- WavePlayer.SimpleWavePlayer.MakeWaveProc: the waiting for messages and the moments at which other
  threads run; the messages received are a parameter.
- WaveFile.WaveFile.ReadData: in an AIFF file a negative count, which the source copies as a huge one.
- WaveFile.WaveFile.CopyWords: stands for the call of `memcpy_s`, which `MemCopy.MemcpyS` proves to be a
  byte copy.
- MemCopy.MemcpyS: buffers that overlap so that the copy overwrites its own source.
- NinjaLists.ListRoundTrip: paths with a dollar that is not in front of a space, which `escape_path` leaves
  to Ninja as a variable, with a bar, which is an item of its own for Ninja, or without characters.
- NinjaBuilds.BuildRoundTrip: the same paths, and the lines of variables behind the statement.
- NinjaPaths.ExpandEscape: word characters are the ASCII ones.
- FatalScreen.ScreenReport: negative start positions; a start in row 0 and column 0, where the source
  touches the byte in front of the frame, and column 0 in frames of odd width.
- FatalScreen.TextIsGrid: fonts whose characters differ in width; what is drawn of them is `TextDots`.
- MessagePool.Pool.SendTypedMessage: pools of fewer than eight entries, whose loop would look behind
  the buffer; blocking of threads.
- FreeListStack.Stack.Init: a count of 0, where the source writes in front of the buffer.
- Calendar.GetTomorrow: months outside 1 to 12, for which the source reads behind its table.
- BootFlags.Console.UpdateStateFlagsAndBootCache: copying of arguments from NANDBOOTINFO and the writing of
  a new cache file, neither of which touches the flags.
- BootFlags.Console.ShutdownSequence: the waiting loops around an ejected disc.
- IncludeFlattener.Flattener.ImportC: exceptions from inside the expansion, such as Python's limit on
  recursion; files that neither encoding can read.
- IncludeFlattener.Flattener.ProcessFile: reading files, the regular expressions and
  path arithmetic, which classify the lines and name the candidates; the prelude of definitions.
- `HasTitleInstalled`, `iplQueue.h` and `PaneFifo`: they would only add easy members.
- Scenes, channels, keyboard, layout and the other classes of which only headers exist.
- Build plumbing, downloads and formatting scripts: no state worth a theorem.
