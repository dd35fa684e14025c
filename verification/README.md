# OpenRef in Dafny

OpenRef is firmware and tooling for a six-node radio voice system. This project models its stateful core and
proves what that core promises: jitter-buffered playout and mixing, the audio link frame, crash-safe records and
boot state, update staging, the replay window and secure transport, coordinator election and slot timing, the
channel simulator, and two offline checkers.

Most components come as a specification module over values, with its theorems, and a second module in the
source's own form (classes, buffers, loops) whose methods are proved against that specification. Machine words
are bounded integers with wrap-around written out (`Words`); exclusive or is defined bit by bit (`WordXor`).

| component | specification and theorems | in memory |
|---|---|---|
| playout, capture, mixer, pipeline, benchmark | `AudioPlayout`, `AudioPlayoutWindow`, `AudioPlayoutPush`, `AudioCapture`, `AudioMixer`, `AudioClipping`, `BenchmarkCount`, `BenchmarkCapture`, `BenchmarkResult`, `AudioBenchmark` | `AudioPlayoutRing`, `AudioCapture.CaptureUnit`, `AudioPipeline`, `AudioMixer.Mixer`, `AudioBenchmark.Rig`, `BenchmarkResult.Statistics` |
| checksums and link frame | `ShiftRegister`, `BitBurst`, `Crc`, `CrcDivision`, `AudioLink`, `AudioLinkTrailer` | `Crc`, `AudioLinkDevice` |
| records and boot state | `TwoSlotStore`, `ConfigRecord`, `ConfigTrailer`, `BootPolicy`, `BootStateCodec` | `ConfigStore`, `BootPolicy.BootRecord`, `BootStateStore` |
| update | `UpdateVerifier`, `UpdateStager` | `UpdateDevice` |
| security | `ReplayWindow`, `ReplayExact`, `PacketCodec`, `SecureTransport`, `SecureLink`, `BootCounter` | `ReplayWindow.ReplayState`, `SecureTransportDevice`, `BootCounter.CounterStore` |
| network | `Coordinator`, `Heartbeats`, `SilentElection`, `Tdma`, `SequenceAccounting` | `NetworkNode` |
| simulator | `SharedMedium`, `VoiceSimulation`, `VoiceChannel`, `VoiceSlots`, `VoiceScenario`, `VoiceAccounting`, `VoiceService` | `Simulator` |
| byte layouts | `WireFormats` | the modules above |
| checkers | `FlashLayout`, `EdgePairing` | the same |

Where the code does not keep a promise in full, the exact condition under which it does is proved for all inputs,
and a concrete input stands beside it:

- playout follows its clock, whatever is pushed, if and only if no packet waiting at the start is more than half the
  sequence circle behind the first (`AudioPlayoutWindow.FollowsClockExactly`; the queue of `WideWindowMisses` is not);
- a packet accepted while the clock runs is handed over at its own position if and only if fewer than four are accepted
  after it (`AudioPlayoutPush.AcceptedIsPlayedExactly`), except one accepted when its position is already half played,
  which is dropped (`AudioPlayoutPush.HalfPlayedIsDropped`);
- a packet accepted once is accepted again if and only if the replay window has moved out of its reach
  (`ReplayExact.TakenAgainExactly`, `ReplayExact.WideSpanTakesReplay`), so a protected packet is delivered at most once
  if and only if none arrives again that late (`SecureLink.AtMostOnceExactly`);
- the benchmark validator's closed form is right if and only if its drift is the same at both ends of the measured
  interval (`BenchmarkCount.ClosedFormExactly`): always before 16-bit packet numbers repeat, not always after
  (`BenchmarkCount.ClosedFormFailsPastEra`), and for the published run;
- two adjacent damaged bytes of a link frame are always detected if and only if they are not the last payload byte and
  the first checksum byte (`AudioLinkTrailer.DamageRejectedExactly`), while in stored records any thirty-two
  consecutive bits are detected everywhere (`ConfigTrailer.BurstIsRejected`);
- after two failed saves in a row a load may find the earlier one: it finds the last commit or the last attempt if and
  only if the client loads in between, the generations are used up, or the earlier payload and any record an earlier
  failure left are among those anyway (`TwoSlotStore.KnownExactly`, `TwoSlotStore.KnownExactlyAfterReload`); and a store that saves before it has loaded loses the save if and only if
  the second slot holds a later record of something else (`TwoSlotStore.UnloadedSaveExactly`);
- the image an update made pending survives if and only if every later call is a begin
  (`UpdateStager.PendingImageSurvivesExactly`);
- the view of epoch and coordinator falls back exactly at a tick in the last epoch at which an election is due
  (`Coordinator.ViewNeverFalls`, `Coordinator.LastEpochWraps`);
- the slot returned is the node's next one if and only if nothing overflows (`Tdma.NextSlotIsLeast`,
  `Tdma.LateSlotWraps`);
- a block never clips, whatever the gain before it, if and only if its peak stays below full scale at the gain one
  release step after the one requested for it (`AudioClipping.ClippingExactly`): that is every peak up to 74291,
  twenty-four more up to 74338 and none above (`AudioClipping.SafePeaksExactly`); 74292 clips
  (`AudioClipping.OvershootCanClip`).

`dafny verify dfyconfig.toml` checks the whole project.

## Model

| member | source | states |
|---|---|---|
| AudioPlayout.PlayoutRefinesClock | firmware/audio_processor/common/openref_audio_playout.c:33-140 | once a source whose waiting packets lie at most half the sequence circle behind the first one starts playing, every later call, whatever is pushed in between, yields what a simple clock prescribes: the due half of the packet queued for that position when the position was loaded, and concealment otherwise |
| AudioPlayoutWindow.FollowsClockExactly | firmware/audio_processor/common/openref_audio_playout.c:6-140 | and that condition is exact: for any queue built up since power-up, all continuations yield the prescribed outputs if and only if no waiting packet is more than half the circle behind the first |
| AudioPlayoutWindow.WideQueueMisses | firmware/audio_processor/common/openref_audio_playout.c:6-79 | for every wider queue there is a continuation of pushes and calls with an output the clock does not prescribe |
| AudioPlayout.NextFollowsClock | firmware/audio_processor/common/openref_audio_playout.c:81-140 | the same from any state between packets whose queue is in order, or whose clock has just been set |
| AudioPlayout.ClockPosition | firmware/audio_processor/common/openref_audio_playout.c:81-140 | after n calls the clock stands at packet s0 + n div 2 and half n mod 2, modulo 2^16, whatever was pushed |
| AudioPlayout.PositionsAreFresh | firmware/audio_processor/common/openref_audio_playout.c:133-138 | no two calls fewer than 2^17 apart are for the same packet half, so nothing is played twice or out of order |
| AudioPlayout.EveryCallIsCounted | firmware/audio_processor/common/openref_audio_playout.c:81-140 | frames delivered plus frames concealed grow by exactly the number of calls |
| AudioPlayout.PushKeepsOrder | firmware/audio_processor/common/openref_audio_playout.c:33-79 | a push, accepted or not, leaves the queue strictly ordered within half the circle ahead of the position loaded next |
| AudioPlayout.NextKeepsOrder | firmware/audio_processor/common/openref_audio_playout.c:81-140 | so does a call |
| AudioPlayout.OrderedRun | firmware/audio_processor/common/openref_audio_playout.c:33-140 | so does any run of both |
| AudioPlayoutPush.PushAcceptsExactly | firmware/audio_processor/common/openref_audio_playout.c:33-79 | which packets are accepted, started or not, by distance on the sequence circle alone: those that, once the clock runs, are due or less than half the circle ahead of it, are not queued, and are less than half the circle after the last one queued; then the queue is the old one and the packet, without the oldest if it held four; any other leaves it alone; each push is counted as what it was |
| AudioPlayoutPush.AfterLastIsNew | firmware/audio_processor/common/openref_audio_playout.c:48-68 | on an ordered queue being after the last one already means not being queued |
| AudioPlayoutPush.AcceptedIsPlayedExactly | firmware/audio_processor/common/openref_audio_playout.c:33-140 | a packet accepted while the clock runs, unless its own position is already half played, is loaded and handed over at the call for the first half of its own position, whatever else is pushed, if and only if fewer than four packets are accepted after it |
| AudioPlayoutPush.HalfPlayedIsDropped | firmware/audio_processor/common/openref_audio_playout.c:33-140 | a packet whose position is half played is accepted too, and dropped by the next load |
| AudioPlayoutPush.SecondHalfFollows | firmware/audio_processor/common/openref_audio_playout.c:81-140 | and the call after that, whatever is pushed in between, is for its second half |
| AudioPlayout.StartsAtTheFront | firmware/audio_processor/common/openref_audio_playout.c:90-114 | the first call with packets waiting starts the clock at the oldest and hands that one over; with none waiting it conceals and starts nothing |
| AudioPlayout.FrontFindsDuePacket | firmware/audio_processor/common/openref_audio_playout.c:11-24 | dropping stale packets and looking only at the front finds the packet of the due position exactly when it is queued anywhere, and removes it for good |
| AudioPlayout.CurrentIsTheLoadedPacket | firmware/audio_processor/common/openref_audio_playout.c:103-114 | between its two halves the current packet is the one queued for the position when it was loaded |
| AudioPlayout.UnstartedQueueIsChained | firmware/audio_processor/common/openref_audio_playout.c:33-79 | before the first call each queued packet is after its predecessor, which is all the circular comparison gives |
| AudioPlayout.ChainedWindowIsOrdered | firmware/audio_processor/common/openref_audio_playout.c:6-9 | such a chain within half the circle of its head is totally ordered, as seen from the position after the head |
| AudioPlayoutWindow.WideWindowMisses | firmware/audio_processor/common/openref_audio_playout.c:6-24 | so the queue 0, 30000, 60000, 1, which pushes alone build, does not follow the clock |
| AudioPlayoutWindow.WideWindowHidesDuePacket | firmware/audio_processor/common/openref_audio_playout.c:6-24 | there packet 1 is concealed at its own position although it is queued |
| AudioPlayoutWindow.WideWindowIsReachable | firmware/audio_processor/common/openref_audio_playout.c:33-79 | the pushes that build that queue |
| AudioPlayoutRing.PacketRing.DiscardStaleFront | firmware/audio_processor/common/openref_audio_playout.c:11-24 | the loop over the ring drops exactly the stale packets at the front |
| AudioPlayoutRing.Source.Push | firmware/audio_processor/common/openref_audio_playout.c:33-79 | the four-entry ring is updated as the abstract queue is: accept, duplicate or stale, overwriting the oldest when full; which of these is settled by AudioPlayoutPush.PushAcceptsExactly |
| AudioPlayoutRing.Source.Next | firmware/audio_processor/common/openref_audio_playout.c:81-140 | the ring, clock and current packet are updated as the abstract call, with the same output |
| Rings.RingAppend | firmware/audio_processor/common/openref_audio_playout.c:70-76 | storing at (head + count) modulo 4 appends to the ring's contents |
| AudioMixer.GainStaysInRange | firmware/audio_processor/common/openref_audio_mixer.c:94-105 | the limiter gain never leaves [6000, 32768], for any peak five full-scale sources can reach |
| AudioMixer.LimiterBound | firmware/audio_processor/common/openref_audio_mixer.c:94-111 | after a block with pre-limit peak P every sample before saturation has magnitude at most the larger of 30000 and 28125 + P/16 rounded up |
| AudioMixer.ReleaseOvershoot | firmware/audio_processor/common/openref_audio_mixer.c:94-104 | releasing a sixteenth of the way to unity overshoots the requested gain by no more than that |
| AudioMixer.SafeNeverClips | firmware/audio_processor/common/openref_audio_mixer.c:94-111 | a block whose peak stays below full scale at the gain one release step after the one requested for it clips nothing, whatever the gain before it |
| AudioClipping.ClippingExactly | firmware/audio_processor/common/openref_audio_mixer.c:85-111 | and that condition is exact: for every peak five sources can reach, no block with that peak clips under any gain in range, as mixed samples or as sources produce them, if and only if the peak is safe in this sense |
| AudioClipping.SecondBlockClips | firmware/audio_processor/common/openref_audio_mixer.c:62-111 | for every other peak there is a block of sources that a limiter at unity limits without clipping, and clips in every sample when it comes again, because the release overshoots the gain the first one set |
| AudioClipping.SafePeaksExactly | firmware/audio_processor/common/openref_audio_mixer.c:94-104 | the safe peaks are those up to 74291, twenty-four more up to 74338 and none above |
| AudioClipping.NoClippingBelowOvershoot | firmware/audio_processor/common/openref_audio_mixer.c:94-111 | so no sample of a block with one of those peaks clips |
| AudioClipping.OvershootCanClip | firmware/audio_processor/common/openref_audio_mixer.c:62-111 | and 74291 is sharp: a block of five sources at the default gains with peak 74292, played twice from unity gain, clips not at all the first time and in every sample the second time |
| AudioClipping.PlayLoudBlockTwice | firmware/audio_processor/common/openref_audio_mixer.c:52-112 | a mixer as it is made does so: after two calls with that block every sample of the second is counted as clipped |
| AudioMixer.PeakBounds | firmware/audio_processor/common/openref_audio_mixer.c:85-92 | the peak is the magnitude of the loudest mixed sample |
| AudioMixer.MixedIsSum | firmware/audio_processor/common/openref_audio_mixer.c:62-75 | a mixed sample is the sum of five contributions: each unmasked source by its gain |
| AudioMixer.LoneSourceIsHeard | firmware/audio_processor/common/openref_audio_mixer.c:52-112 | a single source at unity gain and no louder than the limit is put out unchanged, and the limiter stays at unity |
| AudioMixer.SaturateIsNearest | firmware/audio_processor/common/openref_audio_mixer.c:14-25 | a clipped sample becomes the 16-bit value nearest to it, of the same sign |
| AudioMixer.Mixer.Accumulate | firmware/audio_processor/common/openref_audio_mixer.c:62-75 | the nested loops compute the gain-weighted sum of the unmasked sources |
| AudioMixer.Mixer.Peak | firmware/audio_processor/common/openref_audio_mixer.c:85-92 | the scan finds that magnitude |
| AudioMixer.Mixer.UpdateGain | firmware/audio_processor/common/openref_audio_mixer.c:94-105 | attack at once to the requested gain, else release by a sixteenth |
| AudioMixer.Mixer.WriteLimited | firmware/audio_processor/common/openref_audio_mixer.c:107-111 | every output sample is the limited mixed sample saturated, and every saturation is counted |
| AudioMixer.Mixer.Process | firmware/audio_processor/common/openref_audio_mixer.c:52-112 | a whole block: output, gain, peak and clipping count, including the silent block; nothing clips at a safe peak |
| AudioMixer.Mixer.SetSourceGain | firmware/audio_processor/common/openref_audio_mixer.c:39-50 | one source gain changes, if index and gain are in range |
| AudioPipeline.PlayoutBank.Push | firmware/audio_processor/common/openref_audio_playout.c:33-79 | a remote audio frame reaches exactly the jitter buffer of its source |
| AudioPipeline.PlayoutBank.Next | firmware/audio_processor/common/openref_audio_playout.c:81-140 | a call changes only the source it names |
| AudioPipeline.Pipeline.IngestRemote | firmware/audio_processor/common/openref_audio_pipeline.c:25-34 | frames of the local source or of another kind are refused and change nothing; others are pushed to their source |
| AudioPipeline.DecoderIsHanded | firmware/audio_processor/common/openref_audio_pipeline.c:48-66 | a render step calls every source but the local one exactly once, and hands the decoder of each exactly the codec frame or concealment that playout prescribes for it |
| AudioPipeline.Pipeline.RenderSources | firmware/audio_processor/common/openref_audio_pipeline.c:47-67 | the render loop, source by source: fetch, decode, mask out and count the decoders that fail |
| AudioPipeline.Pipeline.Render | firmware/audio_processor/common/openref_audio_pipeline.c:36-71 | a render step advances every remote jitter buffer by one call, and puts out the limited mix of what the decoders make of the frames they are handed, silence where they fail; failures are counted |
| AudioBenchmark.EvenCall | firmware/audio_processor/benchmark/openref_audio_benchmark.c:85-114 | the call of an even block hands over the first half of the packet just queued, byte for byte, and leaves that packet loaded with its second half due |
| AudioBenchmark.OddCall | firmware/audio_processor/benchmark/openref_audio_benchmark.c:85-114 | the call of an odd block hands over the second half of the loaded packet, or conceals it if it is flagged missing, and leaves the clock at the next packet |
| AudioBenchmark.RenderAdvances | firmware/audio_processor/common/openref_audio_pipeline.c:48-67 | rendering one block takes every source of the benchmark from one block to the next and hands each decoder exactly the due half of its source's packet, or a concealment where that half was dropped |
| AudioBenchmark.Rig.QueueRemotePackets | firmware/audio_processor/benchmark/openref_audio_benchmark.c:85-114 | on even blocks one packet per remote source is queued, with the last codec frame encoded so far in both halves, and never refused |
| AudioBenchmark.Rig.Process | firmware/audio_processor/benchmark/openref_audio_benchmark.c:188-200 | one pass of the runtime with any codec results never fails, keeps the block invariant, and hands the decoders exactly what the blocks recorded so far prescribe |
| AudioBenchmark.Rig.TakeBlock | firmware/audio_processor/common/openref_audio_runtime.c:41-56 | a block is marked as following an interruption exactly when it is not one interval after the block before it, on the wrapping 32-bit clock |
| AudioBenchmark.Rig.Record | firmware/audio_processor/common/openref_audio_runtime.c:41-63 | capture's state and queue become those of submitting that block, with its codec frame, mark and time; it is never refused |
| BenchmarkCapture.NoFrameIsInterrupted | firmware/audio_processor/benchmark/openref_audio_benchmark.c:188-200 | over a benchmark run, whatever encoding yields, one frame is made of every two blocks, numbered and timed by the first of them, and none is marked as following an interruption |
| BenchmarkCapture.FollowsOn | firmware/audio_processor/common/openref_audio_runtime.c:41-63 | one more block of a run is not marked, and capture then holds what the longer run makes, its four newest frames queued |
| AudioBenchmark.Benchmark.TallyConcealed | firmware/audio_processor/benchmark/openref_audio_benchmark.c:64-83 | whatever decoders conceal, they are counted only in the measured interval, saturating at the largest 32-bit count |
| AudioBenchmark.Benchmark.CountDecodeFailures | firmware/audio_processor/benchmark/openref_audio_benchmark.c:78-82 | the decode hook's failures in a block are those of the decoders on what they are handed |
| BenchmarkResult.Statistics.CountFailures | firmware/audio_processor/benchmark/openref_audio_benchmark.c:53-82 | failures of every block, warm-up included, are counted, saturating |
| BenchmarkResult.Statistics.CountTimes | firmware/audio_processor/benchmark/openref_audio_benchmark.c:202-216 | times of every measured block, read from a clock that may wrap, enter the sums, maxima and deadline misses |
| BenchmarkResult.SumFits | firmware/audio_processor/benchmark/openref_audio_benchmark.c:204-206 | the 64-bit sums never overflow, for any number of blocks and any clock readings |
| BenchmarkResult.Statistics.SetAverages | firmware/audio_processor/benchmark/openref_audio_benchmark.c:119-126 | the averages are the sums over the measured blocks divided and rounded down, and never exceed the maxima, so their 32 bits suffice |
| BenchmarkResult.NoMissesExactly | firmware/audio_processor/benchmark/openref_audio_benchmark.c:133-134 | the verdict's two conditions on time say the same: no miss, a maximum within the budget, and every measured block within the budget |
| BenchmarkResult.NoFailuresExactly | firmware/audio_processor/benchmark/openref_audio_benchmark.c:130-131 | the saturated failure counts are zero exactly if no block failed |
| AudioBenchmark.Benchmark.Step | firmware/audio_processor/benchmark/openref_audio_benchmark.c:178-222 | every step of an unfinished run succeeds, plays one block and records what its hooks did with what they were handed; neither exit that counts a process failure is ever taken |
| AudioBenchmark.Benchmark.Run | firmware/audio_processor/benchmark/openref_audio_benchmark.c:178-242 | running to completion counts exactly the concealed blocks of the measured interval; that is the validator's closed form if and only if its drift is the same at both ends of the interval, and 927 for the canonical parameters; a whole run passes if and only if something was concealed, the hooks encoded every block and decoded everything they were handed, and every measured block kept to its budget; no frame captured on the way is marked as following an interruption |
| AudioBenchmark.CleanRunExactly | firmware/audio_processor/benchmark/openref_audio_benchmark.c:127-136 | the figures kept of a whole run are clean if and only if the hooks were, block by block, each decoder on exactly what the run hands it |
| AudioBenchmark.BlockConceals | firmware/audio_processor/benchmark/openref_audio_benchmark.c:99-104 | of what a run hands its decoders for a block only the second half of a dropped packet is a concealment |
| BenchmarkCount.ClosedFormExactly | tools/validate_audio_benchmark_result.py:30-41 | the exact condition on warmup, length and period: the closed form counts the concealed blocks one by one if and only if it has gone wrong by the same amount below both ends of the interval, where the amount is a difference of quotients |
| BenchmarkCount.ClosedFormCounts | tools/validate_audio_benchmark_result.py:30-41 | so it is right for every warmup, length and period up to 131072 blocks |
| BenchmarkCount.MeasuredCount | firmware/audio_processor/benchmark/openref_audio_benchmark.c:64-114 | for any length at all the count is the difference of two cumulative counts that allow for the 16-bit packet number |
| BenchmarkCount.CanonicalRun | tools/validate_audio_benchmark_result.py:20-44 | the published parameters give 927 both ways, although that run is longer than one packet-number period |
| BenchmarkCount.ClosedFormFailsPastEra | tools/validate_audio_benchmark_result.py:30-41 | and wrong for 131074 blocks with period 1 |
| AudioCapture.FramesCarryPairs | firmware/audio_processor/common/openref_audio_capture.c:21-70 | however encoding succeeds or fails, link frame k carries blocks 2k and 2k + 1 and nothing else is sent: numbered from the initial sequence modulo 2^16, silence and a clear flag for a block that failed, the first block's time, any discontinuity |
| AudioCapture.BlockIsHeard | firmware/audio_processor/common/openref_audio_capture.c:21-70 | a captured block, sent in its frame, is what playout hands the decoder for that half of that packet, or a request to conceal |
| AudioCapture.CaptureUnit.Submit | firmware/audio_processor/common/openref_audio_capture.c:21-70 | the pending buffer, flags and queue are updated as the abstract capture, a full queue gives up its oldest frame, and a submission never fails |
| WordXor.XorBits | firmware/common/openref_audio_link.c:58-63 | exclusive or sets a bit exactly when one operand has it |
| ShiftRegister.StepsLinear | firmware/common/openref_audio_link.c:59-63 | any number of checksum steps is linear over exclusive or |
| ShiftRegister.StepsInjective | firmware/common/openref_audio_link.c:59-63 | and one to one |
| BitBurst.FeedIsSteps | firmware/common/openref_audio_link.c:51-66 | feeding a register as many bits as it has, one at a time, is placing them all at once and stepping |
| BitBurst.WindowTells | firmware/common/openref_audio_link.c:51-66 | through a window no wider than the register, different bits lead from one state to different states |
| BitBurst.BurstChanges | firmware/common/openref_audio_link.c:51-66 | strings that differ only within as many consecutive bits as the register has, at any bit offset, leave it in different states, whatever their length and whatever state it starts from |
| BitBurst.FromIsFeed | firmware/common/openref_audio_link.c:51-66 | absorbing bytes is feeding their bits in the register's order |
| Crc.BitBurstChangesCrc16 | firmware/common/openref_audio_link.c:51-66 | strings of any length that differ only within sixteen consecutive bits have different CRC-16s |
| Crc.BitBurstChangesCrc32 | firmware/system/common/openref_config_store.c:36-46 | strings of any length that differ only within thirty-two consecutive bits, low bit of each byte first, have different CRC-32s |
| Crc.BurstChangesCrc16 | firmware/common/openref_audio_link.c:51-66 | so do strings that differ only within two adjacent bytes |
| Crc.BurstChangesCrc32 | firmware/system/common/openref_config_store.c:36-46 | so do strings that differ only within four adjacent bytes |
| Crc.ComputeCrc16 | firmware/common/openref_audio_link.c:51-66 | the nested bit loops compute the shift-register checksum |
| Crc.ComputeCrc32 | firmware/system/common/openref_config_store.c:36-46 | the reflected loops compute the complemented shift-register checksum |
| CrcDivision.Crc16IsRemainder | firmware/common/openref_audio_link.c:51-66 | the CRC-16 is the remainder, and the only one, of dividing the data's bits and sixteen zeros, the first sixteen bits complemented, by the polynomial 0x11021 |
| CrcDivision.Crc32IsRemainder | firmware/system/common/openref_config_store.c:36-46 | the CRC-32, complemented and read back to front, is that of dividing the data's bits, low bit of each byte first, and thirty-two zeros, the first thirty-two bits complemented, by the polynomial 0x104c11db7, which the reflected 0xedb88320 stands for |
| AudioLink.EncodeThenDecode | firmware/common/openref_audio_link.c:68-117 | every frame that can be encoded decodes to itself |
| AudioLink.DecodeIsCanonical | firmware/common/openref_audio_link.c:95-117 | every accepted wire frame is, byte for byte, what its fields encode to |
| WireFormats.FrameLayout | firmware/common/openref_audio_link.c:68-93 | where each field of a link frame stands, byte by byte, with constants, zeros and checksum |
| AudioLink.BurstIsRejected | firmware/common/openref_audio_link.c:95-117 | damage confined to sixteen consecutive bits of an accepted frame is rejected, checksum included, unless the bits run from payload into checksum |
| AudioLink.DamageIsRejected | firmware/common/openref_audio_link.c:95-117 | so is damage confined to two adjacent bytes, unless it joins payload and checksum |
| AudioLinkTrailer.DamageRejectedExactly | firmware/common/openref_audio_link.c:90-91 | of every accepted frame, all damage within two adjacent bytes at a place is rejected if and only if the place is not the last payload byte; there one pattern always passes, because the checksum is stored low byte first |
| AudioLinkTrailer.StraddleIsAccepted | firmware/common/openref_audio_link.c:90-91 | flipping the last payload byte by 0x89 and the first checksum byte by 0xa1 turns any accepted frame into another accepted one |
| AudioLinkDevice.EncodeFrame | firmware/common/openref_audio_link.c:68-93 | the buffer writes produce the encoding and nothing past it, or leave the buffer alone |
| AudioLinkDevice.DecodeFrame | firmware/common/openref_audio_link.c:95-117 | the buffer reads and checks decide as the abstract decoder does, and give its fields |
| AudioLinkDevice.FrameQueue.Push | firmware/common/openref_audio_link.c:126-144 | a valid frame is always appended, overwriting the oldest of four; pushes equal pops plus overruns plus what is queued |
| AudioLinkDevice.FrameQueue.Pop | firmware/common/openref_audio_link.c:146-158 | the oldest frame is taken, or nothing when empty; the same balance holds |
| TwoSlotStore.LoadAfterAnyRun | firmware/system/common/openref_config_store.c:86-148 | crash safety: after any run of saves, failures, interrupted writes, reloads and restarts on sound flash, a load finds the payload last committed or loaded, or one whose save was attempted since; with no attempt outstanding exactly the former |
| TwoSlotStore.CommittedIsLoaded | firmware/system/common/openref_config_store.c:115-148 | after a save that reported success the next load finds exactly that payload, restart or not |
| TwoSlotStore.WorkingSaveCommits | firmware/system/common/openref_config_store.c:115-148 | on flash that works, in any reachable world, a save does commit and is what the next load finds, restart or not; only at the last generation is every save refused |
| TwoSlotStore.CarefulLoad | firmware/system/common/openref_config_store.c:86-148 | a client that loads after every failed save always finds the last committed payload or the one most recently attempted |
| TwoSlotStore.KnownExactly | firmware/system/common/openref_config_store.c:115-148 | saving y after a save of x, in any reachable store, has that outcome whatever the flash does if and only if the client loads in between, or the generations are used up, or neither x nor a record an earlier failed save left in the slot is anything but the last commit or y |
| TwoSlotStore.KnownExactlyAfterReload | firmware/system/common/openref_config_store.c:115-148 | so if x is neither the last commit nor y, on a blank store as on any other, the load in between is what it takes, unless the generations are used up |
| TwoSlotStore.EarlierAttemptSurfaces | firmware/system/common/openref_config_store.c:119-148 | without the load, x can complete although reported failed, y can be lost, and the next load finds x |
| TwoSlotStore.LatentSurfaces | firmware/system/common/openref_config_store.c:86-148 | without it, both saves can be lost and the next load finds what an earlier failed save wrote |
| TwoSlotStore.LoadFindsLatent | firmware/system/common/openref_config_store.c:86-113 | a load finds the last commit, unless the slot the next save goes to holds a record of the next generation: then that one |
| TwoSlotStore.UnloadedSaveExactly | firmware/system/common/openref_config_store.c:122-148 | a perfect save by a store that has not loaded is what the next load finds, restart or not, exactly unless the second slot holds a serially later record of another payload |
| TwoSlotStore.UnloadedSaveIsLost | firmware/system/common/openref_config_store.c:122-123 | so a later record in the second slot is enough to lose it |
| TwoSlotStore.BootIsKept | firmware/system/common/openref_config_store.c:86-113 | loading sound flash establishes the invariant of the store |
| TwoSlotStore.RunKeeps | firmware/system/common/openref_config_store.c:86-148 | and every run keeps it: the active slot holds the base payload, the idle slot is unreadable, one generation older, or one newer and attempted |
| ConfigRecord.ImageDecodes | firmware/system/common/openref_config_store.c:48-61 | the image of a record decodes to its generation and payload, except generation 0, which never decodes |
| ConfigRecord.OtherLayoutIsRefused | firmware/system/common/openref_config_store.c:48-61 | a record written for one schema and length is read under another exactly if both are the same |
| WireFormats.RecordLayout | firmware/system/common/openref_config_store.c:124-136 | where each field of a stored record stands, with magic, padding and checksum |
| ConfigRecord.LoadAfterAnyRun | firmware/system/common/openref_config_store.c:48-148 | so the crash safety of the store holds of the 80-byte record itself, for every schema and payload length |
| ConfigTrailer.BurstIsRejected | firmware/system/common/openref_config_store.c:53-58 | damage confined to thirty-two consecutive bits of a readable record is rejected wherever it falls, checksum included |
| ConfigTrailer.DamageIsRejected | firmware/system/common/openref_config_store.c:53-58 | so is damage confined to four adjacent bytes |
| ConfigTrailer.SealedMeet | firmware/system/common/openref_config_store.c:36-46 | a checksum stored low byte first brings the register to one and the same state after any data |
| ConfigStore.BuildRecord | firmware/system/common/openref_config_store.c:124-130 | the buffer writes lay out the image of the payload |
| ConfigStore.CheckRecord | firmware/system/common/openref_config_store.c:48-61 | the header, checksum and generation checks decide as the abstract decoder does |
| ConfigStore.ConfigStore.Load | firmware/system/common/openref_config_store.c:86-113 | the newer of the readable slots is taken, by serial comparison of generations, and only the payload bytes are written; a slot whose read fails counts as unreadable |
| ConfigStore.ConfigStore.Save | firmware/system/common/openref_config_store.c:115-148 | the record goes to the slot not in use with the next generation, and is committed only if reported written, read back, and identical; at the last generation nothing is written |
| BootPolicy.RunKeeps | firmware/system/common/openref_boot_policy.c:18-104 | over any run of staging, booting, confirming and image changes that spare the confirmed slot, the record stays valid, the confirmed image stays bootable and the minimum version never falls |
| BootPolicy.BootAfterAnyRun | firmware/system/common/openref_boot_policy.c:44-84 | with a nonzero trial limit every boot starts an image that meets the version floor, on trial or from the confirmed slot, never by recovery |
| BootPolicy.TrialsThenFallback | firmware/system/common/openref_boot_policy.c:44-84 | boots without a confirmation are first trials of the pending image, exactly as many in a row as find it eligible, up to the trials left; then one fallback; then confirmed boots only, whatever becomes of the pending image |
| BootPolicy.StagedImageIsTried | firmware/system/common/openref_boot_policy.c:29-84 | after staging, while the new image stays eligible, the first boots up to the limit are exactly trials of it, the next one falls back, and later ones run the confirmed slot |
| BootPolicy.StagedExactly | firmware/system/common/openref_boot_policy.c:29-42 | staging is refused exactly for the confirmed slot, an unknown slot, an image that may not be run and a record that is not valid; else it makes the image pending with all its trials to come |
| BootPolicy.ConfirmedIsAdopted | firmware/system/common/openref_boot_policy.c:86-104 | confirming succeeds exactly for the confirmed or pending slot of a valid record whose image may be run; from then on every boot runs that image as confirmed as long as it is there, nothing is pending, and the version floor is the greater of the old one and the image's version |
| BootPolicy.BootsWheneverPossible | firmware/system/common/openref_boot_policy.c:44-84 | from a valid record a boot starts something exactly if some slot holds an image it may run: the pending one on trial, else the confirmed one, else by way of recovery the other |
| BootPolicy.StagedTrialsAreBounded | firmware/system/common/openref_boot_policy.c:29-84 | after staging, at most the limit of boots run the new image unless it is confirmed, and all later ones the confirmed slot |
| BootPolicy.BootRecord.StageImage | firmware/system/common/openref_boot_policy.c:29-42 | staging in place |
| BootPolicy.BootRecord.SelectImage | firmware/system/common/openref_boot_policy.c:44-84 | selection in place: trial, fallback, confirmed, recovery or nothing, with the record and the changed flag it leaves; how many trials that makes is settled by BootPolicy.TrialsThenFallback |
| BootPolicy.BootRecord.ConfirmImage | firmware/system/common/openref_boot_policy.c:86-104 | confirmation in place, raising the version floor |
| BootStateCodec.StateRoundTrip | firmware/system/common/openref_boot_state_store.c:20-52 | an encoded state decodes to itself exactly when it is valid, so the decoder's two further checks never decide |
| BootStateCodec.DecodeStateIsCanonical | firmware/system/common/openref_boot_state_store.c:31-52 | an accepted payload holds a valid state and is its encoding |
| WireFormats.StateLayout | firmware/system/common/openref_boot_state_store.c:20-29 | where each field of a stored boot state stands |
| BootStateCodec.LoadAgrees | firmware/system/common/openref_boot_state_store.c:71-86 | on flash written only by this store the record layer's choice of slot is the choice among valid states, and what is loaded is valid |
| BootStateCodec.BootStateAfterAnyRun | firmware/system/common/openref_boot_state_store.c:71-120 | crash safety of boot records: after any run a load finds a valid state, the one last committed or loaded or one attempted since; refused states change nothing |
| BootStateStore.BootStateStore.Load | firmware/system/common/openref_boot_state_store.c:71-86 | a load that fails at either layer marks the store not loaded |
| BootStateStore.BootStateStore.Save | firmware/system/common/openref_boot_state_store.c:103-120 | only a loaded store writes, and only valid states |
| BootStateStore.BootStateStore.FactoryInitialize | firmware/system/common/openref_boot_state_store.c:88-101 | only a store that is not loaded takes a factory state, with nothing pending |
| UpdateVerifier.VerdictIsOfTheImage | firmware/system/common/openref_update_verifier.c:102-140 | with hashing that succeeds a session ends in approval exactly when the bytes given, however cut, are the image the manifest describes |
| UpdateVerifier.ActiveMeansAbsorbed | firmware/system/common/openref_update_verifier.c:102-119 | while active the verifier has hashed exactly what it was given and counted every byte |
| UpdateVerifier.ApprovesExactly | firmware/system/common/openref_update_verifier.c:49-89 | a manifest is approved exactly if it has the right magic, version, target and hardware, is above the confirmed version and not below the floor, asks for no newer boot loader, announces a size that fits and a digest, release and key that are not zero, and its last 64 bytes are a signature of its first 80 under the key it names |
| UpdateVerifier.BeginsExactly | firmware/system/common/openref_update_verifier.c:49-100 | a session begins exactly when none is on, the manifest is approved and the hash starts |
| UpdateStager.StagedImageIsTheApprovedOne | firmware/system/common/openref_update_stager.c:17-118 | a finish that succeeds, after any run and environment, means: the manifest was approved at a begin of that run, its version is above the confirmed one, the candidate slot holds exactly the accepted chunks, their hash and length are the manifest's, the persisted record has that slot pending with no attempts, and the confirmed slot is as it was |
| UpdateStager.StagedImageIsSigned | firmware/system/common/openref_update_stager.c:17-118 | and in bytes: one of the manifests begun with in that run is for this target and hardware, its first 80 bytes are signed under the key it names, and its size, digest and version are those of the image now staged |
| UpdateStager.BeginsExactly | firmware/system/common/openref_update_stager.c:46-62 | a session begins exactly when none is on, finished or failed, the manifest is approved, and hash and erasing work; only the candidate slot is erased |
| UpdateStager.RunKeeps | firmware/system/common/openref_update_stager.c:6-118 | over any run the confirmed slot keeps its image, description and confirmation, and a latched failure is never undone |
| UpdateStager.VerdictIsOfTheImage | firmware/system/common/openref_update_stager.c:64-118 | on a working device a session succeeds exactly when the chunks are of legal size, form the approved image, and its version may be staged |
| UpdateStager.ChunkingIsImmaterial | firmware/system/common/openref_update_stager.c:64-88 | two ways of cutting the same bytes into legal chunks succeed or fail together |
| UpdateStager.PendingImageSurvivesExactly | firmware/system/common/openref_update_stager.c:6-118 | the image made pending survives every environment if and only if the calls after success are all begins |
| UpdateStager.CallAfterSuccess | firmware/system/common/openref_update_stager.c:6-118 | after success a begin changes nothing; any other call latches a failure and invalidates the slot already pending |
| UpdateStager.StrayCallSpoilsStagedImage | firmware/system/common/openref_update_stager.c:6-15 | a stray write, say, while the persisted record still has the slot pending |
| UpdateDevice.ImageVerifier.CheckManifest | firmware/system/common/openref_update_verifier.c:60-89 | the manifest is approved for this device exactly when every field suits it and the signature verifies |
| UpdateDevice.ImageVerifier.Begin | firmware/system/common/openref_update_verifier.c:49-100 | a rejected manifest never leaves an earlier success standing |
| UpdateDevice.ImageVerifier.Write | firmware/system/common/openref_update_verifier.c:102-119 | a chunk is counted and hashed, or ends the session |
| UpdateDevice.ImageVerifier.Finish | firmware/system/common/openref_update_verifier.c:121-140 | the length and digest decide |
| UpdateDevice.EqualBytes | firmware/system/common/openref_update_verifier.c:21-29 | the comparison that looks at every byte decides equality |
| UpdateDevice.ImageStager.Begin | firmware/system/common/openref_update_stager.c:46-62 | the candidate slot alone is erased, for an approved manifest |
| UpdateDevice.ImageStager.Write | firmware/system/common/openref_update_stager.c:64-88 | a chunk is hashed, stored and read back, or the session fails and the candidate is invalidated |
| UpdateDevice.ImageStager.Finish | firmware/system/common/openref_update_stager.c:90-118 | the candidate is made pending and persisted, or the session fails; only the candidate slot was ever touched |
| ReplayWindow.WindowRefinesHistory | firmware/common/openref_security.c:42-84 | over any run whose boots, and whose packets within a boot, span less than half the 32-bit circle, the bitmap window represents the set of accepted packets: bit i is set when highest minus i was accepted this boot |
| ReplayWindow.AcceptedExactly | firmware/common/openref_security.c:42-84 | a packet is accepted exactly when it is the first, from a newer boot, above the highest, or less than 64 old and not yet accepted |
| ReplayWindow.NeverAcceptedTwice | firmware/common/openref_security.c:42-84 | no packet is accepted twice |
| ReplayExact.EveryRunIsFollowed | firmware/common/openref_security.c:42-84 | over any run at all the window is the same policy on the set of accepted packets, each unwrapped to where the window saw it |
| ReplayExact.TakenAgainExactly | firmware/common/openref_security.c:42-84 | in any run a packet accepted once is accepted again if and only if the window has meanwhile moved more than half the circle of boots past it, or is back at its boot and more than half the circle of counters past it, or back within 64 of a counter not accepted since |
| ReplayExact.ReachIsHalfTheCircle | firmware/common/openref_security.c:42-84 | short of a whole circle: exactly when boots, or counters within the boot, have moved on by more than 2^31 |
| ReplayExact.TakenAgainInBoot | firmware/common/openref_security.c:65-84 | the same for one decision, from the state of the window alone |
| ReplayExact.AtMostOnceExactly | firmware/common/openref_security.c:42-84 | a whole run accepts nothing twice if and only if nothing accepted comes again out of reach |
| ReplayExact.PlaceIsTrue | firmware/common/openref_security.c:21-24 | counters that do not wrap and stay within half the circle are seen as they are |
| ReplayExact.WideSpanTakesReplay | firmware/common/openref_security.c:21-24 | two steps of just under half the circle, of counters or of boots, and the first packet is accepted twice |
| ReplayWindow.AcceptRefines | firmware/common/openref_security.c:42-84 | one decision and its new window agree with the set of accepted packets |
| ReplayWindow.ReplayState.AcceptAuthenticated | firmware/common/openref_security.c:42-84 | the branches over bitmap and counters decide as the abstract window does, and leave its state |
| SecureTransport.NonceDeterminesItsParts | firmware/common/openref_security.c:26-40 | equal nonces have equal session, source, boot and counter |
| WireFormats.NonceLayout | firmware/common/openref_security.c:26-40 | where session, source, boot counter and packet counter stand in the nonce |
| SecureTransport.ParseAssembled | firmware/common/openref_secure_network_packet.c:5-72 | a wrapped packet parses to the header, counters, ciphertext and tag it was made of |
| WireFormats.SecuredLayout | firmware/common/openref_secure_transport.c:31-59 | what a successful protect transmits, byte by byte: the packet's header with the envelope's length, both counters, and the ciphertext and tag the cipher made of the payload under that nonce and header |
| SecureTransport.UnwrapRestores | firmware/common/openref_secure_network_packet.c:63-70 | restoring the plain length in an authentic header gives back the original packet |
| SecureLink.NoncesNeverRepeat | firmware/common/openref_secure_transport.c:31-59 | the nonces of all successful protects are pairwise distinct, up to and past the exhaustion of the packet counter and across any restarts of the sender |
| SecureLink.AtMostOnceAndIdentical | firmware/common/openref_secure_transport.c:31-90 | with an ideal cipher, whatever the network loses, repeats, reorders or forges, however many packets are protected and however often the sender restarts, what comes out is byte for byte what was protected and nothing else; up to 2^31 packets and boots, each comes out at most once |
| SecureLink.AtMostOnceExactly | firmware/common/openref_secure_transport.c:31-90 | and in general, over any run with any restarts: no packet comes out twice if and only if none arrives again out of reach of a window that had taken it |
| SecureLink.ProtectedArrives | firmware/common/openref_secure_transport.c:31-90 | end to end: in every reachable world protecting a well-formed packet succeeds if and only if the sender is not exhausted and the cipher seals it, and in any later world the bytes returned deliver that packet if and only if the window of its source takes the counters it was protected under |
| SecureLink.ProtectSeals | firmware/common/openref_secure_transport.c:31-59 | what it returns parses to the sender's boot and counter, the packet's own header with the envelope's length, and the box the cipher sealed under the next nonce |
| SecureLink.ExhaustedExactly | firmware/common/openref_secure_transport.c:52-56 | a sender is exhausted exactly if it has used the last counter of its boot |
| SecureLink.IntactArrivalIsDelivered | firmware/common/openref_secure_transport.c:61-90 | in every reachable world the very bytes transmitted for a packet, arriving intact, deliver it exactly when its window sees it as above the highest counter, or less than 64 old and not yet taken |
| SecureLink.EarlierBootIsRefusedExactly | firmware/common/openref_security.c:57-66 | once a window has taken a packet of a later boot, the bytes transmitted in an earlier one are refused if and only if the boots are at most half the circle apart |
| BootCounter.StartsIncrease | firmware/common/openref_boot_counter.c:5-33 | through any failures of storage the boot counters that starts use strictly increase, above what was stored before, and stay covered by what is stored, so restarts never share one |
| BootCounter.StartsWhenAllWorks | firmware/common/openref_boot_counter.c:5-33 | and with storage that works a start always gets the next counter, unless it is used up |
| BootCounter.ExhaustedStays | firmware/common/openref_boot_counter.c:18-21 | a used-up counter stays, and nothing starts again |
| BootCounter.CounterStore.Advance | firmware/common/openref_boot_counter.c:5-33 | read, raise, write and read back, with the same exits |
| SecureLink.ForgeryIsRejected | firmware/common/openref_secure_network_packet.c:32-54 | what the sender did not seal is rejected and changes nothing |
| SecureLink.EveryRunIsKept | firmware/common/openref_secure_transport.c:11-90 | every reachable world of sender, network and receiver, without limit and with any restarts of the sender, keeps the invariant behind these results |
| SecureTransportDevice.BuildNonce | firmware/common/openref_security.c:26-40 | the thirteen nonce bytes |
| SecureTransportDevice.WrapPacket | firmware/common/openref_secure_network_packet.c:5-30 | the in-place wrap produces the abstract secured packet, whose bytes WireFormats.SecuredLayout places, or fails |
| SecureTransportDevice.ReadSecured | firmware/common/openref_secure_network_packet.c:32-54 | the parts of a secured packet, or nothing |
| SecureTransportDevice.Device.ProtectPacket | firmware/common/openref_secure_transport.c:31-59 | the counter moves only with a protected packet, and latches at its last value; the bytes are those of the abstract protect that SecureLink.ProtectedArrives follows to the receiver |
| SecureTransportDevice.Device.ReceivePacket | firmware/common/openref_secure_transport.c:61-90 | opening decrypts, asks the window of the source, and restores the packet only when accepted |
| PacketCodec.HeaderRoundTrip | firmware/common/openref_proto0_packet.c:41-90 | an encoded header decodes to itself exactly when its payload is there |
| PacketCodec.DecodeIsCanonical | firmware/common/openref_proto0_packet.c:66-90 | a decoded header encodes to the bytes it came from |
| WireFormats.HeaderLayout | firmware/common/openref_proto0_packet.c:41-64 | where each field of a packet header stands, with magic and version |
| PacketCodec.BuildThenParse | firmware/common/openref_network_packet.c:43-163 | a built packet parses to its header and payload, and only ids 1 to 6 can be built |
| PacketCodec.HeartbeatRoundTrip | firmware/common/openref_network_packet.c:122-179 | a heartbeat packet parses to its epoch and schedule origin |
| WireFormats.HeartbeatLayout | firmware/common/openref_network_packet.c:122-147 | where epoch and schedule origin stand in a heartbeat, and zeros everywhere else |
| PacketCodec.EncodeHeader | firmware/common/openref_proto0_packet.c:41-64 | the byte loops write the header and nothing past it |
| PacketCodec.ReadHeader | firmware/common/openref_proto0_packet.c:66-90 | the byte loops read the header or refuse |
| Words.DecodeEncodeLE | firmware/common/openref_proto0_packet.c:6-31 | little-endian words read back as written |
| Words.EncodeDecodeLE | firmware/common/openref_proto0_packet.c:6-31 | and every byte string is the encoding of what it reads as |
| Coordinator.ViewNeverFalls | firmware/common/openref_network.c:79-159 | no tick, heartbeat or eligibility change moves the pair of epoch and coordinator backwards, where within an epoch lower ids are better, except, exactly, a tick at the last epoch when an election is due: the node is electing or its coordinator has been silent too long, the delay is over, and someone else is eligible |
| Coordinator.ElectsWhenDue | firmware/common/openref_network.c:79-124 | a tick changes the coordinator if and only if an election is due in that sense |
| Coordinator.LastEpochWraps | firmware/common/openref_network.c:106-124 | there it does fall back: a node that after its start hears of the last epoch and then nothing more elects itself into epoch 0 |
| Coordinator.HearingIsAJoin | firmware/common/openref_network.c:128-159 | without ticks the resulting epoch and coordinator depend only on which claims were heard, not on order or repetition |
| Coordinator.HeardIsGreatest | firmware/common/openref_network.c:128-159 | and are the best of the starting view and every member claim heard |
| Coordinator.OneCoordinatorRemains | firmware/common/openref_network.c:128-159 | several coordinators that all hear of each other end with one view and exactly one of them still in the role |
| Coordinator.RoleAlwaysHolds | firmware/common/openref_network.c:50-176 | in every state reachable from initialisation a coordinator follows its own id and a follower another's |
| Heartbeats.HeardExactly | firmware/common/openref_network.c:128-159 | which heartbeats count, without ticks: a member's, of a later epoch, or of the same epoch from a node with an id no greater than the coordinator's; then view, schedule origin, time last heard, eligibility and role are all the heartbeat's, and for any other nothing changes |
| Heartbeats.HeardSlots | firmware/common/openref_network.c:128-195 | after such a heartbeat a node's next slot is the least of the heartbeat's own schedule, exactly when nothing overflows |
| Heartbeats.HeardLastsExactly | firmware/common/openref_network.c:79-159 | after another node's heartbeat a tick times out exactly when more than the heartbeat timeout has passed, and until then changes nothing |
| Heartbeats.InTouchIsQuiet | firmware/common/openref_network.c:79-176 | over any run on a clock that does not run back: a follower that hears its coordinator, or a better one, at least once per timeout never times out, elects or sends |
| Heartbeats.TimedOutWaits | firmware/common/openref_network.c:79-124 | a follower that times out gives its coordinator up, waits quietly for the whole election delay, and then elects exactly if someone is eligible |
| Heartbeats.ElectedTakesOver | firmware/common/openref_network.c:102-124 | an election makes the lowest eligible member coordinator of the next epoch from that moment; if it is the node itself, it sends at once |
| Heartbeats.ElectedGetsATimeout | firmware/common/openref_network.c:79-124 | an elected other node has one whole timeout to be heard |
| Heartbeats.SendsExactly | firmware/common/openref_network.c:26-33 | over any run of ticks on a clock that runs forward a coordinator sends at exactly those ticks by which a period of its schedule has come due since the tick before, none left out and none twice |
| Heartbeats.ScheduleStarts | firmware/common/openref_network.c:50-159 | that schedule starts one interval after the node became coordinator, by configuration, election or being named |
| Heartbeats.OnlyCoordinatorsSend | firmware/common/openref_network.c:79-124 | only a coordinator sends |
| Heartbeats.MarkedExactly | firmware/common/openref_network.c:161-176 | marking changes the eligibility of exactly the member named and nothing else |
| Heartbeats.StartsAsConfigured | firmware/common/openref_network.c:50-77 | a node starts with its configured coordinator, in the role that implies, and with every member eligible |
| SilentElection.ElectionsAreBounded | firmware/common/openref_network.c:79-126 | a silent, eligible node holds at most one election more than there are eligible lower ids, and a coordinator stays one, whatever its clock does |
| SilentElection.SilentNodeCoordinates | firmware/common/openref_network.c:79-126 | with a monotone clock ticked at least every gap microseconds it is coordinator by its due time: per election one timeout, one delay and two gaps |
| SilentElection.ElectionOutcome | firmware/common/openref_network.c:106-124 | an election makes the node coordinator or leaves it following a lower eligible node, and uses up one of the elections to come |
| SilentElection.TimeOutOutcome | firmware/common/openref_network.c:97-104 | and the next timeout removes the node it follows from the eligible ones |
| Tdma.NextSlotIsLeast | firmware/common/openref_network.c:178-195 | the slot returned is the least of the node's slots at or after both bounds if and only if that slot fits the 64-bit clock and rounding up to it does not overflow |
| Tdma.LateSlotWraps | firmware/common/openref_network.c:186-187 | five microseconds before the clock wraps it is not |
| Tdma.SlotsNeverCollide | firmware/common/openref_network.c:178-195 | absent that overflow, slots of different nodes on one schedule are at least the spacing apart, whatever superframes they fall in |
| Tdma.AdvanceIsNextPeriod | firmware/common/openref_network.c:26-33 | the next heartbeat is the first whole period after now if and only if that fits the clock |
| SequenceAccounting.EveryCallIsCounted | firmware/common/openref_network.c:207-263 | received, duplicate and stale add up to the calls, and the gaps to the packets reported missing, timestamps or not |
| SequenceAccounting.SequenceIsConserved | firmware/common/openref_network.c:238-263 | as long as the count does not start over, the last sequence is the first plus received minus one plus gaps, modulo 2^16 |
| SequenceAccounting.VerdictExactly | firmware/common/openref_network.c:238-263 | numbers unwrapped and at most half the circle apart: a number ahead of the last is received and those between are missing, the same is a duplicate, one behind is stale |
| SequenceAccounting.CountsExactly | firmware/common/openref_network.c:207-263 | over a whole run in any order: received are the packets above all before them, duplicates the highest again, stale the others, and received and missing are all packets from the first to the highest |
| SequenceAccounting.UntimedIsContinuous | firmware/common/openref_network.c:230-236 | without timestamps it never starts over |
| NetworkNode.ElectLowestMember | firmware/common/openref_network.c:16-24 | the loop over the mask finds the lowest member or nobody |
| NetworkNode.Node.Tick | firmware/common/openref_network.c:79-126 | the tick over masks, deadlines and roles is the abstract one, with the same actions |
| NetworkNode.Node.ReceiveHeartbeat | firmware/common/openref_network.c:128-159 | so is a heartbeat, with the times it sets, which Heartbeats.HeardExactly names |
| NetworkNode.Node.SetMemberEligible | firmware/common/openref_network.c:161-176 | setting and clearing a mask bit adds and removes the member |
| NetworkNode.Node.NextSlot | firmware/common/openref_network.c:178-195 | the slot computation with its 64-bit arithmetic |
| NetworkNode.Receiver.ReceiveAudio | firmware/common/openref_network.c:207-263 | the verdict, the missing count and the one counter that changes |
| VoiceScenario.CollisionsAreExact | simulator/src/openref_sim/medium.py:50-110 | for every configuration with a positive airtime, however slots and frames overlap: at any point of any run a completed transmission was reported collided exactly when its half-open interval meets another's, before or after it |
| VoiceScenario.VoiceNeverOverlaps | simulator/src/openref_sim/capacity.py:43-45 | with zero drift, no negative slot guard and the schedule span within the frame interval, no two voice frames overlap, for any node count, duration, other traffic and faults |
| VoiceScenario.VoiceCollidesOnlyWithOthers | simulator/src/openref_sim/run.py:87-110 | so a voice frame reported as collided met other traffic |
| VoiceAccounting.FramesAreConserved | simulator/src/openref_sim/node.py:79-149 | at any point of any run of any scenario, with any traffic and faults: frames generated by a node are the voice transmissions it started, the frames dropped at a full queue and the frames queued; it has started one for every slot at which it was on and had a frame |
| VoiceAccounting.StepSends | simulator/src/openref_sim/node.py:117-142 | a step starts a node's transmission exactly if it is a slot of that node, which is on and has a frame, and other traffic exactly at its event |
| VoiceAccounting.StepQueues | simulator/src/openref_sim/node.py:75-149 | a step changes a node's queue and count only by a frame generated, dropped or sent, and faults alone switch it |
| VoiceAccounting.QueueIsLatest | simulator/src/openref_sim/node.py:79-115 | a queue holds the frames generated last, oldest first |
| VoiceAccounting.OtherTrafficIsSent | simulator/src/openref_sim/medium.py:50-69 | other traffic is transmitted once per event that asks for it |
| VoiceService.EverySlotIsUsed | simulator/src/openref_sim/node.py:63-149 | without faults and with room for a frame, whatever else is on the channel, a node's voice transmissions are one airtime from each of its slot times before the stop time, none left out and none twice, at any point of the run |
| VoiceScenario.WiredIsConsistent | simulator/src/openref_sim/run.py:87-96 | wiring any number of nodes establishes the first invariant |
| VoiceScenario.WiredIsKept | simulator/src/openref_sim/run.py:87-96 | and, where slots fit, the second |
| VoiceChannel.StepIsConsistent | simulator/src/openref_sim/engine.py:58-68 | every event taken off the queue keeps completions due exactly at ends, once each, and the marks exact, in every configuration with a positive airtime |
| VoiceSlots.StepKeeps | simulator/src/openref_sim/node.py:117-149 | and, where slots fit, each slot queued once and voice on the grid |
| SharedMedium.TransmitIsExact | simulator/src/openref_sim/medium.py:50-69 | marking the transmissions still audible marks exactly those the new one meets |
| SharedMedium.CompleteIsExact | simulator/src/openref_sim/medium.py:76-107 | completing at its end reports the mark |
| VoiceSimulation.InsertInOrder | simulator/src/openref_sim/engine.py:17-28 | events leave the queue by time, then by scheduling order |
| Simulator.StepShrinks | simulator/src/openref_sim/engine.py:58-68 | every step leaves strictly less to do, so every run ends |
| Simulator.Simulation.ScheduleEvent | simulator/src/openref_sim/engine.py:17-38 | an event in the past is refused, any other is queued with the next order number |
| Simulator.Simulation.TransmitPacket | simulator/src/openref_sim/medium.py:50-109 | the loop over active transmissions, the new entry and its completion event |
| Simulator.Simulation.GenerateFrame | simulator/src/openref_sim/node.py:79-115 | a frame enters the bounded queue, dropping the oldest, and the next is scheduled before the stop time; an empty queue that is already full raises instead |
| VoiceSimulation.RaisesExactly | simulator/src/openref_sim/node.py:79-115 | a step raises if and only if the queue limit is below one and an enabled node generates a frame with its queue empty |
| Simulator.Simulation.SendInSlot | simulator/src/openref_sim/node.py:117-149 | a slot sends the oldest frame if the node is on and has one, and schedules the next slot; that this transmits it is counted by VoiceAccounting.FramesAreConserved |
| Simulator.Simulation.Run | simulator/src/openref_sim/engine.py:58-68 | in every configuration with a positive period: exactly the events due by the given time are run, in order, and the clock ends there, or the run ends at the first exception; an earlier time is refused; a consistent channel stays so |
| Simulator.Simulation.AddNodes | simulator/src/openref_sim/run.py:87-96 | the wiring loop |
| FlashLayout.CheckerIsExact | tools/validate_rt595_flash_layout.py:10-37 | no errors are reported exactly when every flash address lies in exactly one erase-aligned partition, names are unique, and the slot, image, record and linked-partition rules hold |
| FlashLayout.TilesExactly | tools/validate_rt595_flash_layout.py:21-25 | sorted partitions tile the flash exactly when they chain from end to end |
| FlashLayout.RolesPermute | tools/validate_rt595_flash_layout.py:26-36 | the role rules do not depend on the order of partitions |
| FlashLayout.ValidateLayout | tools/validate_rt595_flash_layout.py:10-37 | the loops report the specified errors in order, or raise when a start is reduced modulo a zero erase size or two different partitions agree in place and name; they report none exactly for good layouts |
| EdgePairing.PairEdges | tools/analyze_scheduled_tx_gpio.py:136-157 | for sorted edges no pairing of queue edges with later or equal starts has more pairs; every launch error is non-negative; pairs, orphans and extra add up to the start edges |
| EdgePairing.TightIsLargest | tools/analyze_scheduled_tx_gpio.py:143-150 | when the two pointers stop, the pairs found are as many as any pairing has |

## Left out

- AudioBenchmark.Benchmark.Step: what the microphone signal is does not matter here, as encoding is a parameter; the result read before a run is complete and the runtime's own maxima over all blocks are not modelled.
- AudioPipeline.Pipeline.Render: what the decoders make of what they are handed is a parameter of each render; the capture unit belongs to the object around the pipeline.
- AudioLinkDevice.FrameQueue.Push: counters of frames, calls and failures are unbounded naturals here and wherever the source has 32-bit statistics.
- TwoSlotStore.LoadAfterAnyRun: over runs, reads succeed, and a write leaves its slot as it was, complete or unreadable.
- ConfigStore.ConfigStore.Save: what the flash part does with reads and writes is a parameter; the backend's function pointers become one class.
- SecureLink.AtMostOnceAndIdentical: the cipher is ideal: it opens exactly what was sealed; the receiver does not restart, which would empty its windows.
- BootCounter.StartsIncrease: a write of the stored counter leaves the old or the new one, and reads are truthful or fail.
- AudioLink.BurstIsRejected: which bursts of bits across payload and checksum pass is settled only for whole bytes.
- SecureTransportDevice.Device.ProtectPacket: the ciphers are parameters and the same arrays are never passed for input and output.
- UpdateVerifier.VerdictIsOfTheImage: signature verification and the hash are abstract functions; the hash of a context is the digest of the bytes absorbed.
- UpdateDevice.ImageStager.Write: a flash write changes nothing before the offset it is given.
- UpdateDevice.EqualBytes: constant time is not modelled, only that every byte is compared.
- NetworkNode.Node.Tick: heartbeat and change counters are unbounded; the 32-bit epoch wraps as in the source.
- SilentElection.SilentNodeCoordinates: assumes tick times at least 2^32 microseconds before the end of the 64-bit clock, and ticks no further apart than the stated gap.
- VoiceScenario.VoiceNeverOverlaps: drift is zero; packet loss, latency and the trace are not modelled, and heartbeats appear as transmissions at arbitrary times rather than through the coordinator protocol.
- Simulator.Simulation.ScheduleEvent: Python's heap is its events in the order they come out.
- Simulator.Simulation.Run: the node period is at least one, as the source makes it; a completion absent from the active list, which cannot happen while the channel is consistent, is ignored where the script raises.
- FlashLayout.ValidateLayout: parsing of the document is not modelled; whether two entries that agree in place and name are the same, so that sorting does not raise, is judged by the modelled fields only.
- EdgePairing.PairEdges: times are reals, so rounding and not-a-number values are not modelled.
- NULL-pointer checks are non-null types, and failures of initialisation are preconditions of constructors.
- Ciphers, signatures, hash and codec internals, serial ports, file formats and command lines of the tools.
- Supervisors, safety arbiter, watchdog, power, charging, accessory, volume, crew admission and device lifecycle: their properties follow from single branches.
- The device record store, the settings runtime and the application confirmation module, whose dependencies (`openref_device_record_valid`, `openref_volume_manager_restore_step`) are not part of this model.
