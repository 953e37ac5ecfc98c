# RedFox-Laser: a verified model

This project models the parts of the RedFox-Laser engine and core library whose correctness is
hardest to see, and proves properties of them over every input, every run and every interleaving.

* **Spectrum analysis** (`Bits`, `Complex`, `Dft`, `AudioAnalysis`, `Spectrum`, `AudioFeatures`). The
  in-place radix-2 FFT, on an array of exact complex numbers. The twiddle factors are a parameter;
  what is asked of them is root(2) = -1, root(2h)^2 = root(h) and, for energy, unit modulus.
  `Spectrum.RootsExist` shows that these can be met. The method is proved equal to the plain sum
  a[k] = sum of a0[m] * w^(mk).
* **File formats** (`Bytes`, `IldaTypes`, `IldaFormat`, `IldaSections`, `IldaNorm`, `IldaCodec`,
  `IldaRoundTrip`, `IldaColours`, `ShowTypes`, `ShowFormat`, `ShowFile`, `ShowRoundTrip`,
  `ShowDelimiting`, `ShowFixedPoint`, `ShowExact`, `ShowLayout`). The ILDA Image Data Transfer Format
  codec (formats 0, 1, 2, 4 and 5) and the show container around it (versions 2 to 5). Writers and
  readers are loops over an output buffer and an input cursor; each is proved equal to a function on
  bytes, and the laws are proved of the functions. Floats inside the show container are opaque bit
  patterns; ILDA coordinates are exact reals quantised to 16 bits.
* **Preview seqlock** (`SharedTelemetry`). One writer and one reader, every shared load and every
  store of a single float being one step, interleaved arbitrarily under sequential consistency, with
  the 32-bit counter's wrap-around modelled. The two calls run alone are methods of a class.
* **Safety** (`LaserOutput`, `SafetySupervisor`, `SafetyRuns`, `SafetyWatch`). The supervisor and its
  outputs as classes, one call at a time, and the interleaving of any number of command and MIDI
  threads, the clock and the engine's main loop. The supervisor lock is held while outputs are visited
  one call at a time; sending a frame does not take it.
* **Timeline playback and editing** (`Timeline`, `Sequencer`, `SequencerExact`, `ShowEditing`). Time is an
  integer count of nanoseconds; durations and step times are exact reals.
* **Beat detection and motion effects** (`BeatDetector`, `MotionEffect`, `EffectTiming`).

What the proofs found in the code:

* A frame without points, or with a multiple of 65536 points, is written with a record count of zero,
  which the reader takes for the end of the stream: it and everything after it are lost without an
  error. A frame with more than 65535 points comes back short. `IldaRoundTrip.NoFrameLostExactly`
  states exactly which frame lists survive, `ShowExact.SavedShowSurvivesExactly` which shows.
* The comments in `SafetySupervisor.hpp` and `SafetySupervisor.cpp` call the frame-stall watchdog
  dormant until frames flow. It is until the first frame ever produced, and never again
  (`SafetyRuns.DormantExactly`): no arming resets the frame clock. After any gap between frames longer
  than the timeout, be it a stall, a blanked output or an emergency stop, every arming is undone by the
  next tick (`SafetyRuns.StallReached`, `SafetyRuns.GapLocksOut`). In the main loop, which ticks before
  it sends, only an arm command landing between the tick and the state check of the same pass gets a
  frame out (`SafetyRuns.StallLocksOut`, `SafetyRuns.WindowRecovers`).
* The seqlock's torn-read protection needs fewer than 2^31 publications during one attempt;
  `SharedTelemetry.TornAfterFullWrap` builds a run with exactly 2^31 that accepts a mixture, so the
  bound is sharp (`SharedTelemetry.NeverTornExactly`).
* A cycle length that is not a whole number of clock ticks makes the number of cues fired depend on
  when the sequencer is ticked, for every sorted looping timeline that has a step at all
  (`SequencerExact.TickIndependentExactly`).
* A negative refractory setting silences the beat detector for ever after its first beat
  (`BeatDetector.SecondBeatExactly`).
* `ShowFile.hpp` describes format version 1; the code writes version 5 and reads 2 to 5. The model
  follows the code.

Run `dafny verify dfyconfig.toml` in this directory to check everything.

## Model

| member | source | states |
|---|---|---|
| Bits.PowerOfTwoExactly | core/src/audio/AudioAnalysis.cpp:12 | the bit trick accepts exactly the powers of two |
| Bits.NextRevIsRev | core/src/audio/AudioAnalysis.cpp:17-22 | adding one with the carry running downwards turns the bit reversal of i into that of i + 1 |
| Bits.TopBit | core/src/audio/AudioAnalysis.cpp:19-22 | what testing and toggling the scanned bit does to j |
| Bits.RevInvolution | core/src/audio/AudioAnalysis.cpp:17-26 | reversing twice is the identity on indices below n, so the guarded swaps pair up |
| AudioAnalysis.ReversedIncrement | core/src/audio/AudioAnalysis.cpp:18-22 | the inner scan stops at a nonzero bit and leaves the reversal of the next index |
| AudioAnalysis.BitReverse | core/src/audio/AudioAnalysis.cpp:17-26 | slot i ends with the sample of slot rev(i), and the samples are a permutation of the input |
| AudioAnalysis.Block | core/src/audio/AudioAnalysis.cpp:32-39 | one block of butterflies, the running w being wlen^k at step k, leaving the rest of the buffer alone |
| AudioAnalysis.Stage | core/src/audio/AudioAnalysis.cpp:31-40 | one value of len: every index gets its butterfly of the buffer before the stage |
| Dft.EvenOddSplit | core/src/audio/AudioAnalysis.cpp:33-37 | a transform splits into those of the even and odd samples |
| Dft.ButterflyIsEval | core/src/audio/AudioAnalysis.cpp:34-37 | u + v and u - v are the transform at z and at -z |
| Dft.TransformIsEval | core/src/audio/AudioAnalysis.cpp:27-41 | the explicit sum over m of x[m] * w^(mk) equals the Horner form used in proofs |
| AudioAnalysis.HalfTurn | core/src/audio/AudioAnalysis.cpp:27-30 | from root(2) = -1 and root(2h)^2 = root(h): root(2h)^h = -1 |
| AudioAnalysis.MergeBins | core/src/audio/AudioAnalysis.cpp:33-38 | a butterfly merges bin r of two groups into bins r and r + len/2 of their union |
| AudioAnalysis.StageStep | core/src/audio/AudioAnalysis.cpp:27-41 | the stage invariant: blocks hold the transforms of their decimated subsequences, from length h to 2h |
| AudioAnalysis.Stages | core/src/audio/AudioAnalysis.cpp:27-41 | the outer loop establishes the invariant for the whole buffer |
| AudioAnalysis.Fft | core/src/audio/AudioAnalysis.cpp:15-42 | for every power-of-two length the buffer ends as the discrete Fourier transform of its input |
| Spectrum.StageEnergy | core/src/audio/AudioAnalysis.cpp:31-40 | one pass of the stage loop over any buffer exactly doubles its total energy when the twiddle factor has unit modulus |
| Spectrum.HalvesEnergy | core/src/audio/AudioAnalysis.cpp:33-37 | a transform has twice the total energy of its two half transforms |
| Spectrum.FftConservesEnergy | core/src/audio/AudioAnalysis.cpp:15-42 | the sum of squared magnitudes after the FFT is n times that before |
| Spectrum.RealInputMirrors | core/src/audio/AudioAnalysis.cpp:67-82 | for real samples bin n - k is the conjugate of bin k, so reading the lower half loses nothing |
| Spectrum.RootsExist | core/src/audio/AudioAnalysis.cpp:28-30 | exact twiddle factors for n = 2 and 4 meet the hypotheses |
| AudioFeatures.BandsJoin | core/src/audio/AudioAnalysis.cpp:71-82 | adjoining bands add up to the band they cover together |
| AudioFeatures.BinInBand | core/src/audio/AudioAnalysis.cpp:71-82 | bin k lies in a band if and only if lo * n <= k * rate < hi * n |
| AudioFeatures.BandSumChange | core/src/audio/AudioAnalysis.cpp:71-82 | changing a bin changes a band by the change of its magnitude if it is one of bins 1 .. n/2 - 1 and in the band, and not at all otherwise |
| AudioFeatures.WindowedEnergy | core/src/audio/AudioAnalysis.cpp:46-67 | the spectrum the bands are read from holds n times the energy of the windowed samples |
| AudioFeatures.Bands | core/src/audio/AudioAnalysis.cpp:71-82 | the three accumulators are the sums of bin magnitudes in their half-open bands |
| AudioFeatures.Analyze | core/src/audio/AudioAnalysis.cpp:46-89 | zero, level-only and full results in the same cases, the bands taken from the transform of the windowed block |
| IldaNorm.QuantiseExact | core/src/ilda/IldaCodec.cpp:38-45 | every 16-bit coordinate survives decoding and encoding |
| IldaNorm.QuantiseError | core/src/ilda/IldaCodec.cpp:38-45 | a coordinate in [-1, 1] moves by at most 1/65534 |
| IldaNorm.QuantiseNearest | core/src/ilda/IldaCodec.cpp:38-43 | the code written is the nearest one, halves away from zero, and the end of the range beyond it |
| IldaNorm.NameRoundTrip | core/src/ilda/IldaCodec.cpp:64-81 | a name is cut to eight bytes, then at the first zero, then loses trailing spaces |
| IldaNorm.NormNameExactly | core/src/ilda/IldaCodec.cpp:64-81 | exactly which bytes of a name survive: of the first eight those before the first zero, less trailing spaces |
| IldaNorm.ReadNameClean | core/src/ilda/IldaCodec.cpp:70-81 | names read are at most eight bytes, without zeros or trailing spaces |
| IldaNorm.CleanNameFixed | core/src/ilda/IldaCodec.cpp:64-81 | such names survive unchanged |
| IldaNorm.NormIdempotent | core/src/ilda/IldaCodec.cpp:106-256 | normalising a frame twice is normalising it once |
| IldaNorm.ReaderCanonical | core/src/ilda/IldaCodec.cpp:143-256 | whatever the bytes, every frame read is non-empty, within the count, and already normalised |
| IldaSections.SectionRoundTrip | core/src/ilda/IldaCodec.cpp:162-245 | the reader consumes exactly one palette, indexed or true-colour section, whatever follows |
| IldaSections.ReaderRefinesFold | core/src/ilda/IldaCodec.cpp:143-256 | on any mix of sections: frames in order, indexed ones coloured by the latest preceding palette, index clamped to its end |
| IldaColours.ColouredByLatestPalette | core/src/ilda/IldaCodec.cpp:180-245 | among any sections, a point has its record's position, blanking and colour; an index means the entry of the latest palette before the frame, its last entry when past the end |
| IldaColours.ColouredByDefault | core/src/ilda/IldaCodec.cpp:228-236 | with no palette before it an index means an entry of the default table, 63 at most |
| IldaColours.DefaultTable | core/src/ilda/IldaCodec.cpp:19-36 | the table: eight full colours, then pale ones round the wheel in eleven even steps a channel |
| IldaColours.StepIsNearest | core/src/ilda/IldaCodec.cpp:19-36 | the ramps of the table are even, to the nearest level |
| IldaColours.FirstHeader | core/src/ilda/IldaCodec.cpp:153-213 | formats 0, 1, 2, 4 and 5 and no others, with record sizes 8, 6, 3, 10 and 8; each first-section failure with its error |
| IldaSections.AnyBytesFold | core/src/ilda/IldaCodec.cpp:143-256 | any byte string is whole sections and a rest that starts none; the reader returns the fold over those sections with the verdict on that rest |
| IldaSections.AcceptsExactly | core/src/ilda/IldaCodec.cpp:143-256 | the reader succeeds if and only if the bytes are valid sections followed by a zero-record header, or by fewer bytes than a header after at least one section |
| IldaCodec.WriteFrame | core/src/ilda/IldaCodec.cpp:111-136 | appends one frame's header and point records |
| IldaCodec.WriteIlda | core/src/ilda/IldaCodec.cpp:106-141 | produces the stream's bytes, ended by the zero-record header |
| IldaCodec.ReadPaletteSection | core/src/ilda/IldaCodec.cpp:180-187 | replaces the palette by the section's triples |
| IldaCodec.ReadPointRecords | core/src/ilda/IldaCodec.cpp:216-244 | reads the point records of one frame |
| IldaCodec.ReadFrameSection | core/src/ilda/IldaCodec.cpp:210-245 | reads one frame section |
| IldaCodec.ReadIlda | core/src/ilda/IldaCodec.cpp:143-256 | the section loop, every error case and the frames kept on error included |
| IldaRoundTrip.StreamRoundTrip | core/src/ilda/IldaCodec.cpp:106-256 | any stream, from any palette and followed by any bytes, gives the normalised frames before the first end marker |
| IldaRoundTrip.WriteReadIlda | core/src/ilda/IldaCodec.cpp:106-256 | reading a written stream is ok and returns exactly those frames |
| IldaRoundTrip.NoFrameLostExactly | core/src/ilda/IldaCodec.cpp:113-117 | all frames come back, normalised, if and only if each has 1 to 65535 points |
| IldaRoundTrip.EmptyFrameHidesRest | core/src/ilda/IldaCodec.cpp:168-171 | a frame whose count reads as zero, wherever it stands, hides itself and every frame after it, and the read still succeeds |
| IldaRoundTrip.ReadWriteFixed | core/src/ilda/IldaCodec.cpp:106-256 | frames read from any bytes are a fixed point of writing and reading |
| IldaRoundTrip.HeaderCarriesNumbers | core/src/ilda/IldaCodec.cpp:83-102 | each header holds the signature, the format, the padded names, the frame's number and the total, and zeros elsewhere |
| IldaRoundTrip.LastPointFlag | core/src/ilda/IldaCodec.cpp:124-131 | each status byte is exactly the blanking bit of its point and, on the last point only, the last-point bit |
| IldaRoundTrip.TruncationKeepsPrefix | core/src/ilda/IldaCodec.cpp:153-256 | cutting any bytes short, from any palette, only loses frames from the end |
| IldaRoundTrip.PartialFileKeepsPrefix | core/src/ilda/IldaCodec.cpp:143-256 | the same for a whole file |
| ShowFile.WriteEffect | core/src/show/ShowFile.cpp:155-164 | appends one effect record |
| ShowFile.WriteCue | core/src/show/ShowFile.cpp:141-165 | appends one cue, with its frames as an embedded blob |
| ShowFile.WriteTimeline | core/src/show/ShowFile.cpp:169-176 | appends the timeline block |
| ShowFile.WriteShow | core/src/show/ShowFile.cpp:134-178 | produces the bytes of a version 5 file |
| ShowLayout.HeaderLayout | core/src/show/ShowFile.cpp:134-140 | letters, version, name and cue count at their offsets |
| ShowLayout.CueLayout | core/src/show/ShowFile.cpp:141-151 | each field of a cue at its offset after the name |
| ShowLayout.EffectLayout | core/src/show/ShowFile.cpp:155-164 | the sixteen bytes of an effect, flags written as 0 and 1 |
| ShowLayout.OlderEffects | core/src/show/ShowFile.cpp:13-17 | version 4 has no tempo byte, earlier versions no effect list |
| ShowLayout.TimelineLayout | core/src/show/ShowFile.cpp:169-172 | each field of the timeline block at its offset |
| ShowLayout.StepLayout | core/src/show/ShowFile.cpp:173-176 | twelve bytes a step, time before cue |
| ShowFile.Reader.U8 | core/src/show/ShowFile.cpp:59-68 | reads a byte or fails, whatever happened before |
| ShowFile.Reader.U32 | core/src/show/ShowFile.cpp:70-82 | reads a little-endian word or fails |
| ShowFile.Reader.U64 | core/src/show/ShowFile.cpp:91-105 | reads eight little-endian bytes or fails |
| ShowFile.Reader.Blob | core/src/show/ShowFile.cpp:107-129 | reads a length-prefixed string or blob; fails if either part is short or the reader had failed |
| ShowFile.Reader.EffectList | core/src/show/ShowFile.cpp:225-243 | the effect loop with its version branches |
| ShowFile.Reader.Cue | core/src/show/ShowFile.cpp:197-243 | one pass of the cue loop: pushed, broken off, or rejected for its frames |
| ShowFile.Reader.TimelineBlock | core/src/show/ShowFile.cpp:249-265 | the timeline block, or the default before version 3 |
| ShowFile.ReadShow | core/src/show/ShowFile.cpp:180-273 | magic, version, cue loop, timeline and final verdict |
| ShowLayout.HeaderVerdict | core/src/show/ShowFile.cpp:180-194 | only files that begin with RFSH and a version from 2 to 5 can load; wrong letters and other versions are told apart |
| ShowRoundTrip.BlobReadExactly | core/src/show/ShowFile.cpp:107-129 | a string or blob comes back with the reader still good if and only if its length prefix and bytes stand at the cursor and nothing failed before |
| ShowRoundTrip.CueReread | core/src/show/ShowFile.cpp:197-243 | whatever its frames, a written cue reads back as its other fields and whatever its embedded stream reads as |
| ShowRoundTrip.CueRoundTrip | core/src/show/ShowFile.cpp:141-245 | one cue comes back with its frames normalised, in every version |
| ShowRoundTrip.ShowReread | core/src/show/ShowFile.cpp:134-273 | whatever the frames, a written file of any readable version reads as what its embedded streams read as, leaving exactly the bytes that follow |
| ShowRoundTrip.WriteReadShow | core/src/show/ShowFile.cpp:134-273 | a file of any readable version, followed by any bytes, loads as what that version keeps and leaves exactly those bytes |
| ShowRoundTrip.CurrentVersionKeepsAll | core/src/show/ShowFile.cpp:134-178 | version 5 changes nothing but the frames: every other field, effect, step and bit pattern is kept |
| ShowLayout.VersionsKeep | core/src/show/ShowFile.cpp:13-17 | tempo flags are kept from version 5, effects from 4, the timeline from 3, and read as defaults before |
| ShowExact.CuesExactly | core/src/show/ShowFile.cpp:141-245 | the cue loop keeps every frame of every cue if and only if each frame has 1 to 65535 points |
| ShowExact.SavedShowSurvivesExactly | core/src/show/ShowFile.cpp:134-273 | a show whose lengths fit loads back whole, frames normalised, if and only if every frame has 1 to 65535 points |
| ShowDelimiting.TrailingBytesIgnored | core/src/show/ShowFile.cpp:54-273 | for any bytes that load, further bytes change neither the show nor what was consumed |
| ShowDelimiting.WrittenShowDelimited | core/src/show/ShowFile.cpp:134-273 | what a written file reads as does not depend on the bytes after it, a rejected embedded stream included |
| ShowDelimiting.StrictPrefixRejected | core/src/show/ShowFile.cpp:54-273 | every strict prefix of a written file is rejected, in every readable version and whatever its frames |
| ShowFixedPoint.ShowAccepted | core/src/show/ShowFile.cpp:180-273 | what the reader guarantees of any show it accepts |
| ShowFixedPoint.LoadedIsFixedPoint | core/src/show/ShowFile.cpp:134-273 | any accepted show, of any version, is a fixed point of saving and loading |
| SharedTelemetry.WriterStepKeeps | engine/src/ipc/SharedTelemetry.hpp:66-77 | each store of the writer keeps the memory and counter invariant and what the reader knows |
| SharedTelemetry.ReaderStepKeeps | engine/src/ipc/SharedTelemetry.hpp:81-100 | each load of the reader keeps it, accepting only a whole frame |
| SharedTelemetry.NoTornSnapshot | engine/src/ipc/SharedTelemetry.hpp:66-100 | in every interleaving an accepted snapshot is exactly the frame published at the sequence loaded, current throughout the attempt, given fewer than 2^31 publications in it |
| SharedTelemetry.TornAfterFullWrap | engine/src/ipc/SharedTelemetry.hpp:83-97 | with 2^31 publications in one attempt a mixture of two frames is accepted |
| SharedTelemetry.NeverTornExactly | engine/src/ipc/SharedTelemetry.hpp:66-100 | snapshots accepted after at most n publications are always published frames if and only if n is below 2^31 |
| SharedTelemetry.UndisturbedAttempt | engine/src/ipc/SharedTelemetry.hpp:81-100 | an attempt that starts between writes and meets no writer step accepts the newest frame |
| SharedTelemetry.EightAttempts | engine/src/ipc/SharedTelemetry.hpp:82-98 | in every run a call is at the attempt numbered by its failed ones, gives up after exactly eight, accepts after fewer |
| SharedTelemetry.RetryAccepts | engine/src/ipc/SharedTelemetry.hpp:81-100 | whatever disturbed the first attempts of a call, up to seven, the next one that begins between writes and is left alone accepts the newest frame |
| SharedTelemetry.PublishAdds | engine/src/ipc/SharedTelemetry.hpp:66-77 | in any run, publishing adds the first 4096 points as a frame and leaves them in shared memory |
| SharedTelemetry.EngineTelemetry.WritePreview | engine/src/ipc/SharedTelemetry.hpp:66-77 | run alone: the counter moves on by two and the memory holds the frame, cut at capacity |
| SharedTelemetry.EngineTelemetry.ReadPreview | engine/src/ipc/SharedTelemetry.hpp:81-100 | run alone: a stable frame is returned at once, an unfinished one never |
| LaserOutput.MockLaserOutput.SetArmed | engine/src/output/MockLaserOutput.hpp:9-15 | disarming drops the held frame |
| LaserOutput.MockLaserOutput.SendFrame | engine/src/output/MockLaserOutput.hpp:22-29 | a disarmed output refuses the frame and counts nothing |
| SafetySupervisor.SafetySupervisor.RequestArm | engine/src/safety/SafetySupervisor.cpp:30-59 | refused exactly when latched; otherwise arms every output and counts as a heartbeat, not as a frame |
| SafetySupervisor.SafetySupervisor.TriggerEmergencyStop | engine/src/safety/SafetySupervisor.cpp:61-77 | latches and darkens every output |
| SafetySupervisor.SafetySupervisor.ClearEmergencyStop | engine/src/safety/SafetySupervisor.cpp:79-95 | leaves the latch, and only the latch, for Blanked |
| SafetySupervisor.SafetySupervisor.Tick | engine/src/safety/SafetySupervisor.cpp:97-130 | an armed supervisor trips for a lost heartbeat if and only if now > last heartbeat + timeout, for a stall if and only if it does not and now > last frame + timeout; a trip darkens every output, otherwise nothing changes |
| SafetyRuns.DarkUnlessArmed | engine/src/safety/SafetySupervisor.cpp:30-130 | in every interleaving: lock free and not armed means every output is dark; mid-loop, every output already visited is |
| SafetyRuns.NoFrameAfterEStop | engine/src/safety/SafetySupervisor.cpp:61-95 | after a completed emergency stop no output accepts a frame in any continuation without a clear followed by an arm |
| SafetyWatch.StopTakesEffect | engine/src/safety/SafetySupervisor.cpp:61-77 | a stop that gets the lock latches at once and stays latched in every continuation without a clear, every output dark whenever the lock is free |
| SafetyWatch.StopCompletes | engine/src/safety/SafetySupervisor.cpp:61-77 | left alone, it ends latched with every output dark and no frame more |
| SafetyWatch.ArmCompletes | engine/src/safety/SafetySupervisor.cpp:30-59 | an arming is refused while latched and otherwise, left alone, ends armed with every output armed and the frame clock as it was |
| SafetyWatch.ClearTakesEffect | engine/src/safety/SafetySupervisor.cpp:79-95 | a clear leaves the latch, and nothing else, for Blanked |
| SafetyRuns.HeartbeatLossBound | engine/src/safety/SafetySupervisor.cpp:97-130 | watchdog latency: armed means a heartbeat or arming within timeout + period; past that every output is dark once the lock is free |
| SafetyWatch.ReportsExactly | engine/src/safety/SafetySupervisor.cpp:97-130 | in every run, each alarm is reported if and only if the watchdog looked at an armed supervisor more than the timeout after the last heartbeat or arming, or, the interface alive, after the last frame |
| SafetyWatch.StaysArmed | engine/src/safety/SafetySupervisor.cpp:97-130 | while heartbeats and frames come in time an armed supervisor stays armed until an emergency stop |
| SafetyRuns.NoFramesNoStall | engine/src/safety/SafetySupervisor.cpp:107-119 | in a run without a produced frame the stall watchdog never fires |
| SafetyRuns.ArmUndoneByNextTick | engine/src/safety/SafetySupervisor.cpp:107-119 | without a new frame, an armed supervisor survives the next tick if and only if the interface is alive and the last frame, however long before the arming, is within the timeout |
| SafetyRuns.DormantExactly | engine/src/safety/SafetySupervisor.cpp:44-48 | from any safe state: no run without a produced frame reports a stall if and only if no frame was ever produced or the loop is just showing one |
| SafetyRuns.DormantUntilFirstFrame | engine/src/safety/SafetySupervisor.cpp:107-119 | the same for every state a run from start-up reaches |
| SafetyRuns.StallReached | engine/src/main.cpp:301-321 | a run from start-up, one frame and then a gap, in which the watchdog reports a stall and locks the engine out |
| SafetyRuns.GapLocksOut | engine/src/safety/SafetySupervisor.cpp:107-119 | between sends, any gap beyond the timeout locks the engine out, whatever the supervisor's state |
| SafetyRuns.StallTripLocksOut | engine/src/safety/SafetySupervisor.cpp:111-123 | a stall trip puts the main loop where no frame can follow |
| SafetyRuns.StallLocksOut | engine/src/main.cpp:301-321 | from there no frame is shown in any run whose arm commands miss the window between tick and state check |
| SafetyRuns.WindowRecovers | engine/src/main.cpp:301-321 | an arm inside that window gets one frame out and restarts the frame clock |
| SafetyRuns.UninterruptedStop | engine/src/safety/SafetySupervisor.cpp:67-70 | left alone, the step-by-step loop of a stop does what the sequential call does |
| Timeline.StepsInInterval | core/src/show/Timeline.cpp:5-18 | exactly the indices of steps in (from, to], in order |
| Timeline.Join | core/src/show/Timeline.cpp:5-18 | on a sorted timeline adjacent intervals join without loss, repetition or reordering |
| Timeline.WholeStretch | core/src/show/Timeline.cpp:5-18 | an interval covering every step fires every step |
| Sequencer.Sequencer.Start | engine/src/playback/Sequencer.cpp:26-31 | restarts just below time zero |
| Sequencer.Sequencer.Tick | engine/src/playback/Sequencer.cpp:47-93 | the catch-up loop terminates and fires the cues of every cycle passed, in order |
| Sequencer.CatchUpShape | engine/src/playback/Sequencer.cpp:64-76 | one catch-up completes the current cycle, adds whole cycles and opens the next |
| Sequencer.ScheduleKept | engine/src/playback/Sequencer.cpp:47-93 | after every tick of a looping run the trace is whole cycles plus the steps up to the current position |
| Sequencer.UnrolledSchedule | engine/src/playback/Sequencer.cpp:47-93 | the same with every cue of the timeline in each cycle |
| SequencerExact.UpToIsPrefix | core/src/show/Timeline.cpp:5-18 | the part of a cycle up to a moment is exactly the steps at or before it |
| Sequencer.QuotientAndRemainder | engine/src/playback/Sequencer.cpp:64-76 | with a whole-tick duration D and elapsed E: E / D cycles, then the steps up to E % D |
| Sequencer.TickIndependence | engine/src/playback/Sequencer.cpp:47-93 | the trace depends on the last tick's time only, not on when the sequencer was ticked |
| SequencerExact.TickIndependentExactly | engine/src/playback/Sequencer.cpp:47-93 | cues never depend on the tick times if and only if the timeline is empty or its cycle is a whole number of clock ticks |
| SequencerExact.FractionalCycleDiffers | engine/src/playback/Sequencer.cpp:64-76 | for every other timeline, a run of one tick and a run of two ending together fire different numbers of cues |
| Sequencer.FractionalCycleDepends | engine/src/playback/Sequencer.cpp:70-72 | one such pair, written out |
| Sequencer.OnePass | engine/src/playback/Sequencer.cpp:77-83 | without looping each step up to the last live tick fires once, in order, and playback ends past the duration |
| SequencerExact.PlaysUntilEnd | core/src/show/Timeline.cpp:20-25 | a timeline that does not loop is playing if and only if the last tick was before its duration |
| SequencerExact.EndsAtFirstTickPast | engine/src/playback/Sequencer.cpp:77-83 | it stands at the first tick at or past the duration, every step within the duration fired once |
| SequencerExact.LoopNeverStops | core/src/show/Timeline.cpp:20-23 | a timeline that loops never stops by itself |
| ShowEditing.Document.RemoveCue | core/src/show/ShowEditing.cpp:5-24 | drops the cue, its steps, and shifts higher indices; out of range changes nothing |
| ShowEditing.ShiftKeepsCue | core/src/show/ShowEditing.cpp:17-19 | every surviving index denotes the cue it denoted before |
| ShowEditing.RemovalKeepsProgramme | core/src/show/ShowEditing.cpp:12-23 | the remaining steps play the same cues at the same times as before |
| ShowEditing.RemovalKeepsTimeline | core/src/show/ShowEditing.cpp:5-24 | sortedness, span and in-range indices are kept |
| ShowEditing.RemovalKeepsRest | core/src/show/ShowEditing.cpp:5-11 | names, duration and looping stay; out of range everything does |
| ShowEditing.RemovalsCommute | core/src/show/ShowEditing.cpp:5-24 | two removals commute after adjusting the later index |
| ShowEditing.EditThenPlay | engine/src/playback/Sequencer.cpp:58-83 | for any tick times the edited timeline drives the player identically and fires the trace less the removed cue |
| ShowEditing.RemovalCommutesWithPlayback | core/src/show/ShowEditing.cpp:5-24 | as cue values: playback after removal is playback before it with the cue's triggers deleted |
| BeatDetector.BeatDetector.Process | core/src/audio/BeatDetector.cpp:12-32 | after any inputs, a beat is reported if and only if the new one stands out from the mean of the last window inputs and no earlier report silences it; the window and the sum are exactly theirs |
| BeatDetector.BeatDetector.Reset | core/src/audio/BeatDetector.cpp:34-38 | forgets every input: later calls report as a new detector would |
| BeatDetector.SlidingRefinesReference | core/src/audio/BeatDetector.cpp:7-32 | over any run the window is the last inputs, as many as configured and one if none were, the sum is exactly theirs, and reports are those of a detector that recomputes the mean and looks back |
| BeatDetector.ReportExactly | core/src/audio/BeatDetector.cpp:12-32 | report k from the inputs alone: above the floor, above the sum of the window divided by its size times the sensitivity, and past the refractory period of every beat before |
| BeatDetector.BeatsApart | core/src/audio/BeatDetector.cpp:17-23 | beats are at least refractoryFrames + 1 calls apart |
| BeatDetector.SecondBeatExactly | core/src/audio/BeatDetector.cpp:17-23 | a second beat is possible if and only if refractoryFrames is not negative |
| BeatDetector.NegativeSettingLosesSpike | core/src/audio/BeatDetector.cpp:17-23 | with a setting of -1 the second of two spikes goes unreported |
| BeatDetector.SteadyInputSilent | core/src/audio/BeatDetector.cpp:17-20 | constant nonnegative input never beats at sensitivity one or more |
| MotionEffect.ApplyRotate | core/src/effects/MotionEffect.cpp:20-41 | in place, every point rotated by the direction's angle |
| MotionEffect.ApplyRunner | core/src/effects/MotionEffect.cpp:57-82 | colours exactly the points within the wrapped window |
| MotionEffect.ApplyStrobe | core/src/effects/MotionEffect.cpp:84-92 | blanks everything in the off part of the cycle |
| MotionEffect.ApplyColorCycle | core/src/effects/MotionEffect.cpp:127-141 | recolours lit points only |
| MotionEffect.ApplyTrace | core/src/effects/MotionEffect.cpp:160-182 | blanks the points past the cursor |
| MotionEffect.ApplyTwinkle | core/src/effects/MotionEffect.cpp:194-204 | blanks the points the hash drops at this time step |
| MotionEffect.ApplyEffect | core/src/effects/MotionEffect.cpp:208-241 | dispatches on the effect; a disabled or unknown one changes nothing |
| MotionEffect.ApplyEffects | core/src/effects/MotionEffect.cpp:243-248 | the stack in order, each effect on the previous result |
| MotionEffect.LitSetOfStack | core/src/effects/MotionEffect.cpp:243-248 | the lit set is the original one cut by every effect's mask, each depending on index, count and time only |
| MotionEffect.LitSetIgnoresOrder | core/src/effects/MotionEffect.cpp:243-248 | reordering or repeating effects does not change which points are lit |
| MotionEffect.DarkStaysDark | core/src/effects/MotionEffect.cpp:127-141 | no stack un-blanks a point, nor recolours it without a runner |
| EffectTiming.StrobeAt | core/src/effects/MotionEffect.cpp:84-92 | in cycle k everything stays while rate * t < k + amount and is blanked for the rest |
| EffectTiming.IdleEffect | core/src/effects/MotionEffect.cpp:208-213 | a disabled or unknown effect changes nothing |
| EffectTiming.TraceAt | core/src/effects/MotionEffect.cpp:160-182 | the points kept are those up to the cursor, which rises forwards, falls in reverse and does both in ping-pong |
| EffectTiming.RunnerAt | core/src/effects/MotionEffect.cpp:57-82 | the points recoloured are those within half of amount of the cursor, going round the ends |
| EffectTiming.CyclesRepeat | core/src/effects/MotionEffect.cpp:57-182 | runner, strobe, colour cycle and trace repeat after whole cycles |
| EffectTiming.HueOnWheel | core/src/effects/MotionEffect.cpp:109-125 | one channel full, one off, the third moving along each sixth of the wheel |
| EffectTiming.ColourCycleAt | core/src/effects/MotionEffect.cpp:127-141 | the hue of a lit point from rate, time, direction and its place along the shape |
| EffectTiming.TwinkleByHash | core/src/effects/MotionEffect.cpp:194-204 | in time step k the points kept are those whose hash is below amount |
| EffectTiming.TwinkleHolds | core/src/effects/MotionEffect.cpp:194-204 | the pattern stays for a whole time step |
| EffectTiming.TwinkleAt | core/src/effects/MotionEffect.cpp:194-204 | an amount of one keeps all points, zero none |
| EffectTiming.TwinkleGrows | core/src/effects/MotionEffect.cpp:194-204 | a larger amount only lights more points |
| EffectTiming.HashValues | core/src/effects/MotionEffect.cpp:186-192 | values of the 32-bit hash |
| EffectTiming.HashUnitIs | core/src/effects/MotionEffect.cpp:186-192 | the hash as a share of its 24-bit range, index and step taken as 32-bit words |
| MotionEffect.PositionsOfStack | core/src/effects/MotionEffect.cpp:208-248 | positions after a stack are those after its rotate, wave, pulse and bounce effects alone, whatever the colours and the blanking |
| MotionEffect.StackIsOneMap | core/src/effects/MotionEffect.cpp:208-248 | a stack moves every point by one affine map that depends on the stack and the time only |
| EffectTiming.RotateAt | core/src/effects/MotionEffect.cpp:20-41 | the angle and sense of each direction, ping-pong swinging up to amount turns |
| EffectTiming.RotateBack | core/src/effects/MotionEffect.cpp:20-41 | rotating in reverse undoes rotating forward |
| EffectTiming.WaveAt | core/src/effects/MotionEffect.cpp:43-55 | the same offset for every point, the opposite one in reverse |
| EffectTiming.BounceAt | core/src/effects/MotionEffect.cpp:143-158 | a bounce stays on one side of the baseline, at most amount away |
| EffectTiming.PulseAt | core/src/effects/MotionEffect.cpp:94-106 | the scale about the centre and its phase |
| MotionEffect.RotationStackRigid | core/src/effects/MotionEffect.cpp:20-41 | a stack that moves points only by rotation keeps every radius and every distance between two points |

## Left out

- SharedTelemetry: memory is sequentially consistent; the weaker ordering of relaxed loads and of the plain float stores is not modelled.
- SafetyRuns: registering or replacing outputs while running, the event callbacks that run outside the lock, and an output's own mutex, whose calls are taken as atomic.
- SafetySupervisor.RegisterOutput: asks that an output is not registered twice, because the model counts each output once; the engine registers one.
- Sequencer: the clock is read once per tick and the timeline stays the same during a run; replacing it mid-playback is not covered by the run theorems.
- ShowFormat.ParseShow: a failed read returns only the error, not the partly filled show that the code leaves beside it; error texts are constructors.
- MotionEffect.HashUnit: a negative time step is reduced modulo 2^32, where the code's conversion is undefined.
- AudioFeatures.Analyze: a null sample pointer is the empty block; window, magnitude and square root are parameters.
- Floating-point rounding, infinities and not-a-number values: arithmetic is exact, stored floats are bit patterns.
- File reading and writing, default paths, shared-memory mapping, named pipes, MIDI and audio devices, Art-Net and libera outputs: operating-system and library calls.
- Frame generation, cue frame indexing, transforms, oscillators, MIDI parsing, demo content and the master controls of the main loop: small case splits that would add only easy members.
- The Qt user interface; it sorts timeline steps before saving (ui/src/TimelineEditor.cpp:675-678), which is the sortedness the run theorems ask for.
