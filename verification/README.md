# VOX switch and audio stream rules, modelled in Dafny

This project models two parts of baresip.

1. **The vox filter module.** It is a voice-operated switch for radio use. Each decoded audio frame records its loudness in dBov. A 100 ms timer then decides whether the push-to-talk (PTT) output is on:
   - a squelch input preempts everything;
   - a loud enough tick re-arms a hold counter;
   - the output stays on while the counter runs down;
   - a write to the PTT pin happens only when the output changes.

   The module-global configuration and PTT state, and the decoder's level and `started` flag, are one immutable record (`Vox.State`). Every entry point is a pure step function. A GPIO read is an input `bool`. A GPIO write is a `Vox.Write` in an output trace.
2. **The self-contained integer rules of the audio stream object:**
   - the packet sample count;
   - codec comparison and the codec and packet-time guards;
   - the client-to-mixer audio level byte (section 3 of RFC 6464), as sent and as received;
   - the error precedence of the level query;
   - the EBU ACIP jitter buffer bounds;
   - the rule for adopting the peer's packet time;
   - DTMF key press/release tracking.

Modules:
- `CTypes`: C integer widths, two's complement reduction to `uint32`, C's truncating division, errno values.
- `Vox`: the vox.c engine.
- `VoxTraces`: runs of the engine over input sequences, and lemmas about them.
- `Audio`: the audio.c rules.
- `AudioDigit`: the DTMF key tracking.

C's fixed-width arithmetic is written out where it matters:
- `calc_nsamp` multiplies in 32 bits;
- the automatic jitter buffer doubles in 32 bits;
- the peer's packet time goes from `atoi`'s `int` into a `uint32`;
- the hold time is divided with C's truncating division.

### How the hold counter behaves in the code

- A tick decides the output from the counter before decrementing it. So the output is not "the counter is positive after the tick": the last tick of a hold ends with the output on and the counter at 0 (`VoxTraces.LastHoldTickEndsAtZero`). The exact relation is the fourth ensures clause of `Vox.Update`: the output is on exactly when the tick consumed one unit of the counter.
- A qualifying tick arms the counter with `hold_time / period` and consumes one unit in the same tick. So after any tick from a reachable state the counter is at most `max(0, hold_time / period - 1)` (`VoxTraces.Bounded`).
- The configuration integers are C `int`s filled from unsigned settings. A hold time of 2^31 ms or more becomes negative, which gives a negative hold tick count. The hold-time lemmas are stated for every hold tick count `N`: the output is on for the first `N` ticks, which means never when `N <= 0`.

## Model

| member | source | states |
|---|---|---|
| `Vox.HoldTicks` | modules/vox/vox.c:72 | the re-arm count is the hold time divided by the 100 ms period, truncated toward zero for negative hold times as well as non-negative ones; it is positive exactly when the hold time is at least one period |
| `Vox.CeilingDecidesAlike` | modules/vox/vox.c:71 | comparing the measured loudness with `-threshold` gives the same outcome as comparing its ceiling, so an integer level loses nothing |
| `Vox.Squelch` | modules/vox/vox.c:43-50 | with a squelch pin configured, squelch is asserted exactly when the pin reads high; without one it is never asserted |
| `Vox.PttSet` | modules/vox/vox.c:53-64 | the last applied value always becomes the requested one; at most one write, issued exactly when the value changes and a PTT pin is configured, and it writes the requested value to that pin |
| `Vox.Armed` | modules/vox/vox.c:69-73 | the counter before the output decision: 0 under squelch, the hold tick count after a level strictly above `-threshold`, the previous counter otherwise; never negative for a non-negative hold time and counter |
| `Vox.Update` | modules/vox/vox.c:67-81 | squelch zeroes the counter and turns the output off whatever the level or prior counter; a level strictly above `-threshold` re-arms the counter on every such tick; otherwise the counter only counts down; the output is on exactly when the tick consumed one unit of the counter; a write happens exactly on an output change with a pin configured |
| `Vox.TimerTick` | modules/vox/vox.c:93-102 | before the first accepted frame a tick changes nothing and writes nothing; afterwards it decides on the latest recorded level |
| `Vox.Decode` | modules/vox/vox.c:133-144 | a call with a null argument returns EINVAL and leaves the state untouched; otherwise the level is recorded and the engine marked started; the counter and output are never touched |
| `Vox.Close` | modules/vox/vox.c:187-192 | closing leaves the output off, and writes (off, to the PTT pin) exactly when the output was on and a pin is configured; the counter, level and started flag are unchanged |
| `VoxTraces.Ticks` | modules/vox/vox.c:67-81 | a run of decisions yields one output per tick; the last applied value is the last output |
| `VoxTraces.InitialBounded` | modules/vox/vox.c:41 | the load-time state satisfies the counter bound |
| `VoxTraces.UpdateKeepsBounded` | modules/vox/vox.c:69-80 | with a non-negative hold time, one decision keeps the counter in `0 .. max(0, N - 1)` |
| `VoxTraces.TicksKeepBounded` | modules/vox/vox.c:69-80 | the counter bound holds after any sequence of decisions |
| `VoxTraces.QuietCountdown` | modules/vox/vox.c:75-80 | over quiet ticks, a counter `m` keeps the output on for exactly the first `m` ticks, then the counter rests at 0 (or stays at `m` when `m <= 0`) |
| `VoxTraces.HoldTime` | modules/vox/vox.c:71-80 | one qualifying tick followed by quiet ticks gives exactly `N` consecutive "on" ticks starting with the qualifying one, then "off", from any prior state |
| `VoxTraces.ShortHoldNeverOn` | modules/vox/vox.c:72-80 | with a hold time under 100 ms, the output never turns on from any state whose counter is not positive |
| `VoxTraces.SquelchedTicksAreOff` | modules/vox/vox.c:69-70 | over any run, every tick with squelch asserted has the output off |
| `VoxTraces.WritesAreTransitions` | modules/vox/vox.c:53-64 | over any run, the writes are exactly the output's transitions from the last applied value; with no PTT pin nothing is ever written |
| `VoxTraces.IdleTicksWriteAtMostOnce` | modules/vox/vox.c:53-57 | with the counter spent and quiet ticks (of any levels), at most one write happens, and none if the output was already off |
| `VoxTraces.ConstantOuts` | modules/vox/vox.c:69-80 | repeating one input decides the same output on every tick: on exactly when the input qualifies and the hold is at least one tick (a repeated quiet input needs a spent counter) |
| `VoxTraces.ConstantTicksWriteAtMostOnce` | modules/vox/vox.c:53-81 | repeating one input issues at most one write, none when the output already has the value that input decides, and ends with that value applied |
| `VoxTraces.TicksThenClose` | modules/vox/vox.c:187-192 | a run followed by closing ends with the output off; all its writes are exactly the transitions of the run's outputs followed by a final "off" |
| `VoxTraces.DefaultConfigDryRun` | modules/vox/vox.c:36-39 | the built-in configuration (threshold 60, hold 1000 ms, no pins) never writes and never squelches, and holds for 10 ticks |
| `VoxTraces.PttPinOnlyAffectsWrites` | modules/vox/vox.c:59-63 | two configurations differing only in the PTT pin reach the same state and decide the same outputs |
| `VoxTraces.Run` | modules/vox/vox.c:93-144 | over frames and ticks, the engine is started exactly when it was or some frame was accepted; every write goes to the PTT pin, none without one, and at most one per event |
| `VoxTraces.IdleUntilFirstFrame` | modules/vox/vox.c:99-101 | before any accepted frame, ticks and rejected frames leave the state unchanged and write nothing |
| `VoxTraces.FrameThenTick` | modules/vox/vox.c:137-141 | a tick after an accepted frame decides on that frame's level |
| `VoxTraces.LastHoldTickEndsAtZero` | modules/vox/vox.c:75-78 | with one tick of hold left, a quiet tick keeps the output on and leaves the counter at 0 |
| `VoxTraces.ScenarioHold` | modules/vox/vox.c:71-80 | threshold 60, hold 200 ms, levels -50, -80, -80 dBov: outputs on, on, off |
| `VoxTraces.ScenarioSquelch` | modules/vox/vox.c:69-70 | same configuration, squelch asserted on the second qualifying tick: outputs on, off |
| `Audio.CalcNsamp` | src/audio.c:300-304 | the sample count is at most (2^32 - 1) / 1000, and 0 for zero channels or a zero packet time |
| `Audio.CalcNsampWrapsOnce` | src/audio.c:300-304 | wrapping after each multiplication is wrapping the exact product once: the count is the whole thousands of the product modulo 2^32 |
| `Audio.CalcNsampExact` | src/audio.c:300-304 | without 32-bit overflow the sample count is the product of rate, channels and packet time divided by 1000, rounded down |
| `Audio.CalcNsampWithinSampsz` | src/audio.c:55-61 | within 48000 Hz, 2 channels and 60 ms the sample count never exceeds `AUDIO_SAMPSZ`, and the maxima give exactly 5760 |
| `Audio.CalcNsampWraps` | src/audio.c:300-304 | the 32-bit product wraps: 2^24 Hz, 1 channel and 256 ms give 0 samples |
| `Audio.CodecEqualIsPartialEquivalence` | src/audio.c:317-323 | codec equality is false when either codec is missing, and is symmetric, transitive, and reflexive on present codecs |
| `Audio.CodecEqual` | src/audio.c:317-323 | a missing codec is never equal; equal codecs have the same sample rate and channel count, and so need the same sample count at every packet time |
| `Audio.CodecEqualOnDeviceParams` | src/audio.c:322 | codecs with the same sample rate and channel count are equal, and name, payload type, clock rate and SDP channel count never change the answer |
| `Audio.AddAudioCodec` | src/audio.c:326-342 | a format is added exactly when the clock rate is at least 8000 and both channel counts are nonzero; otherwise EINVAL; when added, the status is that of adding the SDP format |
| `Audio.AcceptedCodecPacket` | src/audio.c:326-342 | an accepted codec has nonzero channel counts and a clock rate of at least 8000 Hz; at 1000..48000 Hz, up to 2 channels and a packet time `audio_alloc` admits, a packet holds 1..5760 samples |
| `Audio.AllocGuard` | src/audio.c:1165-1172 | a null result pointer or configuration gives EINVAL first; then a packet time outside 1..60 gives ENOTSUP; allocation goes ahead exactly when both are present and the packet time is in range |
| `Audio.AllocatedPtimeFits` | src/audio.c:1165-1172 | a packet time `audio_alloc` admits is in 1..60 ms, so the `jbdef` division is defined at it, and packets within the stream's limits fit the sample buffers |
| `Audio.EncodeLevel` | src/audio.c:356 | the sent level byte is always in 0..127 |
| `Audio.EncodeMeasuredLevel` | src/audio.c:356 | for a loudness of at most 0 dBov, encoding its ceiling gives the byte `(int)-level & 0x7f` computes |
| `Audio.DecodeLevel` | src/audio.c:904 | a received byte always decodes to a level in -127..0 dBov |
| `Audio.LevelRoundTrip` | src/audio.c:356 | every level in -127..0 dBov decodes back to itself after encoding |
| `Audio.LevelByteRoundTrip` | src/audio.c:904 | decoding then encoding keeps the 7-bit level field and drops the top bit |
| `Audio.LevelBelowRangeWraps` | src/audio.c:356 | a level below -127 dBov is not clamped: -128 dBov arrives as 0 dBov |
| `Audio.ReceiveLevelExts` | src/audio.c:899-911 | with no element carrying the level id, the stored level is unchanged; otherwise the level becomes the decoded byte of the last such element and is marked set; decoded levels stay in -127..0 |
| `Audio.LevelGet` | src/audio.c:2087-2102 | EINVAL for a null object, then ENOTSUP when levels are not enabled, then ENOENT when none was received; success exactly otherwise; the last level is written exactly on success with a pointer given |
| `Audio.SentLevelIsReported` | src/audio.c:2095-2099 | after a packet whose last level element carries an encoded level in -127..0, the level query returns that level |
| `Audio.JbFrames` | src/audio.c:1090 | the frame count is the number of whole packet times in the `jbdef` value |
| `Audio.EbuacipJb` | src/audio.c:1077-1120 | no reset for a type other than fixed or auto; fixed: max is the number of whole packet times in the value, min is one less but at least 1; auto: min is that frame count and max its double modulo 2^32 |
| `Audio.EbuacipFixedBounds` | src/audio.c:1092-1106 | a fixed jitter buffer of at least one frame gets max = frames and min = max(1, frames - 1), so 1 <= min <= max |
| `Audio.EbuacipAutoBounds` | src/audio.c:1107-1114 | an automatic jitter buffer gets (frames, 2 * frames) while that fits in 32 bits |
| `Audio.EbuacipFixedInverted` | src/audio.c:1100-1105 | a fixed `jbdef` value shorter than one packet gives (1, 0): min above max |
| `Audio.EbuacipAutoWraps` | src/audio.c:1113 | doubling 2^32 - 1 frames wraps the automatic maximum below the minimum |
| `Audio.EbuacipJbOrdered` | src/audio.c:1090-1114 | corrected bounds: always min <= max, fixed min >= 1, automatic min = frames; equal to the code's result wherever that is already ordered |
| `Audio.PeerPtime` | src/audio.c:2025-2050 | the peer's packet time is adopted exactly when `atoi` gave a value in 1..60 that differs from the current one (negative values wrap above 60 and are refused); with an encoder, the packet size becomes sample size times the sample count at the new packet time; otherwise nothing changes |
| `Audio.PeerPsizeFitsBuffer` | src/audio.c:2038-2046 | a packet size set from the peer's packet time, for a codec within 48000 Hz and 2 channels, fits the sample buffer of `AUDIO_SAMPSZ` samples |
| `AudioDigit.SendDigit` | src/audio.c:1913-1941 | a null object gives EINVAL; a key without an event code gives EINVAL and keeps the current key; a valid press sends the start of its event; a release sends the end of the pressed key's event with the send status, or nothing with status 0; every accepted call records the key |
| `AudioDigit.DigitRun` | src/audio.c:1913-1941 | over a sequence of calls, at most one event per call; a run of only refused keys changes nothing and sends nothing; the current key is the last accepted key, whatever refused keys follow it |
| `AudioDigit.DigitRunPaired` | src/audio.c:1920-1938 | over any sequence of keys, every end event closes the most recently started event that is still open |
| `AudioDigit.PressThenRelease` | src/audio.c:1920-1938 | from idle, a valid key press followed by a release sends exactly that key's start and end events |
| `AudioDigit.ReleaseTwice` | src/audio.c:1931-1938 | a second release sends nothing |

## Left out

- Loudness measurement (`aulevel_calc_dbov`, RMS over the samples): floating point and a library outside this model. The level is an integer dBov input that stands for the measured loudness rounded up. In vox.c the threshold comparison has the same outcome for the loudness and for its ceiling (`Vox.CeilingDecidesAlike`). In audio.c, for a loudness of at most 0 dBov, `-(int)-level` is that ceiling (`Audio.EncodeMeasuredLevel`).
- GPIO (`digitalRead`, `digitalWrite`, `pinMode`, `pullUpDnControl`, `wiringPiSetup`): hardware I/O. A squelch read is an input `bool`; writes form a trace.
- Timer scheduling (`tmr_start`, `tmr_cancel`) and the cross-thread visibility of `started`: the timer is a sequence of tick events.
- `decode_update` (decoder allocation) and `dec_destructor`: allocation glue with no decision logic.
- Module registration and configuration reading (`module_init`, `conf_get_u32`): glue. The configuration is a `Vox.Config` of unbounded integers. The overflow of negating the most negative `int` threshold is not modelled.
- Several decoder instances share the module-global counter in the code. The model has one decoder.
- RTP send and receive paths, `aubuf`, the resampler, the transmit thread, codec callbacks, telephone-event handling, timestamp wrap handling and memory management: I/O, concurrency, or code that is not part of this model.
- `Audio.ReceiveLevelExts` models only the header-extension loop of the receive handler. The earlier returns for a missing buffer, telephone events, comfort noise and payload-type changes are not modelled. An extension element is reduced to its id and first data byte.
- The `ebuacip` attribute parsing (the `jbdef` regular expression and `pl_u32`), the jitter buffer reset call and the attribute deletion: string parsing and stream plumbing. The model takes the parsed value and type.
- `Audio.PeerPtime` takes `atoi`'s result as an input. Parsing, the null-object return and the SDP attribute update are not modelled.
- `add_audio_codec`'s `sdp_format_add`: its status is an input.
- `audio_alloc` beyond its argument checks: allocation and stream setup.
- `telev_digit2code` and `telev_send`: a key-to-code function parameter and an output trace with a given status. The release key code is declared outside the modelled files; the model uses 4, and no property depends on the value.

## Findings

| source | as written | input that shows it | evidently intended | confidence | as-written member | corrected member |
|---|---|---|---|---|---|---|
| src/audio.c:1100-1105 | fixed mode raises the minimum to 1 but keeps the maximum at `frames` | `jbdef 0 fixed 10` with a 20 ms receive packet time: frames 0, reset to min 1, max 0 | a maximum no smaller than the minimum | medium, not executed | `Audio.EbuacipFixedInverted` | `Audio.EbuacipJbOrdered` |
| src/audio.c:1113 | automatic mode doubles the frame count in 32-bit arithmetic | `jbdef 0 auto 4294967295` with a 1 ms receive packet time: min 4294967295, max 4294967294 | a maximum of twice the minimum, or at least the minimum | low, not executed | `Audio.EbuacipAutoWraps` | `Audio.EbuacipJbOrdered` |
