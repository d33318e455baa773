# trm: transceiver client and sample buffer, modelled in Dafny

This project models the core of trm, a small GSM experiment in C++. The core has three parts:

- **Transcom** (`Transcom.cpp`) is a client of an OsmoTRX-style transceiver.
  - It keeps a session of two flags (`transceiverAvailable`, `setupDone`), two frame numbers (`trxFrame`, `currentFrame`) and a throttle time (`sendTm`).
  - It powers the radio off whenever a second goes by without a heartbeat.
  - On the first clock indication after that, it sends sixteen setup commands.
  - Once set up, it sends a dummy burst on timeslots 0 and 1 at most once per second.
  - It decodes the uplink bursts the transceiver reports.
- **MobileStation** (`MobileStation.cpp`) is the older client of the same protocol.
  - It sends its setup once and has no availability gate.
  - It reads the clock with `sscanf("IND CLOCK %u")`.
  - It stops on an uplink datagram of the wrong length.
- **SampleBuffer** (`RadioDevice.cpp:59-138`, with the template draft in `RadioDevice.hpp:30-122`) is a fixed-capacity ring of 16-bit samples addressed by absolute sample time. `trm.cpp` drives it from a small test routine.

## Modules

| module | what it holds |
|---|---|
| Wrappers | `Option`, and `Repeat`, the sequence of n equal elements. |
| Modular | Facts about the remainder, shared by the ring's slot arithmetic and the frame numbers. |
| Decimal | `printf("%d")` and `Integer::parseInt`. |
| Control | The control datagram `"CMD <NAME> [args]\0"`, the `makeParam` packing of a SETSLOT argument, and a decoder of that text as the transceiver reads it. The encoder is proved against the decoder. |
| Bursts | The downlink datagram of `sendData` (a method with its two loops, proved against a function) and the uplink datagram of `handleData` (a function, proved against an encoder of the transceiver's side). |
| SampleBuffers | `Ring`, the buffer as a value, whose `Write` and `Read` say what one call of `write` and `read` does. Lemmas state what these calls mean for the window of sample times. Class `SampleBuffer` is the in-place array version; its methods are proved equal to `Ring.Write` and `Ring.Read`. |
| SampleBufferDraft | The two computations in which the `RadioDevice.hpp` draft differs from `RadioDevice.cpp`. See Findings. |
| Transceiver | Transcom. Pure step functions give the session after each `select` outcome and the datagrams written. Class `Transcom` changes its fields in place and is proved to do the same. |
| Mobile | MobileStation: the `%u` scanner, the pass function of its loop, and class `MobileStation`. |
| Harness | The `writeBuffer`/`readBuffer`/`runTests` routine of `trm.cpp`. |

## Behaviour reproduced as written

Two behaviours of `SampleBuffer::write` in `RadioDevice.cpp` are kept exactly as the code has them.

- **Gap fill.** When a write leaves a gap after the window, the code zeroes the gap starting at slot `(idx + gap) % capacity`. That is not the slot of the window end, `(idx + len) % capacity`.
  - `GapFillAsWritten` exhibits one case: it wipes live samples and leaves stale ones in the gap.
  - The lemmas about write contents are therefore stated for writes that leave no gap.
- **Long gaps.** A gap of at least the capacity wraps, and the two `memset` calls then zero the whole array (`LongGapZeroes`, `LongGapWrite`).
- **Overflow.** A write that overflows sets `tm0 = t - capacity`. The window then ends at `t`, just before the samples that were written (`WriteOverflow`).

## Model

| member | source | states |
|---|---|---|
| Decimal.Digits | Transcom.cpp:39 | The digits `%d` prints for a magnitude are a non-empty run of decimal digits. The first digit is `0` only for zero. |
| Decimal.ValueOfDigits | Transcom.cpp:102 | The digits printed for n denote n. |
| Decimal.Format | Transcom.cpp:39 | `%d` prints a non-empty string made only of a minus sign and digits. |
| Decimal.ParseInt | Transcom.cpp:102 | `parseInt` accepts only a non-empty text of signs and digits, and only a value that fits 32 bits. |
| Decimal.ParseFormat | Transcom.cpp:102 | `parseInt` reads back every 32-bit value that `%d` prints. |
| Control.MakeParam | Transcom.cpp:5 | `makeParam` yields a value in 0..0xffff. |
| Control.MakeParamRoundTrip | Transcom.cpp:60 | The two numbers SETSLOT prints from `makeParam(a, b)` are `a` and `b` modulo 256. For bytes they are exactly `a` and `b`. |
| Control.Encoded | Transcom.cpp:28-66 | A sequence of `sendCommand` calls writes one datagram per call, in order, each the encoding of its call. What those datagrams mean is stated by `EncodedReadBack`. |
| Control.TextIsNameAndArgs | Transcom.cpp:33-62 | The text after `CMD ` is the command name, then each number the command carries, each after one space. |
| Control.EncodeRoundTrip | Transcom.cpp:28-66 | For every command and 32-bit parameter, the transceiver reads the datagram back as that command with the numbers printed. |
| Control.EncodeFraming | Transcom.cpp:33-63 | A control datagram starts with `CMD `. It carries exactly one NUL, as its last byte. |
| Control.SetSlotText | Transcom.cpp:59-61 | SETSLOT for `makeParam(tn, config)` prints the timeslot and then the configuration. |
| Control.EncodedReadBack | Transcom.cpp:28-66 | Each datagram of a sequence of calls reads back as its call. |
| Control.SlotCallsReadBack | Transcom.cpp:227-234 | SETSLOT `makeParam(k, configs[k])` reads back as timeslot k with configuration `configs[k]`, for byte-sized values. |
| Control.SplitJoin | Transcom.cpp:39 | A name followed by the printed arguments splits into the name and one token per argument. |
| Control.ParseFormatAll | Transcom.cpp:39 | The printed arguments parse back to the arguments. |
| Bursts.Word32OfBE32 | Transcom.cpp:133 | `getInt` reads back the frame number `putInt` wrote. |
| Bursts.BE32OfWord32 | Transcom.cpp:194 | Any four bytes `getInt` reads are the bytes `putInt` writes for that word. |
| Bursts.Int8 | Transcom.cpp:195 | A byte read as `int8_t` is in -128..127 and congruent to the byte modulo 256. |
| Bursts.Int16 | Transcom.cpp:196 | `getShort` is in -32768..32767 and congruent to the big-endian word of its two bytes. |
| Bursts.SendData | Transcom.cpp:124-149 | `sendData` returns exactly what `DataSend` prescribes: nothing when unavailable, an error for a timeslot above 7, an overflow past 1000 bytes, otherwise the padded downlink datagram. |
| Bursts.PutAll | Transcom.cpp:136-140 | The copy loop succeeds exactly when header and payload fit the 1000-byte buffer. It leaves the header followed by the payload. |
| Bursts.PadZeros | Transcom.cpp:141-144 | The padding loop extends the datagram with zeros up to 154 bytes, or leaves a longer one as it is. |
| Bursts.DownlinkLayout | Transcom.cpp:131-145 | A sent datagram is the timeslot, the frame number (read back by `getInt`), the gain, the payload, then zeros. Its length is 154 or header plus payload. |
| Bursts.DataSendWhen | Transcom.cpp:125-141 | A datagram is sent exactly when the transceiver is available, the timeslot is at most 7 and the payload fits. A burst of at most 148 bytes gives exactly 154 bytes. |
| Bursts.SoftBits | Transcom.cpp:204-207 | Each payload byte x becomes the soft bit `127 - x`, in order. That this recovers the transceiver's soft bits is stated by `HandleEncodedUplink`. |
| Bursts.HandleData | Transcom.cpp:185-209 | A burst is received exactly when the datagram is 158 bytes and the timeslot is at most 7. A wrong length is reported exactly when the length is not 158. A received burst has 150 soft bits in -128..127. |
| Bursts.HandleEncodedUplink | Transcom.cpp:185-209 | `handleData` reads back every burst the transceiver can report: timeslot, frame, RSSI, time of arrival and soft bits. |
| Bursts.ShortUplinkDropped | Transcom.cpp:189-192 | A 157-byte uplink datagram is dropped as the wrong length. |
| SampleBuffers.OverlayAt | RadioDevice.cpp:95-102 | After a wrapping copy of `src` from slot `start`, slot `(start + k) % capacity` holds `src[k]` for k below the length. Every other slot is untouched. |
| SampleBuffers.ExtractAt | RadioDevice.cpp:126-133 | The k-th sample of a wrapping copy out of the ring is slot `(start + k) % capacity`. |
| SampleBuffers.ReadCount | RadioDevice.cpp:122-123 | `read` hands back at least one and at most `l` samples, never past the window end: either `l` or all samples from t to the end. |
| SampleBuffers.WrittenEnd | RadioDevice.cpp:103 | After an accepted write the window end is the later of the old end and `t + l`. |
| SampleBuffers.Ring.Space | RadioDevice.cpp:59-61 | `space` plus the window length is the capacity. |
| SampleBuffers.Ring.Write | RadioDevice.cpp:70-112 | Every `write` leaves a consistent buffer of the same capacity. |
| SampleBuffers.Ring.Read | RadioDevice.cpp:116-138 | Every `read` leaves a consistent buffer with the same array. It hands back as many samples as it reports, and never more than asked for. |
| SampleBuffers.WriteOutcome | RadioDevice.cpp:71-77 | `write` throws exactly for a length outside 0..capacity. It returns 0 for an empty write and -1 for a write before the window, and returns `l` exactly when the write is accepted. A write that is not accepted leaves the buffer unchanged. |
| SampleBuffers.WriteAccepted | RadioDevice.cpp:78-110 | An accepted write either grows the window to cover `t + l` from the same start, or overflows and is clamped to the capacity. |
| SampleBuffers.WriteStoresSamples | RadioDevice.cpp:94-102 | An accepted write stores `b[k]` at slot `(idx + (t - tm0) + k) % capacity`, with `tm0` re-anchored at t on an empty buffer. |
| SampleBuffers.WriteWindow | RadioDevice.cpp:94-104 | A write within capacity keeps the window start and moves the end to `max(end, t + l)`. The samples of times `t .. t + l - 1` read back as `b`. |
| SampleBuffers.WriteKeepsOthers | RadioDevice.cpp:79-104 | A write within capacity that leaves no gap keeps every sample of the old window that it does not overwrite. |
| SampleBuffers.WriteNoGap | RadioDevice.cpp:79-102 | A write within capacity that leaves no gap copies `b` into the ring from the slot of time t and changes nothing else in the array. |
| SampleBuffers.WriteOverflow | RadioDevice.cpp:105-110 | An overflowing write returns `l`, clamps the length to the capacity and sets the window to `[t - capacity, t)`. |
| SampleBuffers.RefusedWriteFarAhead | RadioDevice.cpp:71-72 | Far ahead of the window, where no gap fill would fit, an empty write still returns 0 and an 11-sample write on a 10-slot ring still reports the wrong length, both leaving the buffer unchanged. |
| SampleBuffers.GapFillAsWritten | RadioDevice.cpp:82-91 | On a 10-slot ring holding 4 samples, a write at time 6 zeroes the slots of times 2 and 3, not those of the gap. |
| SampleBuffers.LongGapZeroes | RadioDevice.cpp:82-91 | A gap of at least the capacity zeroes every slot of the array. |
| SampleBuffers.LongGapWrite | RadioDevice.cpp:70-112 | On a 10-slot ring holding the sample of time 0, a write of one sample at time 12 stays inside the array. The 11-sample gap zeroes every old sample. The write then overflows to the window `[2, 12)` from slot 5, holding only the new sample, at slot 2, and returns 1. |
| SampleBuffers.ReadOutcome | RadioDevice.cpp:117-123 | `read` throws for `l <= 0`. Otherwise it returns what `available(t)` says for the past and the future, and `min(l, available(t))` inside the window. Only that last case changes the buffer. |
| SampleBuffers.ReadConsumes | RadioDevice.cpp:122-136 | An in-window read returns the next n samples of the window from t, and the window then starts at `t + n`. The window end is kept, and what followed the samples read stays. |
| SampleBuffers.ReadSampleAt | RadioDevice.cpp:125-133 | The k-th sample read is the window's sample of time `t + k`. |
| SampleBuffers.ReadLeavesAt | RadioDevice.cpp:134-136 | After the read, the window's j-th sample is the old window's sample of time `t + n + j`. |
| SampleBuffers.WriteThenRead | RadioDevice.cpp:70-138 | Writing l samples into an empty buffer and reading l at the same time gives them back and empties the buffer. |
| SampleBuffers.MemCopy | RadioDevice.cpp:96 | `memcpy` puts `count` source samples at `at` and leaves every other element alone. |
| SampleBuffers.RingCopy | RadioDevice.cpp:95-102 | The one or two copies into the ring leave exactly the overlay of the source from slot `start`. |
| SampleBuffers.RingExtract | RadioDevice.cpp:126-133 | The one or two copies out of the ring fill the caller's array with the wrapped run of n samples. The rest of that array is untouched. |
| SampleBuffers.SampleBuffer.constructor | RadioDevice.hpp:39-42 | A new buffer has the given capacity, slot 0, no samples and time 0. |
| SampleBuffers.SampleBuffer.Space | RadioDevice.cpp:59-61 | Free slots plus held samples equal the capacity. |
| SampleBuffers.SampleBuffer.Available | RadioDevice.cpp:62-67 | -1 exactly for a past time. A positive count n means t is the window sample n before the end. |
| SampleBuffers.SampleBuffer.Write | RadioDevice.cpp:70-112 | The in-place `write` returns, and leaves in the array and cursors, exactly what `Ring.Write` prescribes. |
| SampleBuffers.SampleBuffer.Store | RadioDevice.cpp:82-102 | The gap fill and the copy leave the array `Ring.Stored` prescribes, and return the slot of time t. |
| SampleBuffers.SampleBuffer.FillGap | RadioDevice.cpp:82-91 | The gap fill leaves the array `Ring.GapFilled` prescribes: the gap zeroed from slot `(idx + gap) % capacity`, or the whole array for a gap of at least the capacity. |
| SampleBuffers.SampleBuffer.Read | RadioDevice.cpp:116-138 | The in-place `read` returns what `Ring.Read` prescribes, moves the cursors the same way, and copies the samples to the front of the caller's array. |
| SampleBufferDraft.DraftReadCountNegative | RadioDevice.hpp:105-106 | For every in-window read the draft's count `t - tm1` is negative, while `RadioDevice.cpp`'s count is positive and within the window. |
| SampleBufferDraft.DraftWriteOverCounts | RadioDevice.hpp:76-88 | A write inside the window grows the draft's length by l although the end does not move. Both versions agree for writes at or after the end. |
| Transceiver.FollowingFrame | Transcom.cpp:22-26 | `nextFrame` stays inside the hyperframe. |
| Transceiver.FollowingFrameSmall | Transcom.cpp:24 | Away from the hyperframe end, `nextFrame` is the next frame. |
| Transceiver.AdvanceIsSum | Transcom.cpp:22-26 | n calls of `nextFrame` advance the frame by n modulo the hyperframe. |
| Transceiver.FrameCycle | Transcom.cpp:22-26 | `FRAME_MODULUS` calls of `nextFrame` return to the start frame. |
| Transceiver.Scheduled | Transcom.cpp:173-175 | The frame a heartbeat schedules is inside the hyperframe. |
| Transceiver.ScheduledSmall | Transcom.cpp:173-175 | For a clock with `clk + CLOCK_ADVANCE` below `FRAME_MODULUS`, the scheduled frame is `clk + CLOCK_ADVANCE`. |
| Transceiver.ScheduledWraps | Transcom.cpp:175 | For a clock in the last `CLOCK_ADVANCE` frames of the hyperframe, the scheduled frame wraps to `clk + CLOCK_ADVANCE - FRAME_MODULUS`. |
| Transceiver.CommandOut | Transcom.cpp:29-32 | `sendCommand` writes nothing exactly when the transceiver is unavailable and the command is not POWEROFF. Otherwise it writes the one encoded datagram. That the gate lets POWEROFF through after a timeout is stated by `TimeoutPowersOff`. |
| Transceiver.TimeoutPowersOff | Transcom.cpp:86-92 | A silent second clears both flags, keeps frames and throttle, and writes exactly `CMD POWEROFF\0` and no data. |
| Transceiver.ClockSchedules | Transcom.cpp:168-184 | For every clock from 0 to `2^32 - CLOCK_ADVANCE - 1`, a heartbeat makes the transceiver available and configured and stores the clock. It schedules `clk + CLOCK_ADVANCE` modulo the hyperframe, two frames more when it sends the dummy packet. |
| Transceiver.ClockFrameInRange | Transcom.cpp:173-175 | The scheduled frame is within the hyperframe, and `trxFrame` is the clock as a 32-bit unsigned word. |
| Transceiver.SetupOnlyWhenNeeded | Transcom.cpp:176-183 | A heartbeat writes control datagrams exactly when setup is not done. They are then the sixteen setup commands, with no data. |
| Transceiver.SetupOnce | Transcom.cpp:176-183 | A second heartbeat never resends the setup. |
| Transceiver.SetupAfterTimeout | Transcom.cpp:86-92 | After a timeout the next heartbeat resends the whole setup. |
| Transceiver.SetupDecodes | Transcom.cpp:211-236 | The transceiver reads the sixteen setup datagrams as the intended commands and numbers; SETSLOT k carries timeslot k. |
| Transceiver.DummyPackets | Transcom.cpp:177-183 | A configured heartbeat past the throttle time sends the dummy burst. It goes on timeslots 0 and 1, in the two frames after the scheduled one, as two 154-byte datagrams. It then holds the next packet back for 1000 ms. |
| Transceiver.DummyThrottled | Transcom.cpp:178-182 | A heartbeat within 1000 ms of a dummy packet sends no data. |
| Transceiver.ParseClockFormat | Transcom.cpp:101-102 | Every 32-bit tick printed after `IND CLOCK ` is accepted as itself. |
| Transceiver.OnlyClockChangesSession | Transcom.cpp:96-119 | Replies, uplink datagrams of any length and unparsable clock text change nothing and write nothing. |
| Transceiver.HeartbeatScenario | Transcom.cpp:96-108 | Heartbeats 100, 101 and 102, 1 ms apart, play out as follows. The first sets up and schedules frame 120. The second schedules 121 and sends dummies in frames 122 and 123. The third is throttled. |
| Transceiver.ScenarioClocks | Transcom.cpp:168-184 | The three heartbeats of the scenario, each as a full session and output. |
| Transceiver.ClockTicks | Transcom.cpp:101-102 | `IND CLOCK 100`, `101` and `102` parse to their ticks. |
| Transceiver.ClockText | Transcom.cpp:101-102 | A three-digit tick after `IND CLOCK ` parses to itself. |
| Transceiver.RadioMessages | Transcom.cpp:212-226 | The radio part of the setup is the eight commands in the order `setupTrx` sends them. |
| Transceiver.SlotMessages | Transcom.cpp:227-234 | The slot part of the setup is SETSLOT `makeParam(k, config)` for k = 0..7. |
| Transceiver.RunStepsSnoc | Transcom.cpp:77-120 | One more poll extends the loop's trace by that poll's step. |
| Transceiver.RunStepsFailed | Transcom.cpp:93-95 | Once `select` failed, later polls change nothing. |
| Transceiver.Transcom.NextFrame | Transcom.cpp:22-26 | `nextFrame` moves `currentFrame` one frame on, modulo the hyperframe, and returns it. Nothing else changes. |
| Transceiver.Transcom.SendCommand | Transcom.cpp:28-66 | `sendCommand` appends to the control log what `CommandOut` prescribes. The session is unchanged. |
| Transceiver.Transcom.SendData | Transcom.cpp:124-149 | `sendData` logs the datagram `DataSend` prescribes, if any. The session is unchanged. |
| Transceiver.Transcom.SendDummyPacket | Transcom.cpp:150-163 | The frame moves on twice, and the dummy burst goes out on timeslots 0 and 1 in those frames, or nothing while unavailable. |
| Transceiver.Transcom.SetupTrx | Transcom.cpp:211-236 | The sixteen setup datagrams are logged and `setupDone` is set. |
| Transceiver.Transcom.SetupRadio | Transcom.cpp:212-226 | The eight radio commands are logged in order. |
| Transceiver.Transcom.SetupSlots | Transcom.cpp:227-234 | The eight SETSLOT commands are logged in order. |
| Transceiver.Transcom.HandleClock | Transcom.cpp:168-184 | The fields and logs change exactly as `ClockStep` prescribes. |
| Transceiver.Transcom.ReceiveClock | Transcom.cpp:96-108 | A clock datagram is handled exactly as `ClockDatagramStep` prescribes. |
| Transceiver.Transcom.OnTimeout | Transcom.cpp:86-92 | The timeout branch changes the fields and logs exactly as `TimeoutStep` prescribes. |
| Transceiver.Transcom.Poll | Transcom.cpp:79-119 | One loop pass does what `PollStep` prescribes, and reports a failed `select`. |
| Transceiver.Transcom.Run | Transcom.cpp:68-121 | `run` marks the transceiver available. Over a sequence of polls it ends with the session, the logs and the failure flag of `RunSteps`. |
| Mobile.SpacePrefix | MobileStation.cpp:107 | The white space a scanf blank skips is the longest white-space prefix. |
| Mobile.DigitPrefix | MobileStation.cpp:107 | The digits `%u` consumes are the longest digit prefix. |
| Mobile.ScanNumber | MobileStation.cpp:107 | What `%u` stores is a 32-bit unsigned value. |
| Mobile.Literal | MobileStation.cpp:107 | A format word matches exactly when the text starts with it, and scanning continues after it. How the words of the clock format combine is stated by `ScanHeader`. |
| Mobile.ScanClock | MobileStation.cpp:107 | A clock the station accepts is a 32-bit unsigned value. |
| Mobile.DataError | MobileStation.cpp:137-145 | `handleData` fails exactly for a length other than 158 and reports that length. That this is Transcom's length check too is stated by `SameLengthCheck`. |
| Mobile.ClockArg | MobileStation.cpp:106-108 | The tick `handleClock` receives is the 32-bit signed value with the scanned word's bits: below 2^31 the word itself, otherwise negative. |
| Mobile.ScanHeader | MobileStation.cpp:107 | After `IND CLOCK `, `sscanf` reads what `%u` reads. |
| Mobile.ScanParsed | MobileStation.cpp:107 | `%u` reads every text `parseInt` accepts, as the same number modulo 2^32. |
| Mobile.ScanAcceptsParsed | MobileStation.cpp:107 | Every clock datagram Transcom accepts, the station accepts as the same 32-bit word. |
| Mobile.ScanClockFormat | MobileStation.cpp:107 | Every non-negative 32-bit tick printed after `IND CLOCK ` is read as itself. |
| Mobile.ParseHeader | Transcom.cpp:101-102 | Transcom parses what follows `IND CLOCK ` with `parseInt`. |
| Mobile.ScanIgnoresTail | MobileStation.cpp:107 | The station accepts `IND CLOCK 42 x` as 42, where Transcom rejects it. |
| Mobile.ScanNegativeWraps | MobileStation.cpp:107 | The station reads `IND CLOCK -1` as 2^32 - 1, where Transcom reads -1. |
| Mobile.ScanClockShape | MobileStation.cpp:107 | An accepted clock text starts with `IND`, then white space, then `CLOCK`. |
| Mobile.SetupsSwapTuning | MobileStation.cpp:62-77 | The station's sixteen setup commands equal Transcom's except that RXTUNE and TXTUNE trade frequencies. |
| Mobile.SetupDecodes | MobileStation.cpp:62-77 | The transceiver reads each of the station's setup datagrams as the intended command; SETSLOT k carries timeslot k. |
| Mobile.IdleDoesNothing | MobileStation.cpp:94-97 | An idle `select` changes nothing. |
| Mobile.StoppedStaysStopped | MobileStation.cpp:98-100 | Once the loop stopped, later polls change nothing. |
| Mobile.ShortDatagramStops | MobileStation.cpp:101-127 | A 157-byte uplink stops the loop with the wrong-length error. A clock in the same pass is still handled first. |
| Mobile.SameLengthCheck | MobileStation.cpp:137-145 | The station and Transcom reject the same uplink lengths. |
| Mobile.RadioMessages | MobileStation.cpp:62-69 | The station's radio commands, in order. |
| Mobile.PassesNext | MobileStation.cpp:86-128 | One more pass extends the loop's result, unless the loop already stopped. |
| Mobile.MobileStation.constructor | MobileStation.cpp:14-19 | A new station has written nothing and handled no clock. |
| Mobile.MobileStation.SendCommand | MobileStation.cpp:21-55 | Every call writes exactly one encoded datagram, with no availability gate. |
| Mobile.MobileStation.Setup | MobileStation.cpp:62-77 | The sixteen setup commands are written in order. |
| Mobile.MobileStation.SetupRadio | MobileStation.cpp:62-69 | The eight radio commands are written in order. |
| Mobile.MobileStation.SetupSlots | MobileStation.cpp:70-77 | The eight SETSLOT commands are written in order. |
| Mobile.MobileStation.HandleClock | MobileStation.cpp:134-136 | The tick, a signed `int`, is only recorded. |
| Mobile.MobileStation.Poll | MobileStation.cpp:86-127 | One pass handles what `PollPass` prescribes and reports whether the loop stops. |
| Mobile.MobileStation.HandleData | MobileStation.cpp:137-145 | The length check returns exactly what `DataError` prescribes: it fails exactly for a length other than 158 and reports it. |
| Mobile.MobileStation.Run | MobileStation.cpp:61-129 | `run` writes the setup once. Its loop handles the ticks `RunPasses` prescribes and ends as `RunPasses` says. |
| Harness.WriteSegmentAdvances | trm.cpp:11-23 | `writeBuffer` advances its cursor by 100 exactly when the write is accepted, otherwise returns 0 and leaves buffer and cursor alone. It throws only on a buffer smaller than a segment. |
| Harness.ReadSegmentAdvances | trm.cpp:24-36 | `readBuffer` advances by 100 exactly when a whole segment was available. A shorter tail is consumed but the cursor stays. |
| Harness.OverlapByOne | trm.cpp:47-50 | A write starting one sample before the window end is accepted and keeps the window start. It grows the window by 99, keeps all but the last old sample, and places the segment at the end. |
| Harness.PastReadRefused | trm.cpp:51-54 | A read before the window returns 0 and changes nothing. |
| Harness.TestWriteStep | trm.cpp:47-50 | Each write of the first loop is taken whole, at slot 0 of the ring. |
| Harness.TestReadStep | trm.cpp:51-54 | The first read of the second loop takes a whole segment, and the later ones ask for the past. |
| Harness.Harness.constructor | trm.cpp:8-9 | Both cursors start at 0. |
| Harness.Harness.WriteBuffer | trm.cpp:11-23 | `writeBuffer` returns, leaves the buffer and moves the cursor exactly as `WriteSegment` prescribes. |
| Harness.Harness.ReadBuffer | trm.cpp:24-36 | `readBuffer` does exactly what `ReadSegment` prescribes. |
| Harness.Harness.RunTests | trm.cpp:37-55 | All ten writes return 100. The first read returns 100 and the other nine return 0. The cursors end at 1111 and 211, and the buffer holds 891 samples from time 220 at slot 100. |

## Left out

- The `RadioDevice` driver (`RadioDevice.cpp` outside lines 59-138) is not modelled. It consists of calls into the UHD library.
- The sample rate of `SampleBuffer`, the `double` rate arguments, and the time of arrival divided by 256.0 into a `float` are left out. They are floating point and change nothing the model observes. `toa` is kept as the raw `getShort` value.
- Logging (`LOGD`, `LOGW`, `LOGE`, `Log.log`) and the `StringBuilder` traces of `sendData` and `handleData` are left out. They are output only.
- Sockets, `select` and the one-second timeout are left out; they are I/O. `run` takes a finite sequence of polls instead. Each poll is silence, failure, or the datagrams ready on the clock, control and data channels. The wall-clock time of `System.currentTimeMillis` is a parameter.
- `start`, `setupChannel` and the channel objects are left out. They only open and connect sockets.
- `handleResponse` of both clients is left out. It only logs the reply.
- `Transcom.hpp` is not part of this model. The constants are taken as CLOCK_ADVANCE 20, FRAME_MODULUS 26·51·2048, DATA_SEND_SIZE 154 and DATA_RECV_SIZE 158, and the initial fields as `false`/0.
- Transceiver.Scheduled: takes `trxFrame` and `currentFrame` to be `uint32_t`, since their declarations in `Transcom.hpp` are not part of this model. With signed fields a negative clock would give a negative frame under C++'s truncating `%`. `Transceiver.ClockFrameInRange` rests on the same assumption.
- Transceiver.Transcom.constructor: states those assumed initial values, so its contract is not drawn from a source line.
- The byte order of `putInt`, `getInt` and `getShort` is taken to be big-endian, and a `put` past the buffer's limit is taken to throw, as Java's `ByteBuffer` does. The `nio::ByteBuffer` source is not part of this model; `Bursts.SendData` and `Bursts.PutAll` report `Overflow` on that throw.
- Decimal.ParseInt: models `Integer::parseInt` as an optional sign, one or more digits and a 32-bit range check. The library source is not part of this model.
- Mobile.ScanNumber: follows `strtoul`'s saturation at 2^64 and its negation modulo the word.
- A received clock datagram is taken to carry its own NUL, and the model reads the text up to that NUL. The source only calls `clear()` on the receive buffer it shares with the data channel (Transcom.cpp:97-99, :115-117), so a clock datagram without a NUL would run on into the bytes of an earlier datagram; that case is not modelled.
- SampleBuffers.Ring: capacity, idx and len, the `(int)` casts of time differences (RadioDevice.cpp:84, :94, :104) and the sum `i0 + len + capacity` (RadioDevice.cpp:106) are taken to fit a C++ `int`; the model's integers are unbounded. An accepted write reaches offsets below 6·capacity, so for a capacity above about 2^31 / 6 the source overflows `int` (undefined behaviour), while `SampleBuffers.WriteStoresSamples`, `SampleBuffers.WriteOverflow` and `SampleBuffers.SampleBuffer.Write` still state a result.
- SampleBuffers.Ring.Write: requires, for an accepted write only, that the zero fill of a gap stays inside the array, that is `(idx + gap) % capacity + gap <= 2 * capacity` (`Ring.GapFits`), and that `b` holds l samples (`Ring.CanWrite`). Beyond that bound the second `memset` of RadioDevice.cpp:90 runs past the end of the array, which the model cannot express. A wrong length, an empty write and a stale write return before any fill and carry no requirement. The same holds for `SampleBuffers.SampleBuffer.Write`, `Harness.Harness.WriteBuffer` and `Harness.WriteSegment`.
- SampleBuffers.WriteKeepsOthers: is stated only for writes that leave no gap. As written, the gap fill of RadioDevice.cpp:84-91 zeroes the slots after `idx + gap` instead of those after the window end (`GapFillAsWritten`), so no general claim holds there.
- SampleBuffers.WriteOverflow: states only the window the overflow leaves. As written, that window ends where the new samples begin, so no claim that the newest samples are kept holds.
- SampleBuffers.SampleBuffer.constructor: follows the evident intent of RadioDevice.hpp:39-42. That initialiser list names a `size` member the class does not have.
- Transceiver.Transcom.SetupTrx: requires the transceiver to be available, and so do `SetupRadio` and `SetupSlots`. Their only caller, `handleClock`, sets `transceiverAvailable` just before it calls them.
- Bursts.HandleData: decodes the 150 bytes after the 8-byte header as soft bits, as the loop to the buffer limit does. The GSM burst itself has 148 bits.
- `MobileStation.hpp` declares none of the fields `MobileStation.cpp` uses (the channels and `trxHost`). The station model keeps only its two logs.
- The segment arrays of `writeBuffer` and `readBuffer` are never initialised in `trm.cpp`. Their contents are a parameter.
- `sendData` of `MobileStation.cpp` is an empty stub and is not modelled.

## Findings

| source | as written | input that shows it | evidently intended | confidence | as-written member | corrected member |
|---|---|---|---|---|---|---|
| RadioDevice.hpp:105-106 | `int n = t - tm1; if (l > n) l = n;` | a buffer with tm0 = 0, len = 10, read at t = 0: n = -10, so the `memcpy` gets a negative length | n = tm1 - t, the samples from t to the window end, as RadioDevice.cpp:122 has it | not executed | `SampleBufferDraft.DraftReadCountNegative` | `SampleBuffers.ReadCount` |
| RadioDevice.hpp:76-88 | `len += l1` for a gap, then `len += l` for every write | tm0 = 0, len = 10, write of l = 5 at t = 2: len becomes 15 while the window still ends at 10 | len = max(tm1, t + l) - tm0, as RadioDevice.cpp:103-104 has it | not executed | `SampleBufferDraft.DraftWriteOverCounts` | `SampleBuffers.WrittenEnd` |
