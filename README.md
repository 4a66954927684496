# Dual audio routing core, modelled in Dafny

The application plays the Windows system mix on several output devices at once.
A loopback capture records what the default render endpoint plays. Every
captured frame goes to one playback *sink* per enabled device. Each sink feeds
a delivery buffer that the device's render thread pulls from. In the audio
library this buffer is a buffered wave provider with a fixed `BufferLength`.

There are two engines, and this project models both.

* **The advanced engine** (`AdvancedAudioEngine` with its inner classes
  `AdvancedAudioOutput` and `CircularBuffer`) keeps a registry of sinks keyed
  by device id.
  * It hands each frame straight to every sink when at most two are registered.
  * With three or more, it queues a private copy of the frame for a worker
    loop instead.
  * Each sink first writes the frame into a 250 ms ring buffer, which serves as
    a recovery reservoir.
  * It then applies an underrun policy. The third consecutive observation
    below 30 ms injects up to 50 ms from the ring.
  * It then applies an overrun policy. Above 250 ms, and at most once every
    5 s, the delivery buffer is to be cleared and re-seeded from the ring.
    The delivery buffer of a sink holds at most 240 ms, so this reset never
    happens (see below).
  * It then appends the frame.
  * The delivery buffer does not discard. An addition that does not fit stores
    what fits and then throws "Buffer full", which ends the call.
* **The older engine** (`AudioEngine` with `AudioDeviceOutput`) copies each
  frame onto a per-sink queue.
  * A 10 ms timer tick runs a once-a-second health check.
  * The tick then moves at most five queued frames into the delivery buffer.
  * It pads an idle buffer holding less than 100 ms with 50 ms of silence.
  * This delivery buffer discards whatever does not fit.

## How the model is built

| Dafny file | What it holds |
|---|---|
| `common.dfy` | bytes, frames, volume clamping, and `AddSamples` (the delivery buffer's truncating append) |
| `devices.dfy` | the device list both engines report |
| `circular_buffer.dfy` | the ring, imperative over an `array<byte>`, with a ghost `Contents` holding the stored bytes oldest first |
| `advanced_output.dfy` | the advanced sink: its policy as functions on a `SinkView` value, lemmas about the policy, and the class `AdvancedAudioOutput`, proved to follow the policy |
| `advanced_engine.dfy` | the advanced engine as a class over a map of sinks, with a FIFO `queue` of frame copies |
| `device_output.dfy` | the older sink: `Offer`, `Monitor` and `Tick` as functions on an `OutputView`, lemmas about them, and the class `AudioDeviceOutput`, proved to follow them |
| `audio_engine.dfy` | the older engine as a class over a map of sinks |

Each sink class keeps a ghost `Model` equal to a value built from its fields.
The methods are specified by spec functions on that value. The lemmas state
what those functions guarantee.

**Outside effects become parameters:**

* the current time is `now`, in milliseconds;
* whether the device id resolves is `resolved`;
* whether the loopback capture starts is `captureOk`;
* the advanced capture's bytes per second is `mixBytesPerSecond`;
* whether a sink's render device initialises is `sinkOk`;
* the endpoint list and the default endpoint id are passed to `GetAudioDevices`.

**Thresholds.** The code compares millisecond and second values computed in
double precision. The model states each comparison exactly in integers.
For example, `bufferedMs < 30` becomes `backlog * 1000 < 30 * bytesPerSecond`.

**Behaviours of the code worth knowing.**

* The advanced sink's overrun reset is dead code. The delivery buffer holds
  `2 * (avgBps * 120 / 1000)` bytes, at most 240 ms of audio, and the reset
  needs more than 250 ms buffered. `NeverOverfull` proves this for every
  well-formed sink, and `SinksNeverReset` for every sink the engine holds. So
  the sink never reads the clock for anything but its warm-up flag:
  `DeliverIgnoresClock` and `TimingIsInaudible` show that the time of a
  delivery does not change what is played.
* Were the reset reachable, it would read the ring's *oldest* bytes, although
  the code's comments speak of keeping the most recent 100 ms. `OverrunResets`
  states what that branch does.
* The older sink's overflow count is dead code too. Its delivery buffer holds
  at most `2 * bufferMs` of audio, and the overflow test is a strict
  comparison against exactly that amount. `NeverOverflowing` and
  `OverflowCountStays` prove it.
* An advanced enable whose sink fails to initialise leaves the capture it
  started running with an empty registry. The next enable starts a second
  capture without stopping the first, and both then deliver every frame.
  The engine's `captures` field counts the captures recording, and
  `EnableDevice` states that it reaches two in this case.
* A second `Dispose` of the advanced engine throws when it cancels the
  already-disposed cancellation source. The model reports this as
  `ok == false`, and the rest of that call is skipped.

## Model

| member | source | states |
|---|---|---|
| `Common.Clamp` | Core/AdvancedAudioEngine.cs:474 | the volume lies in 0..1; an in-range value is kept, values below 0 become 0 and values above 1 become 1 |
| `Common.Zeros` | Core/AdvancedAudioEngine.cs:391-392 | a fresh byte array of n bytes is n bytes of silence |
| `Common.AddSamples` | Core/AudioDeviceOutput.cs:44-50 | appending to a delivery buffer of capacity cap keeps the backlog as a prefix and stores exactly min(backlog + data, cap) bytes, which are the leading bytes of data |
| `Common.AddSamplesTwice` | Core/AudioDeviceOutput.cs:128-135 | two successive additions store what one addition of both chunks would |
| `Common.AddSamplesWhenFull` | Core/AdvancedAudioEngine.cs:450-457 | after an addition that did not fit, a further addition changes nothing |
| `Devices.ListDevices` | Core/AudioEngine.cs:43-61 | one entry per active endpoint, in order: same id and name, default exactly when the id is the default id, enabled exactly when a sink is registered, and volume equal to that sink's volume or else 1.0 |
| `Ring.WrapIsMod` | Core/AdvancedAudioEngine.cs:519 | the cursor update `(p + k) % length` folds p + k back once, for every p + k below twice the length |
| `Ring.CircularBuffer.constructor` | Core/AdvancedAudioEngine.cs:494-500 | a ring of the given capacity that stores nothing, with both cursors at 0 |
| `Ring.CircularBuffer.CursorsAgree` | Core/AdvancedAudioEngine.cs:514-545 | the write cursor always sits byteCount positions after the read cursor, modulo the capacity |
| `Ring.CircularBuffer.Write` | Core/AdvancedAudioEngine.cs:502-526 | writes exactly the request cut down to the free space (none for a non-positive request) and appends those bytes of data, in order, after the stored ones |
| `Ring.CircularBuffer.CopyIn` | Core/AdvancedAudioEngine.cs:514-522 | one segment of the write loop appends its bytes to the stored ones and keeps the cursor invariant |
| `Ring.CircularBuffer.Store` | Core/AdvancedAudioEngine.cs:517 | one segment's array copy puts data[from..from + k] at the write cursor, which has room for it before the end of the array, and leaves every other slot unchanged |
| `Ring.CircularBuffer.Read` | Core/AdvancedAudioEngine.cs:528-549 | reads exactly min(count, stored) bytes (none for a non-positive request); these are the oldest stored bytes, placed in order at data[offset..]; they leave the ring; every other byte of data is unchanged |
| `Ring.CircularBuffer.CopyOut` | Core/AdvancedAudioEngine.cs:537-545 | one segment of the read loop moves the k oldest bytes to data[at..at + k] |
| `Ring.CircularBuffer.Clear` | Core/AdvancedAudioEngine.cs:551-559 | the ring stores nothing and both cursors are back at 0 |
| `Ring.CircularBuffer.Count` | Core/AdvancedAudioEngine.cs:561 | the number of stored bytes, never more than the capacity |
| `AdvancedSink.DeliveryCapacity` | Core/AdvancedAudioEngine.cs:336-348 | the delivery buffer's length, an even length, twice avgBps * 120 / 1000 rounded down |
| `AdvancedSink.RingCapacity` | Core/AdvancedAudioEngine.cs:339 | the ring's capacity, avgBps / 4 bytes rounded down (250 ms) |
| `AdvancedSink.PrefillLength` | Core/AdvancedAudioEngine.cs:391 | the silent prefill, avgBps / 10 bytes rounded down (100 ms) |
| `AdvancedSink.RecoveryLength` | Core/AdvancedAudioEngine.cs:422 | the recovery chunk, avgBps / 20 bytes rounded down (50 ms) |
| `AdvancedSink.ReseedLength` | Core/AdvancedAudioEngine.cs:441 | the bytes re-seeded after a reset, avgBps / 10 rounded down (100 ms) |
| `AdvancedSink.Initial` | Core/AdvancedAudioEngine.cs:329-393 | a new sink is well formed: ring of avgBps / 4 bytes and empty, delivery capacity 2 * (avgBps * 120 / 1000), backlog of avgBps / 10 zero bytes, streak 0, reset clock at construction time, warm-up flag set |
| `AdvancedSink.PrefillFits` | Core/AdvancedAudioEngine.cs:347-392 | the 100 ms prefill always fits in twice 120 ms of capacity, so it never throws |
| `AdvancedSink.Starved` | Core/AdvancedAudioEngine.cs:413-415 | the underrun test, backlog below 30 ms, in integers |
| `AdvancedSink.Overfull` | Core/AdvancedAudioEngine.cs:439 | the overrun test, backlog above 250 ms, in integers |
| `AdvancedSink.StarvedIsBelow30Ms` | Core/AdvancedAudioEngine.cs:413-415 | the integer underrun test holds exactly when the backlog in milliseconds, computed as backlog / avgBps * 1000, is below 30 |
| `AdvancedSink.OverfullIsAbove250Ms` | Core/AdvancedAudioEngine.cs:413-439 | the integer overrun test holds exactly when the backlog in milliseconds is above 250 |
| `AdvancedSink.RingAfterWrite` | Core/AdvancedAudioEngine.cs:402 | the ring keeps its stored bytes and gains the frame's leading bytes, min(stored + n, capacity) in all |
| `AdvancedSink.Deliver` | Core/AdvancedAudioEngine.cs:395-470 | one ProcessAudio keeps both buffers within capacity and leaves the byte rate, the capacities and the volume unchanged |
| `AdvancedSink.Arrive` | Core/AdvancedAudioEngine.cs:401-410 | writing to the ring and updating the warm-up flag keep the sink consistent |
| `AdvancedSink.Recover` | Core/AdvancedAudioEngine.cs:412-436 | the underrun step keeps the sink consistent |
| `AdvancedSink.Inject` | Core/AdvancedAudioEngine.cs:419-431 | the recovery injection keeps the sink consistent |
| `AdvancedSink.Settle` | Core/AdvancedAudioEngine.cs:438-463 | the overrun step keeps the sink consistent |
| `AdvancedSink.Reseed` | Core/AdvancedAudioEngine.cs:439-458 | the reset keeps the sink consistent |
| `AdvancedSink.DeliverAll` | Core/AdvancedAudioEngine.cs:253-263 | delivering a list of frames in order keeps the sink consistent and its shape unchanged |
| `AdvancedSink.RecoveryFits` | Core/AdvancedAudioEngine.cs:413-427 | a starved backlog plus a full 50 ms recovery chunk fits in the delivery buffer, for every byte rate |
| `AdvancedSink.DeliverWellFormed` | Core/AdvancedAudioEngine.cs:395-470 | ProcessAudio keeps the sink well formed; in particular the underrun streak is back in 0..2 after every call |
| `AdvancedSink.DeliverAllWellFormed` | Core/AdvancedAudioEngine.cs:253-263 | any sequence of deliveries keeps the sink well formed |
| `AdvancedSink.RingTakesFrame` | Core/AdvancedAudioEngine.cs:401-458 | the frame reaches the ring before anything else happens: after a delivery the ring holds a suffix of its old bytes followed by the frame's leading bytes that fit, because recovery and re-seeding only take its oldest bytes |
| `AdvancedSink.StreakGrows` | Core/AdvancedAudioEngine.cs:415-418 | a starved observation below the limit raises the streak by one and only appends the frame after the backlog |
| `AdvancedSink.StreakRecovers` | Core/AdvancedAudioEngine.cs:419-431 | the third starved observation moves min(50 ms, stored) of the ring's oldest bytes ahead of the frame and resets the streak; the recovery never overflows |
| `AdvancedSink.HealthyClearsStreak` | Core/AdvancedAudioEngine.cs:433-436 | a backlog of at least 30 ms resets the streak to 0 |
| `AdvancedSink.OverrunResets` | Core/AdvancedAudioEngine.cs:439-458 | an overrun more than 5 s after the last reset replaces the backlog with up to 100 ms of the ring's oldest bytes followed by the frame, and records the reset time |
| `AdvancedSink.NeverOverfull` | Core/AdvancedAudioEngine.cs:336-348 | a well-formed sink, whose delivery buffer holds at most 2 * 120 ms, is never above the 250 ms overrun threshold |
| `AdvancedSink.NoResetAppends` | Core/AdvancedAudioEngine.cs:459-463 | without a reset the clock is kept and the frame is appended exactly once, after the backlog and any recovery bytes |
| `AdvancedSink.DeliverIgnoresClock` | Core/AdvancedAudioEngine.cs:404-463 | on a well-formed sink, the same frame delivered at any two times leaves two sinks that agree apart from the warm-up flag; the flag drops once more than 500 ms have passed since the last reset |
| `AdvancedSink.RecoverIgnoresFlag` | Core/AdvancedAudioEngine.cs:412-436 | the underrun policy neither reads nor writes the warm-up flag |
| `AdvancedSink.SettleAppends` | Core/AdvancedAudioEngine.cs:438-463 | below the overrun threshold the frame is appended to the backlog, whatever the time |
| `AdvancedSink.DeliverTimed` | Core/AdvancedAudioEngine.cs:220-223 | frames delivered one by one, each at its own time, keep the sink consistent and its shape unchanged |
| `AdvancedSink.TimingIsInaudible` | Core/AdvancedAudioEngine.cs:404-463 | delivering the same frames at other times changes nothing but the warm-up flag |
| `AdvancedSink.DeliverSeesPrefix` | Core/AdvancedAudioEngine.cs:256-258 | only the first bytesRecorded bytes of the frame affect the sink |
| `AdvancedSink.AdvancedAudioOutput.constructor` | Core/AdvancedAudioEngine.cs:329-386 | the new sink's state is `Initial`, and the device is playing |
| `AdvancedSink.AdvancedAudioOutput.ProcessAudio` | Core/AdvancedAudioEngine.cs:395-470 | the new state is `Deliver` of the old state, the sink stays well formed and playback is unaffected |
| `AdvancedSink.AdvancedAudioOutput.Accept` | Core/AdvancedAudioEngine.cs:401-410 | the new state is `Arrive` of the old one: the frame offered to the ring, and the warm-up flag dropped once 500 ms have passed since the last clear |
| `AdvancedSink.AdvancedAudioOutput.RecoverFromUnderrun` | Core/AdvancedAudioEngine.cs:412-436 | state and abort flag are `Recover` of the state after the ring write |
| `AdvancedSink.AdvancedAudioOutput.InjectRecovery` | Core/AdvancedAudioEngine.cs:419-431 | state and abort flag are `Inject` of the old state |
| `AdvancedSink.AdvancedAudioOutput.TakeOldest` | Core/AdvancedAudioEngine.cs:422-423 | the chunk is the ring's oldest min(count, stored) bytes, and only those leave the ring |
| `AdvancedSink.AdvancedAudioOutput.ManageBacklog` | Core/AdvancedAudioEngine.cs:438-463 | the new state is `Settle` of the old one, on the backlog measured before recovery |
| `AdvancedSink.AdvancedAudioOutput.ResetBacklog` | Core/AdvancedAudioEngine.cs:439-458 | the new state is `Reseed` of the old one; a re-seed that fills the buffer also drops the frame |
| `AdvancedSink.AdvancedAudioOutput.ClearBacklog` | Core/AdvancedAudioEngine.cs:446-447 | the delivery buffer is empty and the reset clock reads now; nothing else changes |
| `AdvancedSink.AdvancedAudioOutput.AddToBuffer` | Core/AdvancedAudioEngine.cs:342-344 | a non-discarding addition stores what fits and reports exactly when some bytes did not fit |
| `AdvancedSink.AdvancedAudioOutput.SetVolume` | Core/AdvancedAudioEngine.cs:472-476 | the volume becomes the clamped value and nothing else changes |
| `AdvancedSink.AdvancedAudioOutput.Dispose` | Core/AdvancedAudioEngine.cs:478-482 | playback stops and the buffered state is untouched |
| `AdvancedRouting.Copy` | Core/AdvancedAudioEngine.cs:230-232 | the private copy holds exactly the frame's first bytesRecorded bytes |
| `AdvancedRouting.Copies` | Core/AdvancedAudioEngine.cs:229-232 | every queued frame is the copy of the frame captured at its position |
| `AdvancedRouting.QueuedMatchesDirect` | Core/AdvancedAudioEngine.cs:218-263 | at one and the same time, queuing copies and draining them leaves every sink exactly where delivering the original frames directly, in the same order, would |
| `AdvancedRouting.QueuedMatchesDirectLater` | Core/AdvancedAudioEngine.cs:218-263 | on a well-formed sink, draining the copies at any later time leaves it where direct delivery at each frame's own capture time would, apart from the warm-up flag |
| `AdvancedRouting.AdvancedAudioEngine.constructor` | Core/AdvancedAudioEngine.cs:60-73 | an empty registry and queue, no capture, format 48000/16/2, and the worker running |
| `AdvancedRouting.AdvancedAudioEngine.Volumes` | Core/AdvancedAudioEngine.cs:106-107 | one volume per registered device, equal to its sink's volume |
| `AdvancedRouting.AdvancedAudioEngine.GetAudioDevices` | Core/AdvancedAudioEngine.cs:94-112 | the device list, with registration and volume taken from the registry |
| `AdvancedRouting.AdvancedAudioEngine.EnableDevice` | Core/AdvancedAudioEngine.cs:114-145 | an unresolved id fails with no change, not even to a sink already registered under it; a registered id only has its volume clamped and set; otherwise capture is started when the registry was empty, and the call succeeds exactly when the sink initialises, registering a fresh sink in its initial state; other sinks keep their state; a capture left running by a failed enable is joined by a second one |
| `AdvancedRouting.AdvancedAudioEngine.EnableNewDevice` | Core/AdvancedAudioEngine.cs:128-138 | for an id with no sink: capture starts only when the registry was empty, the call succeeds exactly when the sink initialises, and then a fresh sink in its initial state is registered under the id; existing sinks keep their state |
| `AdvancedRouting.AdvancedAudioEngine.AddSink` | Core/AdvancedAudioEngine.cs:134-136 | a fresh sink in the capture format, in its initial state, is registered under the id |
| `AdvancedRouting.AdvancedAudioEngine.Register` | Core/AdvancedAudioEngine.cs:136 | the registry gains exactly that sink under that id |
| `AdvancedRouting.AdvancedAudioEngine.DisableDevice` | Core/AdvancedAudioEngine.cs:147-163 | succeeds exactly when the id was registered; removes that sink and stops it; stops the capture exactly when the registry becomes empty; others keep their state |
| `AdvancedRouting.AdvancedAudioEngine.RemoveSink` | Core/AdvancedAudioEngine.cs:149-151 | the sink leaves the registry after its device has stopped |
| `AdvancedRouting.AdvancedAudioEngine.SetDeviceVolume` | Core/AdvancedAudioEngine.cs:165-174 | succeeds exactly for a registered id, whose sink's volume becomes the clamped value; nothing else changes |
| `AdvancedRouting.AdvancedAudioEngine.SinksNeverReset` | Core/AdvancedAudioEngine.cs:412-439 | every sink the engine holds has an underrun streak in 0..2 and less than 250 ms buffered, so it never takes the overrun reset |
| `AdvancedRouting.AdvancedAudioEngine.DeliverTo` | Core/AdvancedAudioEngine.cs:222 | sink k moves to `Deliver` of its state; every other sink is untouched |
| `AdvancedRouting.AdvancedAudioEngine.SetSinkVolume` | Core/AdvancedAudioEngine.cs:124 | sink k's volume becomes the clamped value; every other sink is untouched |
| `AdvancedRouting.AdvancedAudioEngine.DisposeSink` | Core/AdvancedAudioEngine.cs:151 | sink k stops; every other sink is untouched |
| `AdvancedRouting.AdvancedAudioEngine.StartAudioCapture` | Core/AdvancedAudioEngine.cs:176-204 | a successful start records and adopts the mix format; a failed one is caught and changes nothing |
| `AdvancedRouting.AdvancedAudioEngine.StopAudioCapture` | Core/AdvancedAudioEngine.cs:206-209 | capture stops; nothing else changes |
| `AdvancedRouting.AdvancedAudioEngine.FanOut` | Core/AdvancedAudioEngine.cs:220-223 | every registered sink receives the frame exactly once |
| `AdvancedRouting.AdvancedAudioEngine.DeliverAny` | Core/AdvancedAudioEngine.cs:220-223 | one step of the fan-out delivers to exactly one pending sink |
| `AdvancedRouting.AdvancedAudioEngine.OnAudioDataAvailable` | Core/AdvancedAudioEngine.cs:211-239 | a non-positive count changes nothing; with at most two sinks every sink receives the frame directly; with three or more a copy of the frame's first bytesRecorded bytes joins the tail of the queue and no sink changes |
| `AdvancedRouting.AdvancedAudioEngine.ProcessAudioQueue` | Core/AdvancedAudioEngine.cs:241-286 | a worker pass while running and not cancelled empties the queue, delivering every frame, oldest first, to every sink, and reports whether there was any; otherwise nothing changes |
| `AdvancedRouting.AdvancedAudioEngine.DrainQueue` | Core/AdvancedAudioEngine.cs:253-268 | the queue ends empty and every sink's state is `DeliverAll` of its old state over the old queue |
| `AdvancedRouting.AdvancedAudioEngine.DeliverOldest` | Core/AdvancedAudioEngine.cs:253-264 | the oldest frame leaves the queue and reaches every sink |
| `AdvancedRouting.AdvancedAudioEngine.DisposeAll` | Core/AdvancedAudioEngine.cs:301-304 | every registered sink stops and keeps its buffered state |
| `AdvancedRouting.AdvancedAudioEngine.DisposeAny` | Core/AdvancedAudioEngine.cs:303 | one step of DisposeAll stops exactly one pending sink |
| `AdvancedRouting.AdvancedAudioEngine.ClearRegistry` | Core/AdvancedAudioEngine.cs:306 | the registry becomes empty; nothing else of the engine changes |
| `AdvancedRouting.AdvancedAudioEngine.ReleaseAll` | Core/AdvancedAudioEngine.cs:299-306 | the capture stops (releasing its recording), every registered sink stops its render device, and the registry ends empty; the worker flags are untouched |
| `AdvancedRouting.AdvancedAudioEngine.Dispose` | Core/AdvancedAudioEngine.cs:288-309 | the worker stops; a first call cancels, stops the capture, stops every sink and empties the registry; a repeated call throws and changes nothing else |
| `BasicSink.DeliveryLength` | Core/AudioDeviceOutput.cs:49-50 | the delivery buffer's length, an even length, twice avgBps * bufferMs / 1000 rounded down |
| `BasicSink.SilenceLength` | Core/AudioDeviceOutput.cs:53 | the silence buffer, avgBps / 20 bytes rounded down (50 ms) |
| `BasicSink.LowWater` | Core/AudioDeviceOutput.cs:138 | the backlog below which an idle tick pads, avgBps / 10 bytes rounded down (100 ms) |
| `BasicSink.Initial` | Core/AudioDeviceOutput.cs:29-103 | a new sink is well formed, with capacity 2 * (avgBps * bufferMs / 1000), an empty backlog and queue, both counters at 0, and the watch started at construction |
| `BasicSink.Offer` | Core/AudioDeviceOutput.cs:106-116 | only the queue can change; a copy of the first n bytes joins its tail; a non-positive n, or a copy that throws because n exceeds the buffer, changes nothing |
| `BasicSink.Monitor` | Core/AudioDeviceOutput.cs:144-176 | the health check acts only once 1000 ms have elapsed, then restarts the watch; the queue, volume and sizing are untouched |
| `BasicSink.Pad` | Core/AudioDeviceOutput.cs:137-141 | the pad never passes the capacity |
| `BasicSink.Tick` | Core/AudioDeviceOutput.cs:118-142 | a tick keeps the backlog within capacity and leaves volume and sizing unchanged |
| `BasicSink.Underflowing` | Core/AudioDeviceOutput.cs:153 | the underflow test, a non-empty backlog below 50 ms, in integers |
| `BasicSink.Overflowing` | Core/AudioDeviceOutput.cs:165 | the overflow test, a backlog above 2 * bufferMs, in integers |
| `BasicSink.UnderflowingIsBelow50Ms` | Core/AudioDeviceOutput.cs:150-153 | the integer underflow test holds exactly when the backlog in seconds, computed as backlog / avgBps, is below 0.05 and the backlog is not empty |
| `BasicSink.OverflowingIsAboveTwiceLatency` | Core/AudioDeviceOutput.cs:150-165 | the integer overflow test holds exactly when the backlog in seconds is above bufferMs * 2 / 1000 |
| `BasicSink.NeverOverflowing` | Core/AudioDeviceOutput.cs:49-50 | a well-formed sink, whose delivery buffer holds at most 2 * bufferMs, never passes the strict overflow test |
| `BasicSink.OverflowCountStays` | Core/AudioDeviceOutput.cs:163-171 | the health check never moves the overflow count of a well-formed sink |
| `BasicSink.OfferExtendsStream` | Core/AudioDeviceOutput.cs:106-116 | a successful offer extends the queued byte stream by exactly the frame's first n bytes, and keeps every queued frame non-empty |
| `BasicSink.CountersExclusive` | Core/AudioDeviceOutput.cs:152-172 | a check counts an underflow exactly on a due check with a non-empty backlog below 50 ms, and an overflow exactly on a due check above twice the latency without an underflow; never both, each by one at most |
| `BasicSink.SilenceOnFifthUnderflow` | Core/AudioDeviceOutput.cs:155-162 | silence is added by the check exactly on an underflow whose new count is a multiple of five, and then 50 ms of it, cut down to the free space |
| `BasicSink.TickTakesBatch` | Core/AudioDeviceOutput.cs:123-135 | a tick dequeues min(queued, 5) frames from the head; the rest stay queued in order |
| `BasicSink.TickConservesStream` | Core/AudioDeviceOutput.cs:123-135 | the dequeued bytes followed by the bytes still queued are the bytes queued before; the dequeued bytes are appended after the backlog the check left |
| `BasicSink.PadKeepsPrefix` | Core/AudioDeviceOutput.cs:137-141 | padding only appends |
| `BasicSink.PadFits` | Core/AudioDeviceOutput.cs:49-53 | for a latency of at least 100 ms, a backlog under 100 ms plus 50 ms of silence fits in the delivery buffer |
| `BasicSink.TickPadsOnlyWhenIdle` | Core/AudioDeviceOutput.cs:137-141 | with nothing queued and under 100 ms buffered the tick appends exactly 50 ms of silence; with enough buffered it adds nothing; with frames queued it only appends the batch |
| `BasicSink.OperationsWellFormed` | Core/AudioDeviceOutput.cs:106-176 | offer, health check and tick all keep the sink well formed |
| `BasicSink.AudioDeviceOutput.constructor` | Core/AudioDeviceOutput.cs:29-103 | the new sink's state is `Initial`; the timer is armed and the device is playing |
| `BasicSink.AudioDeviceOutput.ProcessAudioData` | Core/AudioDeviceOutput.cs:106-116 | the new state is `Offer` of the old one; ok is false exactly when the copy throws |
| `BasicSink.AudioDeviceOutput.ProcessAudioQueue` | Core/AudioDeviceOutput.cs:118-142 | the new state is `Tick` of the old state |
| `BasicSink.AudioDeviceOutput.DequeueBatch` | Core/AudioDeviceOutput.cs:123-135 | the count oldest frames leave the queue; their bytes, laid end to end, are appended to the delivery buffer; bytesAdded is their total length |
| `BasicSink.AudioDeviceOutput.MonitorBufferHealth` | Core/AudioDeviceOutput.cs:144-176 | the new state is `Monitor` of the old state |
| `BasicSink.AudioDeviceOutput.SetVolume` | Core/AudioDeviceOutput.cs:178-182 | the volume becomes the clamped value and nothing else changes |
| `BasicSink.AudioDeviceOutput.Dispose` | Core/AudioDeviceOutput.cs:184-206 | the timer and the device stop; every queued frame is discarded; nothing else changes |
| `BasicRouting.TryEnableNativeRouting` | Core/AudioEngine.cs:96-106 | native routing never takes over |
| `BasicRouting.AudioEngine.constructor` | Core/AudioEngine.cs:21-41 | an empty registry and no capture |
| `BasicRouting.AudioEngine.Volumes` | Core/AudioEngine.cs:55-56 | one volume per registered device, equal to its sink's volume |
| `BasicRouting.AudioEngine.GetAudioDevices` | Core/AudioEngine.cs:43-61 | the device list, with registration and volume taken from the registry |
| `BasicRouting.AudioEngine.EnableDevice` | Core/AudioEngine.cs:63-94 | an unresolved id fails with no change; a registered id succeeds with no change; otherwise capture is started if none exists, and the call succeeds exactly when the sink initialises, registering a fresh 600 ms sink in its initial state |
| `BasicRouting.AudioEngine.AddSink` | Core/AudioEngine.cs:83-85 | a fresh 600 ms sink in the 48000/16/2 format, in its initial state, is registered under the id |
| `BasicRouting.AudioEngine.StartManualRouting` | Core/AudioEngine.cs:108-114 | afterwards a capture exists when one existed before or the start succeeded |
| `BasicRouting.AudioEngine.StartAudioCapture` | Core/AudioEngine.cs:144-177 | a successful start creates the capture; a failed one is caught and changes nothing |
| `BasicRouting.AudioEngine.StopAudioCapture` | Core/AudioEngine.cs:179-190 | no capture is left; the registry is unchanged |
| `BasicRouting.AudioEngine.DisableDevice` | Core/AudioEngine.cs:116-131 | succeeds exactly when the id was registered; that sink stops and drops its queue and leaves the registry; capture stops exactly when the registry becomes empty; others keep their state |
| `BasicRouting.AudioEngine.RemoveSink` | Core/AudioEngine.cs:118-120 | the sink leaves the registry after being disposed |
| `BasicRouting.AudioEngine.SetDeviceVolume` | Core/AudioEngine.cs:133-142 | succeeds exactly for a registered id, whose sink's volume becomes the clamped value; nothing else changes |
| `BasicRouting.AudioEngine.SinksNeverOverflow` | Core/AudioDeviceOutput.cs:163-171 | no sink the engine holds ever moves its overflow count, and none has an empty frame queued |
| `BasicRouting.AudioEngine.DisposeSink` | Core/AudioEngine.cs:220 | sink k stops and drops its queue; every other sink is untouched |
| `BasicRouting.AudioEngine.OnAudioDataAvailable` | Core/AudioEngine.cs:192-212 | a zero count changes nothing; otherwise every registered sink is offered the frame exactly once, and a copy that throws in one sink does not stop the others |
| `BasicRouting.AudioEngine.OfferTo` | Core/AudioEngine.cs:199-207 | sink k moves to `Offer` of its state; every other sink is untouched |
| `BasicRouting.AudioEngine.Dispose` | Core/AudioEngine.cs:214-226 | the capture stops, every sink stops and drops its queue, and the registry is empty |
| `BasicRouting.AudioEngine.DisposeAll` | Core/AudioEngine.cs:218-221 | every registered sink stops and drops its queue |

## Left out

- Devices, capture and playback I/O are left out: enumeration, WASAPI capture and output, the event-driven and timer render modes and their fallbacks. Their outcomes appear only as the parameters listed above.
- The render thread pulling bytes out of the delivery buffer is not modelled, because it runs in the audio library outside the core. Between operations a backlog only changes by the operations shown.
- The `AudioDataAvailable` event and its subscribers are left out: they are foreign code.
- The capture's `RecordingStopped` handler is left out: it runs on a library thread.
- The resampler, the sample channel and sample-level volume scaling are left out; volume is a stored `real`.
- Locks, the concurrent collections, the 10 ms timer thread and the worker task are left out. Each operation is one atomic step.
- The worker's `Task.Delay` back-offs and its exception handler are left out.
- The worker's cancellation check inside the drain loop is left out: within one atomic pass nothing can request cancellation.
- The unhandled-exception handler, console and file logging, and the thread-priority change in the advanced constructor are left out: they do not affect routing state.
- The virtual audio device, the session manager and the enumerator's disposal are left out: none of them has routing state.
- The worker's 16384-byte staging buffer is left out, because `DeliverSeesPrefix` shows that only a frame's first bytesRecorded bytes matter.
- The advanced sink's 10 ms `_silenceBuffer` is left out: it is allocated but never used.
- The counters are unbounded integers, so the int32 wrap-around of `_underrunCounter`, `_underflowCount` and `_overflowCount` is not modelled.
- Double-precision rounding in the buffer-health comparisons is not modelled; each threshold is compared exactly.
- `BasicSink.AudioDeviceOutput.constructor` takes the latency as a `nat`, so a negative latency is out of scope.
- All callers in the core pass 600 ms. The format is the constant 48000/16/2 (192000 bytes per second) that the older engine always captures in.
- `AdvancedRouting.AdvancedAudioEngine.OnAudioDataAvailable` requires bytesRecorded to be at most the buffer's length. The capture library guarantees this. The code's behaviour for a larger count, partial writes followed by a caught exception, is not modelled.
- `Ring.CircularBuffer.Write` and `Ring.CircularBuffer.Read` require the part of the range they copy, the request cut down to the free space or to the stored bytes, to lie inside the array, as `Array.Copy` does. They also require the offset to lie inside the array when nothing is copied, which the code does not need; no caller in the core passes such an offset.
- A failed enable in either engine can leave a capture started while no sink is registered. `EnableDevice`'s coupling promise therefore assumes a successful capture start when the registry was empty.
- The advanced engine counts its captures but delivers each frame with one `OnAudioDataAvailable` call. When two captures run, each of them makes that call for every frame, and the model leaves the pairing of the two calls to the caller.
- A capture start that fails after the capture object was created (in `StartRecording`) is modelled, like any failed start, as leaving no capture and, in the advanced engine, the previous format.
