# AIVAS voice front end, modelled in Dafny

This project models the core of the AIVAS ESP32 firmware. Each part has
its own module:

- **Audio front end.** The two detect tasks turn fetched chunks into the
  wake → arm → speech → silence lifecycle (`AudioSession`, `AfeSession`).
  Every chunk goes into a fixed ring of frames (`AudioBuffer`, specified by
  `RingSpec`). The ring overwrites its oldest frames and counts them as
  overruns.
- **Streaming.** Two components stream the ring to a WebSocket server
  (`MarvinSession`, `WsStreamer`). Both share the stream task protocol of
  `Streaming`: two waits, a start message, pop-and-send passes, and a
  closing message. `Wait` models the waits and `Pcm` the little-endian
  sample encoding.
- **Keep-alive streamer.** main/wstreamer.cpp is a self-contained streamer
  with a keep-alive heartbeat. It is the `KeepAliveStreamer.Streamer`
  class. Its state machine is the pure `KeepAliveSpec`.
- **Networking.** The two MQTT clients (`MqttClient`, `Mqtt`) share the
  derived names in `MqttNames` and a multimap kept as a sorted sequence in
  `Subscriptions`. `WiFi` covers the hostname and the reconnect timer.
- **Infrastructure.**
  - the events of Event.hpp (`Event`);
  - `str(...)` (`Strings`, `Decimal`);
  - `Duration` and tick conversion (`Time`);
  - `Task` argument defaults (`TaskArgs`);
  - the compile-time component container of Application.hpp (`Application`).

## How the model is built

- **Classes.** Code that updates fields in place is a class whose methods
  change those fields:
  - `AudioBuffer.Ring` holds its storage in an `array`;
  - `Event.SubscribeEvent` and `Event.OneShotEvent`;
  - the two `Client`s, `WiFi.Station` and `Application.App`;
  - the two streaming sessions and `KeepAliveStreamer.Streamer`.
- **Specification functions.** Each class method is proved against a pure
  function of the old state: `RingSpec`, `Event.Dispatch`, `KeepAliveSpec`
  and `Streaming.Passes`. The properties are proved about those functions.
- **Oracles.** Clocks, fetch results, send results and the points where the
  other task's flag is read are parameters (sequences of answers).

Where the two sources of one concept differ, the model keeps them apart.
The detect task of `AfeSession` differs from that of `AudioSession` in
three ways:

- it returns on the first failed fetch;
- it counts every silent frame twice, so 20 silent frames end an utterance
  rather than 40;
- it re-enables the wake word engine before firing the silence event.

`Mqtt` stops the client only if it started it. `MqttClient` stops it on
every Wi-Fi disconnect.

Four points where the model follows the code:

- **`running_` in WsStreamer.** The stream task of WsStreamer.cpp never
  sets `running_`, so its loop is never entered. The model proves that a
  successful task sends only the start message.
- **The clock in WsStreamer.** Its `waitUntil` subtracts `millis()`
  readings, which main/Arduino.hpp widens to 64 bits, so a reading taken
  after the 32-bit tick clock wraps times out at once
  (`Wait.WideTimesOutAtWrap`, `Wait.WideGivesUpAtWrap`). MarvinSession.cpp
  subtracts the 32-bit readings, which is right across the wrap
  (`Wait.ElapsedIsDuration`). `Streaming.StreamTask` takes the rule as a
  parameter, and each session passes its own.
- **The cycle check.** `construct_one`'s check (Application.hpp:104)
  compares value TYPES. `Application.NoCycle` follows it, so a component
  that depends on another component of its own type is rejected whatever
  the names (`Application.SameTypeDependencyRejected`).
- **The key `run` looks up.** `run` asks for `component_key<Context, "">`.
  `Application.Accepted` therefore requires that exact key. The
  `static_assert` at Application.hpp:185-188 checks only that some
  `Context` value type exists.

## Model

| member | source | states |
|---|---|---|
| RingSpec.Newest | main/AudioBuffer.hpp:53-66 | the newest min(n, length) elements, as a suffix of the input |
| RingSpec.Size | main/AudioBuffer.hpp:97-102 | `size()` is at most the capacity and at most the number of items written but not read |
| RingSpec.ReadFrom | main/AudioBuffer.hpp:97-102 | the oldest retrievable sequence number lies between tail and head, `Size` below head |
| RingSpec.Contents | main/AudioBuffer.hpp:97-102 | the retrievable window has `size()` items, never more than the capacity |
| RingSpec.Init | main/AudioBuffer.hpp:26-32 | a new ring keeps its invariant, is empty, has the given capacity |
| RingSpec.FastForward | main/AudioBuffer.hpp:110-116 | a lapped tail is raised to head - capacity, no counter changes, the retrievable items are unchanged |
| RingSpec.Push | main/AudioBuffer.hpp:36-51 | head and produced grow by one; one overrun exactly when the ring was full; the window is the newest `capacity` of old window + item |
| RingSpec.PushContents | main/AudioBuffer.hpp:36-51 | the window after a push is the old window plus the item, cut to the newest `capacity` |
| RingSpec.Pop | main/AudioBuffer.hpp:68-81 | empty iff nothing is retrievable; else the oldest item, consumed + 1, the window loses its first item |
| RingSpec.DropExceptLast | main/AudioBuffer.hpp:53-66 | the window becomes its newest n items; each skipped item counts as an overrun; head and produced unchanged |
| RingSpec.PushAll | main/AudioBuffer.hpp:36-51 | a batch of pushes adds its length to produced and consumes nothing |
| RingSpec.Drain | main/AudioBuffer.hpp:68-81 | popping until empty hands out exactly the window, oldest first, and adds its length to consumed |
| RingSpec.PushAllContents | main/AudioBuffer.hpp:36-51 | pushing a batch keeps the newest `capacity` of window + batch |
| RingSpec.PushAllOverruns | main/AudioBuffer.hpp:36-51 | pushing a batch counts each displaced item as an overrun |
| RingSpec.PushIntoFresh | main/AudioBuffer.hpp:36-51 | into a new ring: the newest `capacity` items stay, the others are overruns |
| RingSpec.EmptyOverruns | main/AudioBuffer.hpp:42-44 | into an empty ring a batch overruns by exactly as much as it exceeds the capacity |
| RingSpec.OverrunScenario | main/AudioBuffer.hpp:36-81 | pushing more than `capacity` items and draining yields the last `capacity` and counts the rest as overruns |
| RingSpec.PushAllSnoc | main/AudioBuffer.hpp:36-51 | one more push after a batch is the extended batch |
| RingSpec.Wrap32 | main/AudioBuffer.hpp:129-134 | a counter as the 32-bit `size_t` stores it: below 2^32, and the count itself while it fits |
| RingSpec.WrappedDistance | main/AudioBuffer.hpp:42 | unsigned subtraction of the stored head and tail is the true distance while that is below 2^32 |
| RingSpec.WrappedSlot | main/AudioBuffer.hpp:108 | when the capacity divides 2^32, the slot of a stored sequence number is the slot of the true one |
| RingSpec.DropTail32 | main/AudioBuffer.hpp:53-66 | the tail `drop_except_last` stores, computed on the 32-bit counters, is below 2^32 |
| RingSpec.DropTail32Agrees | main/AudioBuffer.hpp:56-64 | while head and tail lie in the same 2^32 window, the stored new tail is the true new tail, wrapped |
| RingSpec.DropAcrossWrap | main/AudioBuffer.hpp:59 | four items held across the wrap of the counters: the unbounded model keeps one, the stored counters keep all four |
| AudioBuffer.DistinctSlots | main/AudioBuffer.hpp:108 | sequence numbers less than `capacity` apart use different slots |
| AudioBuffer.DisjointRanges | main/AudioBuffer.hpp:108 | the storage ranges of different slots do not overlap |
| AudioBuffer.Offset | main/AudioBuffer.hpp:108 | a slot's offset leaves room for a whole item inside the storage |
| AudioBuffer.WriteKeepsOthers | main/AudioBuffer.hpp:36-51 | writing the slot of `head` keeps every other retrievable item intact |
| AudioBuffer.Ring.Pointer | main/AudioBuffer.hpp:108 | `pointer(seq)` is (seq % capacity) * itemSize and the item fits inside the array |
| AudioBuffer.Ring.constructor | main/AudioBuffer.hpp:26-32 | storage of capacity * itemSize elements, every counter zero, nothing retrievable |
| AudioBuffer.Ring.Size | main/AudioBuffer.hpp:97-102 | `size()` is the number of retrievable items, at most the capacity |
| AudioBuffer.Ring.GetStats | main/AudioBuffer.hpp:83-94 | the statistics report size and capacity, and produced = consumed + overruns + size |
| AudioBuffer.Ring.CopyIn | main/AudioBuffer.hpp:39 | the item is copied to its offset and no other element changes |
| AudioBuffer.Ring.Push | main/AudioBuffer.cpp:13-25 | the ring moves as `RingSpec.Push`: the window is the newest `capacity` of old window + item |
| AudioBuffer.Ring.Publish | main/AudioBuffer.hpp:41-50 | the counters move as `RingSpec.Push`: one overrun when the ring was full, head and produced one up |
| AudioBuffer.Ring.FastForwardOverrun | main/AudioBuffer.cpp:75-81 | the ring moves as `RingSpec.FastForward` |
| AudioBuffer.Ring.DropExceptLast | main/AudioBuffer.cpp:27-38 | the ring moves as `RingSpec.DropExceptLast`: only the newest `count` items stay |
| AudioBuffer.Ring.PopNowait | main/AudioBuffer.cpp:40-53 | false iff the ring was empty; else the oldest item, of `itemSize` elements, as `RingSpec.Pop` |
| Utterance.Lifecycle | main/AudioSession.cpp:115-152 | the lifecycle events of a log, in order |
| Utterance.LifecycleMembers | main/AudioSession.cpp:115-152 | an action is among the lifecycle events iff it is in the log and is a lifecycle event |
| Utterance.LifecycleAppend | main/AudioSession.cpp:97-153 | the lifecycle events of two logs concatenate |
| Utterance.Pushes | main/AudioSession.cpp:104 | the number of ring pushes in a log, at most its length |
| Utterance.PushesAppend | main/AudioSession.cpp:104 | push counts of two logs add up |
| Utterance.Due | main/AudioSession.cpp:115-152 | each phase ends with its own lifecycle event: detect, speech, silence |
| Utterance.After | main/AudioSession.cpp:115-152 | each phase is followed by a different phase: idle → armed → feeding → idle |
| Utterance.CyclicSnoc | main/AudioSession.cpp:115-152 | appending the event due next keeps the event sequence cyclic |
| Utterance.Frames | main/AudioSession.cpp:98-104 | the data of the successful fetches, in fetch order |
| Utterance.FramesSnoc | main/AudioSession.cpp:98-104 | a successful fetch adds its data and a failed one adds nothing |
| Utterance.WakenetAfter | main/AudioSession.cpp:116-147 | a log that never switches the wake word engine leaves it as it was |
| Utterance.WakenetAfterAppend | main/AudioSession.cpp:116-147 | the wake word engine's state threads through two logs |
| Utterance.FramesOfAllOk | main/AfeSession.cpp:72-78 | when every fetch succeeds, every fetch gives a frame |
| Utterance.AllOkAppend | main/AfeSession.cpp:72-78 | fetches that all succeeded, concatenated, all succeeded |
| AudioSession.Step | main/AudioSession.cpp:98-152 | a failed fetch changes nothing; a successful one pushes once, then either keeps the phase with no event or moves to the next phase firing the event due |
| AudioSession.StepTransitions | main/AudioSession.cpp:115-152 | each transition with its condition, both directions: a verified wake word arms with guard 3, speech after the guard starts feeding, the 40th silent frame returns to idle |
| AudioSession.Run | main/AudioSession.cpp:97-153 | the loop pushes one frame per successful fetch |
| AudioSession.RunSnoc | main/AudioSession.cpp:97-153 | one more fetch is one more step |
| AudioSession.RunAppend | main/AudioSession.cpp:97-153 | a run over two parts threads its state and concatenates its logs |
| AudioSession.RunKeepsInv | main/AudioSession.cpp:115-152 | the guard never exceeds 3 and feeding never holds 40 silent frames |
| AudioSession.RunCyclic | main/AudioSession.cpp:115-152 | events come in the cyclic order detect, speech, silence, and the final phase is that many steps along |
| AudioSession.StepWakenet | main/AudioSession.cpp:116-147 | the engine is disabled on arming, enabled on returning to idle, left alone otherwise |
| AudioSession.WakenetOnlyWhileIdle | main/AudioSession.cpp:116-147 | the wake word engine is on iff the detector is idle |
| AudioSession.GuardHoldsArmed | main/AudioSession.cpp:128-129 | while the guard lasts, each frame only counts it down and no event fires |
| AudioSession.NoSpeechDuringGuard | main/AudioSession.cpp:117-137 | the speech event cannot fire during the three frames after the verifying one |
| AudioSession.SilenceKeepsFeeding | main/AudioSession.cpp:139-151 | silent frames short of 40 only lengthen the silence run |
| AudioSession.SilenceEndsFeeding | main/AudioSession.cpp:139-151 | from feeding, 40 silent frames return to idle, with the silence event on the 40th only |
| AudioSession.RunThrough | main/AudioSession.cpp:97-153 | a run split in two threads its state; the lifecycle events concatenate |
| AudioSession.RunOne | main/AudioSession.cpp:97-153 | a run of one fetch is one step |
| AudioSession.ArmThenGuard | main/AudioSession.cpp:117-129 | a verified wake word and three frames leave the detector armed with an empty guard, having fired only the detect event |
| AudioSession.SpeechThenSilence | main/AudioSession.cpp:127-151 | speech after the guard, then 40 silent frames, fire start then silence and end idle |
| AudioSession.FullUtterance | main/AudioSession.cpp:115-152 | a whole utterance from idle fires detect, speech, silence in that order and ends idle |
| AudioSession.ProcessOne | main/AudioSession.cpp:97-104 | one more fetch extends the run by one step and the pushed frames by its data |
| AudioSession.Session.constructor | main/AudioSession.cpp:63-69 | a fresh ring of 16 frames of fetch-channels × chunk-size samples, empty, zero statistics |
| AudioSession.Session.DetectTask | main/AudioSession.cpp:90-154 | the final detector and log are `Run` of the fetches; the ring is the old ring with the frames of every successful fetch pushed in order |
| AfeSession.Step | main/AfeSession.cpp:77-126 | a step pushes once, then keeps the phase with no event or advances one phase firing the event due |
| AfeSession.StepTransitions | main/AfeSession.cpp:89-126 | each transition with its condition, both directions; feeding adds 2 per silent frame and ends at 40 |
| AfeSession.FirstFailure | main/AfeSession.cpp:71-75 | the number of fetches before the first failure; all of them succeeded |
| AfeSession.Run | main/AfeSession.cpp:71-127 | the loop over successful fetches, one push each |
| AfeSession.Task | main/AfeSession.cpp:66-128 | the task processes exactly the fetches before the first failure |
| AfeSession.EncodeAll | main/AfeSession.cpp:78 | the byte images of the chunks, in order |
| AfeSession.EncodeAllDecodes | main/AfeSession.cpp:78 | each pushed byte image decodes back to its chunk |
| AfeSession.PushedBytes | main/AfeSession.cpp:71-78 | the bytes pushed: one image per chunk before the first failure |
| AfeSession.RunSnoc | main/AfeSession.cpp:71-127 | one more fetch is one more step |
| AfeSession.RunAppend | main/AfeSession.cpp:71-127 | a run over two parts threads its state and concatenates its logs |
| AfeSession.RunThrough | main/AfeSession.cpp:71-127 | a run split in two threads its state; the lifecycle events concatenate |
| AfeSession.ProcessedAtLeast | main/AfeSession.cpp:71-75 | with no failure before j the task processes at least j fetches |
| AfeSession.ProcessedAtMost | main/AfeSession.cpp:73-75 | a failure at j stops the task at j at the latest |
| AfeSession.StopsAtFailure | main/AfeSession.cpp:73-75 | fetches after a failure are never processed |
| AfeSession.NoFailureRunsAll | main/AfeSession.cpp:71-75 | without a failure every fetch is processed |
| AfeSession.RunKeepsInv | main/AfeSession.cpp:89-126 | the guard never exceeds 3; while feeding the silence run is even and below 40 |
| AfeSession.RunCyclic | main/AfeSession.cpp:89-126 | events come in the cyclic order detect, start, silence, and the final phase is that many steps along |
| AfeSession.StepWakenet | main/AfeSession.cpp:90-121 | the engine is disabled on arming, enabled on returning to idle, left alone otherwise |
| AfeSession.WakenetOnlyWhileIdle | main/AfeSession.cpp:90-121 | the wake word engine is on iff the detector is idle |
| AfeSession.GuardHoldsArmed | main/AfeSession.cpp:102-103 | while the guard lasts, frames only count it down and no event fires |
| AfeSession.NoStartDuringGuard | main/AfeSession.cpp:90-111 | the start event cannot fire before the fourth frame after the verifying one |
| AfeSession.SilenceKeepsFeeding | main/AfeSession.cpp:113-124 | silent frames short of the threshold add 2 each to the silence run and fire nothing |
| AfeSession.TwentySilentFramesEndFeeding | main/AfeSession.cpp:113-121 | from the start of feeding, 20 silent frames return to idle, with the silence event on the 20th only |
| AfeSession.ProcessOne | main/AfeSession.cpp:71-78 | one more successful fetch extends the run by one step and the pushed bytes by its image |
| AfeSession.Session.constructor | main/AfeSession.cpp:35-41 | feed buffer of channels × chunk-size; a fresh empty ring of 16 chunks of fetch-channels × chunk-size × 2 bytes |
| AfeSession.Session.DetectTask | main/AfeSession.cpp:66-128 | the detector and log are `Task` of the fetches; the ring receives the byte image of each chunk before the first failure |
| Pcm.SampleBytes | main/MarvinSession.cpp:100 | a sample is two bytes on the wire |
| Pcm.Encode | main/MarvinSession.cpp:100 | a frame of n samples is 2n bytes |
| Pcm.Decode | main/MarvinSession.cpp:100 | reading bytes back gives half as many samples |
| Pcm.SampleRoundTrip | main/MarvinSession.cpp:100 | a sample's little-endian bytes give the sample back |
| Pcm.DecodeEncode | main/MarvinSession.cpp:100 | decoding the bytes of a frame gives the frame back |
| Time.Millis | main/Time.hpp:9 | the stored millisecond count is exactly the argument |
| Time.None | main/Time.hpp:10 | `none()` is zero milliseconds |
| Time.Max | main/Time.hpp:11 | `max()` is UINT32_MAX milliseconds |
| Time.MsToTicks | main/Time.cpp:11-14 | without overflow, `pdMS_TO_TICKS` is ms × rate / 1000 |
| Time.TicksToMs | main/Time.cpp:6-9 | without overflow, `pdTICKS_TO_MS` is ticks × 1000 / rate |
| Time.Ticks | main/Time.cpp:11-14 | the `max()` sentinel maps to `portMAX_DELAY`; anything else is converted |
| Time.FromTicks | main/Time.cpp:6-9 | `Duration::ticks(t)` holds t ticks in milliseconds |
| Time.NoneTicks | main/Time.cpp:11-14 | `none()` waits zero ticks |
| Time.TicksAtMostMillis | main/Time.cpp:11-14 | at a tick rate of at most 1 kHz a duration never has more ticks than milliseconds |
| Time.MillisRoundTrip | main/Time.cpp:6-14 | milliseconds to ticks and back lose only the remainder modulo one tick's length |
| Time.TicksRoundTrip | main/Time.cpp:6-14 | ticks to milliseconds and back give the same ticks |
| Wait.Elapsed | main/MarvinSession.cpp:17 | `now - start` in 32 bits: the true difference, plus 2^32 when the clock wrapped |
| Wait.ElapsedIsDuration | main/MarvinSession.cpp:17 | with the 32-bit difference, readings of a clock that advanced by less than 2^32 ms give the true elapsed time |
| Wait.Elapsed64 | main/Arduino.hpp:6-9 | `millis() - start` on readings widened to 64 bits: the true difference, plus 2^64 when the clock wrapped |
| Wait.Since | main/WsStreamer.cpp:17 | the difference each `waitUntil` compares with its timeout: 32-bit in MarvinSession.cpp, widened in WsStreamer.cpp |
| Wait.WideElapsed | main/WsStreamer.cpp:15-17 | the widened difference is the true elapsed time until the clock wraps; after the wrap it exceeds every timeout |
| Wait.WideGivesUpAtWrap | main/WsStreamer.cpp:17 | 8 ms across the wrap with a 500 ms timeout: the widened difference times out at once, the 32-bit one keeps polling |
| Wait.WideTimesOutAtWrap | main/WsStreamer.cpp:12-21 | with the widened difference, the first failed test whose reading lies below the start ends the wait |
| Wait.DecideFrom | main/MarvinSession.cpp:15-20 | the loop from test k on: satisfied at the first true test, timed out at the first failed test whose difference reaches the timeout |
| Wait.Decide | main/MarvinSession.cpp:11-21 | the whole loop, from the first test |
| Wait.DecideWhilePatient | main/MarvinSession.cpp:15-20 | failed tests with time to spare do not change the outcome |
| Wait.DecideFromMeaning | main/MarvinSession.cpp:11-21 | the loop decides from probe k on: satisfied at the first true probe, timed out at the first reading at least the timeout |
| Wait.DecideMeaning | main/WsStreamer.cpp:12-21 | for either difference, `waitUntil` returns true iff the predicate held before that difference reached the timeout |
| Wait.WaitUntil | main/MarvinSession.cpp:11-21 | the polling loop returns what `Decide` says |
| Streaming.StartMessage | main/MarvinSession.cpp:70-80 | the start message: the device id with the fixed format fields pcm16_le, 16000 Hz, 320-sample frames, one channel, little-endian, gain 1.0 |
| Streaming.Binaries | main/MarvinSession.cpp:104-108 | one binary message per frame popped |
| Streaming.BinariesEach | main/WsStreamer.cpp:88-92 | message i carries frame i, encoded |
| Streaming.BinariesAppend | main/MarvinSession.cpp:104-108 | the messages of two passes concatenate |
| Streaming.Passes | main/MarvinSession.cpp:84-110 | the loop keeps the ring's invariant and capacity |
| Streaming.StopAt | main/MarvinSession.cpp:85 | the first pass that reads `streaming_` false; every earlier one read true |
| Streaming.PassesStop | main/MarvinSession.cpp:84-91 | the closing message is sent iff the task runs and some pass reads `streaming_` false |
| Streaming.DrainBatch | main/MarvinSession.cpp:104-108 | an empty ring given a batch it can hold hands the whole batch back and is empty again |
| Streaming.PassesLossless | main/MarvinSession.cpp:84-110 | from an empty ring, with batches that fit, every frame produced before the stop is sent exactly once, in order |
| Streaming.Produce | main/AudioSession.cpp:104 | the producer's pushes between passes move the ring as `RingSpec.PushAll` |
| Streaming.DrainPass | main/MarvinSession.cpp:104-108 | the inner loop pops exactly the window (`RingSpec.Drain`) and sends one binary message per frame |
| Streaming.StreamLoop | main/MarvinSession.cpp:84-110 | the loop's ring, messages and stop flag are those of `Passes` |
| Streaming.PassStep | main/MarvinSession.cpp:84-109 | one turn of the loop: a pass that reads `streaming_` false ends it, else the frames drained join those already sent |
| Streaming.Round | main/WsStreamer.cpp:81-94 | one pass: the closing message when `streaming_` reads false, else the frames drained, keeping the loop invariant |
| Streaming.OnePass | main/WsStreamer.cpp:82-92 | a pass after a batch: stop with the ring unchanged, or drain the window |
| Streaming.Transcript | main/MarvinSession.cpp:70-110 | start message first, one message per frame, the closing message last when a pass stopped |
| Streaming.TranscriptFrames | main/MarvinSession.cpp:70-110 | between start and close, message i carries frame i |
| Streaming.UtteranceTranscript | main/MarvinSession.cpp:60-110 | a whole utterance sends start, every produced frame in order, then the closing message |
| Streaming.StreamTask | main/MarvinSession.cpp:47-110 | a timed-out wait sends nothing and leaves the ring; otherwise the transcript of `Passes` |
| MarvinSession.Session.constructor | main/MarvinSession.cpp:23-28 | not running, not streaming, no task, nothing sent or posted |
| MarvinSession.Session.AfeDetected | main/MarvinSession.cpp:30-34 | sets `running_`, then starts the stream task |
| MarvinSession.Session.AfeSpeech | main/MarvinSession.cpp:36-40 | the ring keeps its newest 2 frames; streaming is set |
| MarvinSession.Session.AfeSilence | main/MarvinSession.cpp:42-45 | clears streaming only |
| MarvinSession.Session.StreamTask | main/MarvinSession.cpp:47-110 | on every exit one posted deletion; a timed-out wait sends nothing; else the transcript with "stop" |
| MarvinSession.Session.RunPosted | main/MarvinSession.cpp:53-58 | the posted deletion resets the task |
| MarvinSession.FramesOnTheWire | main/MarvinSession.cpp:98-101 | every binary message is 2 × frame-size bytes and decodes to the popped frame |
| WsStreamer.Raw | main/WsStreamer.cpp:88 | a byte frame is sent as its own bytes |
| WsStreamer.Streamer.constructor | main/WsStreamer.cpp:23-30 | not streaming, no task, nothing sent or posted |
| WsStreamer.Streamer.AfeDetected | main/WsStreamer.cpp:32-35 | starts the stream task |
| WsStreamer.Streamer.AfeStarted | main/WsStreamer.cpp:37-41 | the ring keeps its newest `prerollFrames` = 2 items; streaming is set |
| WsStreamer.Streamer.AfeSilenced | main/WsStreamer.cpp:43-46 | clears streaming only |
| WsStreamer.Streamer.StreamTask | main/WsStreamer.cpp:48-95 | one posted reset on every exit; the ring untouched; a successful task sends only the start message, since `running_` stays false |
| WsStreamer.Streamer.RunPosted | main/WsStreamer.cpp:54-56 | the posted reset clears the task |
| KeepAliveSpec.Defaults | main/wstreamer.cpp:24-36 | the default options: 2 missed pongs, 15000 ms interval, no keep-open, no TLS |
| KeepAliveSpec.PathPart | main/wstreamer.cpp:124 | "/" when the path is null or empty, else the path |
| KeepAliveSpec.FullUri | main/wstreamer.cpp:122-124 | the URI before the buffer cuts it: scheme by `use_tls`, host, port in decimal, path |
| KeepAliveSpec.Uri | main/wstreamer.cpp:122-124 | the URI is cut to the 255 characters the buffer holds |
| KeepAliveSpec.UriShape | main/wstreamer.cpp:123-124 | when it fits, the URI is scheme, "://", host, ":", port and path |
| KeepAliveSpec.Initial | main/wstreamer.cpp:38-39 | no client, not streaming, not armed, nothing in flight, no calls |
| KeepAliveSpec.IsConnected | main/wstreamer.cpp:114-116 | `is_connected()`: a client exists and the link is up |
| KeepAliveSpec.HbPeriodUs | main/wstreamer.cpp:191 | interval × 1000 in 32-bit arithmetic: exact when it fits |
| KeepAliveSpec.EnsureClient | main/wstreamer.cpp:120-130 | creates and registers a client once; with a client, nothing changes |
| KeepAliveSpec.EnsureTimers | main/wstreamer.cpp:132-141 | creates each missing timer once |
| KeepAliveSpec.StartClientIfNeeded | main/wstreamer.cpp:143-149 | ensures a client; starting is set when the link is down; nothing else changes |
| KeepAliveSpec.StartsAppend | main/wstreamer.cpp:147 | start counts of two call logs add up |
| KeepAliveSpec.StartClientAtMostOnce | main/wstreamer.cpp:145-148 | a second `start_client_if_needed` before the connect event starts nothing |
| KeepAliveSpec.StartsOfStartClient | main/wstreamer.cpp:143-149 | one `ClientStart` exactly when the link is down and no start is pending |
| KeepAliveSpec.StartsOfEnsureClient | main/wstreamer.cpp:120-130 | creating the client starts nothing |
| KeepAliveSpec.StartsOne | main/wstreamer.cpp:147 | a single call counts one start iff it is the start |
| KeepAliveSpec.DetectEvent | main/wstreamer.cpp:42-49 | client and timers exist and the streamer is armed; streaming and ring unchanged |
| KeepAliveSpec.StopClient | main/wstreamer.cpp:151-161 | streaming and armed cleared; heartbeat reset when there is a client; no calls without one |
| KeepAliveSpec.SilenceEvent | main/wstreamer.cpp:62-77 | streaming and armed are cleared either way; the ring is unchanged |
| KeepAliveSpec.SilenceEventCalls | main/wstreamer.cpp:62-77 | connected: the end message and a ping, then a stop unless kept open |
| KeepAliveSpec.SendAudioFrame | main/wstreamer.cpp:164-178 | a frame is sent iff connected; the result is true iff connected and the send succeeded |
| KeepAliveSpec.Bins | main/wstreamer.cpp:56-58 | one send per preroll frame |
| KeepAliveSpec.StartEventWithPreroll | main/wstreamer.cpp:51-60 | nothing unless connected; else one send per preroll frame, min(n, ring) of them |
| KeepAliveSpec.BinsSnoc | main/wstreamer.cpp:56-58 | one more preroll frame is one more send |
| KeepAliveSpec.SendsAndReleases | main/wstreamer.cpp:95-103 | each popped frame is sent, then released |
| KeepAliveSpec.DrainFrom | main/wstreamer.cpp:95-105 | the bytes sent this round never decrease |
| KeepAliveSpec.Popped | main/wstreamer.cpp:95-100 | a drain pops up to and including the first failed send, and pops at least one frame when there is one |
| KeepAliveSpec.DrainPopsPrefix | main/wstreamer.cpp:93-105 | the drain pops a prefix of the ring, stopping after the first failed send |
| KeepAliveSpec.DrainedCons | main/wstreamer.cpp:95-103 | draining k+1 frames is draining the first, then k more |
| KeepAliveSpec.DrainUnfold | main/wstreamer.cpp:95-105 | one turn of the drain: pop, send, release, then stop on failure or continue |
| KeepAliveSpec.SendsAndReleasesCons | main/wstreamer.cpp:95-103 | the calls for k+1 frames are the first frame's, then k more |
| KeepAliveSpec.Loop | main/wstreamer.cpp:80-111 | one round of `loop()`: idle sleep when not streaming; when not connected, a start and the 10 ms sleep; else the drain |
| KeepAliveSpec.LoopDrains | main/wstreamer.cpp:80-111 | a streaming round on a live link is the drain, plus the idle sleep when nothing was sent |
| KeepAliveSpec.OnWsEvent | main/wstreamer.cpp:185-214 | connected: heartbeat started and reset; disconnected: heartbeat stopped, retry scheduled; a pong clears the heartbeat and nothing else; other events change nothing |
| KeepAliveSpec.OnHbTick | main/wstreamer.cpp:219-231 | no link: nothing changes |
| KeepAliveSpec.OnRetry | main/wstreamer.cpp:236-238 | connected: nothing; else `start_client_if_needed` |
| KeepAliveSpec.Pings | main/wstreamer.cpp:228 | n ticks' pings |
| KeepAliveSpec.HeartbeatGivesUp | main/wstreamer.cpp:219-231 | up to `hb_max_missed` unanswered ticks only ping and count missed pongs |
| KeepAliveSpec.HeartbeatStops | main/wstreamer.cpp:221-226 | the tick after `hb_max_missed` unanswered pings stops the client instead of pinging |
| KeepAliveSpec.SilentTick | main/wstreamer.cpp:219-231 | one unanswered tick: one ping, one more missed pong |
| KeepAliveSpec.PongSettles | main/wstreamer.cpp:206-209 | a pong leaves nothing outstanding and changes nothing else |
| KeepAliveStreamer.Streamer.constructor | main/wstreamer.cpp:38-39 | the initial state over the given ring |
| KeepAliveStreamer.Streamer.Connected | main/wstreamer.cpp:114-116 | `is_connected()`: a client exists and the link is up |
| KeepAliveStreamer.Streamer.EnsureClient | main/wstreamer.cpp:120-130 | the state moves as `KeepAliveSpec.EnsureClient` |
| KeepAliveStreamer.Streamer.EnsureTimers | main/wstreamer.cpp:132-141 | the state moves as `KeepAliveSpec.EnsureTimers` |
| KeepAliveStreamer.Streamer.StartClientIfNeeded | main/wstreamer.cpp:143-149 | the state moves as `KeepAliveSpec.StartClientIfNeeded` |
| KeepAliveStreamer.Streamer.StopClient | main/wstreamer.cpp:151-161 | the state moves as `KeepAliveSpec.StopClient` |
| KeepAliveStreamer.Streamer.DetectEvent | main/wstreamer.cpp:42-49 | the state moves as `KeepAliveSpec.DetectEvent` |
| KeepAliveStreamer.Streamer.SendAudioFrame | main/wstreamer.cpp:164-178 | sends iff connected; true iff connected and the send succeeded; nothing left in flight |
| KeepAliveStreamer.Streamer.StartEventWithPreroll | main/wstreamer.cpp:51-60 | the state moves as `KeepAliveSpec.StartEventWithPreroll` |
| KeepAliveStreamer.Streamer.SendPreroll | main/wstreamer.cpp:56-58 | every preroll frame is sent in order, whatever each send returns |
| KeepAliveStreamer.Streamer.SilenceEvent | main/wstreamer.cpp:62-77 | the state moves as `KeepAliveSpec.SilenceEvent` |
| KeepAliveStreamer.Streamer.Loop | main/wstreamer.cpp:80-111 | the state moves as `KeepAliveSpec.Loop` |
| KeepAliveStreamer.Streamer.Drain | main/wstreamer.cpp:93-105 | the pop/send/release loop is `KeepAliveSpec.DrainFrom`, with the bytes sent |
| KeepAliveStreamer.Streamer.PopSendRelease | main/wstreamer.cpp:95-103 | pops the oldest frame, sends it, releases it |
| KeepAliveStreamer.Streamer.OnWsEvent | main/wstreamer.cpp:185-214 | the state moves as `KeepAliveSpec.OnWsEvent` |
| KeepAliveStreamer.Streamer.OnHbTick | main/wstreamer.cpp:219-231 | the state moves as `KeepAliveSpec.OnHbTick` |
| KeepAliveStreamer.Streamer.OnRetry | main/wstreamer.cpp:236-238 | the state moves as `KeepAliveSpec.OnRetry` |
| Event.Visit | main/Event.hpp:59-71 | `count` turns of the loop from the iterator position: defined as `VisitOne` repeated; its meaning is `VisitSurvivors` and `VisitIsExpected` |
| Event.Dispatch | main/Event.hpp:55-72 | one turn per entry present at the start; `DispatchIsExpected` and `DispatchIsSurvivors` give what it invokes and leaves |
| Event.Expected | main/Event.hpp:58-71 | the reference walk: the entries present at the start, in order, skipping flagged ones, each invoked handler flagging what it drops among those still to come |
| Event.Tokens | main/Event.hpp:49-53 | the token of each entry, in list order |
| Event.MarkDropped | main/Event.hpp:52 | dropping subscriptions only flags entries; the length is kept |
| Event.Fresh | main/Event.hpp:49-53 | one entry per newly connected handler |
| Event.Apply | main/Event.hpp:64 | an invocation appends its connects and takes as many new tokens |
| Event.Erase | main/Event.hpp:67 | erasing removes one entry |
| Event.Settle | main/Event.hpp:66-70 | after a visit the entries not yet visited are still ahead of the iterator |
| Event.VisitOne | main/Event.hpp:63-70 | one turn keeps the entries still to come ahead of the iterator |
| Event.LiveHandlers | main/Event.hpp:63 | the handlers of unflagged entries, in list order |
| Event.MarkDroppedIndex | main/Event.hpp:52 | flagging works entry by entry |
| Event.MarkDroppedAppend | main/Event.hpp:52 | flagging distributes over concatenation |
| Event.MarkDroppedSlice | main/Event.hpp:52 | flagging commutes with taking a slice |
| Event.MarkDroppedSnoc | main/Event.hpp:52 | dropping one more token flags on top of the earlier drops |
| Event.MarkDroppedNothing | main/Event.hpp:52 | dropping nothing changes nothing |
| Event.FreshSnoc | main/Event.hpp:49-53 | one more connect adds one entry with the next token |
| Event.SettleWindow | main/Event.hpp:66-70 | settling the iterator leaves the entries not yet visited in view |
| Event.ApplyWindow | main/Event.hpp:64 | an invocation flags entries in place and appends after them |
| Event.VisitOneFlagged | main/Event.hpp:63-67 | a turn at a flagged entry invokes nothing and erases it |
| Event.VisitOneLive | main/Event.hpp:63-70 | a turn at a live entry invokes its handler and flags what it drops among the entries still to come |
| Event.VisitIsExpected | main/Event.hpp:59-71 | the iterator loop invokes what the reference definition `Expected` lists |
| Event.DispatchIsExpected | main/Event.hpp:56-72 | a whole dispatch invokes exactly `Expected` |
| Event.LiveOfMarked | main/Event.hpp:63 | a subsequence of the live handlers after flagging is one of the live handlers before |
| Event.ExpectedIsSubseqOfLive | main/Event.hpp:58-71 | only handlers live when the dispatch starts are invoked, in list order; handlers connected during it are not |
| Event.NoDropsInvokesAllLive | main/Event.hpp:59-71 | when no handler drops anything, every live entry is invoked once, in order |
| Event.DroppedEarlierNotInvoked | main/Event.hpp:62-66 | a handler dropped by an earlier handler in the same dispatch is not invoked |
| Event.Survivors | main/Event.hpp:58-71 | the reference list a dispatch leaves: `SurvivorsFrom` with nothing passed and nothing added |
| Event.VisitSurvivors | main/Event.hpp:59-71 | the iterator loop leaves the list `SurvivorsFrom` describes |
| Event.VisitSurvivorsFlagged | main/Event.hpp:66-67 | a turn at a flagged entry erases it, and the rest of the loop still leaves `SurvivorsFrom` |
| Event.VisitSurvivorsLive | main/Event.hpp:63-69 | a turn at a live entry invokes it and keeps it unless it flagged itself, and the rest of the loop still leaves `SurvivorsFrom` |
| Event.VisitOneFlaggedParts | main/Event.hpp:66-67 | erasing a flagged entry leaves the iterator on the next one |
| Event.VisitOneLiveParts | main/Event.hpp:63-69 | a live entry's drops flag entries before, after and among those added; its connects are appended with the next tokens |
| Event.DispatchIsSurvivors | main/Event.hpp:55-72 | a dispatch leaves exactly the list `Survivors` describes |
| Event.SurvivorsShape | main/Event.hpp:58-71 | apart from the flags, the reference list is the kept entries in order, then one fresh entry per connect, in invocation order, with consecutive tokens |
| Event.KeptIsSubseq | main/Event.hpp:66-69 | the entries kept keep their relative order |
| Event.DispatchLeaves | main/Event.hpp:55-72 | apart from the flags, a dispatch leaves the entries not flagged when visited, in their old order, then the handlers connected during it, live, with fresh tokens |
| Event.SurvivorsFlags | main/Event.hpp:52 | every flag in the reference list was set before or by a drop of an invoked handler |
| Event.DispatchFlags | main/Event.hpp:52-66 | from a list with no flags, every entry a dispatch leaves flagged was dropped by a handler it invoked |
| Event.ExpectedOfUnflagged | main/Event.hpp:63 | flagged entries change nothing the reference walk invokes |
| Event.SurvivorsOfUnflagged | main/Event.hpp:66-67 | flagged entries change nothing in the list the reference walk leaves |
| Event.FlaggedAreInert | main/Event.hpp:63-67 | a dispatch does what it would do with its flagged entries removed: an entry flagged after its visit is erased, uninvoked, by the next dispatch |
| Event.DropAfterVisit | main/Event.hpp:52-67 | the second handler drops the first: the first dispatch invokes both and leaves the first flagged; the next invokes only the second and erases the first |
| Event.DropFirstDispatch | main/Event.hpp:52-69 | the first dispatch of that example |
| Event.DropSecondDispatch | main/Event.hpp:63-67 | the second dispatch of that example |
| Event.OneShotEvent.constructor | main/Event.hpp:17 | no handlers |
| Event.OneShotEvent.Connect | main/Event.hpp:20-23 | appends the handler |
| Event.OneShotEvent.Fire | main/Event.hpp:26-32 | invokes the old handlers in order; afterwards only those connected during the call remain |
| Event.SubscribeEvent.constructor | main/Event.hpp:46 | no entries, first token 0 |
| Event.SubscribeEvent.Connect | main/Event.hpp:49-53 | appends a live entry and returns a fresh token |
| Event.SubscribeEvent.Drop | main/Event.hpp:52 | releasing a subscription only sets its entry's flag |
| Event.SubscribeEvent.Invoke | main/Event.hpp:64 | one handler call moves the state as `Apply` |
| Event.SubscribeEvent.Turn | main/Event.hpp:63-70 | one loop turn is one step of `Visit` |
| Event.SubscribeEvent.Sweep | main/Event.hpp:59-71 | the loop over the size taken at the start moves the state and the handlers invoked as `Dispatch` |
| Event.SubscribeEvent.Fire | main/Event.hpp:55-72 | invokes exactly `Expected` of the old entries; the list left is `Survivors`: apart from the flags, the entries not flagged when visited, in order, then one live entry per connect made during the call, with the next tokens |
| Subscriptions.BelowIrreflexive | main/MqttClient.hpp:49 | `std::string`'s `<` is irreflexive |
| Subscriptions.BelowTransitive | main/MqttClient.hpp:49 | `<` is transitive |
| Subscriptions.BelowTotal | main/MqttClient.hpp:49 | distinct strings are ordered one way or the other |
| Subscriptions.BelowAsymmetric | main/MqttClient.hpp:49 | `<` is asymmetric |
| Subscriptions.Between | main/MqttClient.hpp:49 | strings neither below the other are equal |
| Subscriptions.UpperBound | main/MqttClient.cpp:100 | `upper_bound` is a position in the table |
| Subscriptions.UpperBoundSplits | main/MqttClient.cpp:100 | nothing before the upper bound is above the topic; the entry at it is |
| Subscriptions.LowerBound | main/MqttClient.cpp:117 | `lower_bound` is a position in the table |
| Subscriptions.LowerBoundSplits | main/MqttClient.cpp:117 | everything before the lower bound is below the topic; the entry at it is not |
| Subscriptions.AboveUpperBound | main/MqttClient.cpp:100 | in a sorted table everything from the upper bound on is above the topic |
| Subscriptions.NotBelowLowerBound | main/MqttClient.cpp:117 | in a sorted table nothing from the lower bound on is below the topic |
| Subscriptions.UpperBoundFrom | main/MqttClient.cpp:100 | the upper bound can be searched from any point that is not above the topic |
| Subscriptions.Emplace | main/MqttClient.cpp:77 | `emplace` adds one entry |
| Subscriptions.EmplaceSorted | main/MqttClient.cpp:77 | `emplace` keeps the multimap sorted |
| Subscriptions.Handlers | main/MqttClient.cpp:117-118 | the handlers stored under exactly the topic, in table order |
| Subscriptions.Own | main/MqttClient.cpp:117-118 | an entry contributes at most its own handler |
| Subscriptions.HandlersAppend | main/MqttClient.cpp:117-118 | handlers of two parts concatenate |
| Subscriptions.HandlersAbsent | main/MqttClient.cpp:117-118 | a topic no entry carries has no handlers |
| Subscriptions.EmplaceHandlers | main/MqttClient.cpp:77 | a new handler goes after the existing handlers of its topic; other topics keep theirs |
| Subscriptions.HandlersInsert | main/MqttClient.cpp:77 | an inserted entry adds its handler between those of its neighbours |
| Subscriptions.HandlersSplit | main/MqttClient.cpp:117-118 | handlers split at any position |
| Subscriptions.HandlersAboveUpperBound | main/MqttClient.cpp:117 | no entry from the upper bound on carries the topic |
| Subscriptions.Count | main/MqttClient.cpp:78 | `multimap::count`: the number of handlers stored under exactly the topic |
| Subscriptions.EmplaceCount | main/MqttClient.cpp:77-78 | `count` grows by one and is 1 after `emplace` iff the topic had no handler |
| Subscriptions.Topics | main/MqttClient.cpp:100 | the distinct topics, in table order |
| Subscriptions.SortedSuffix | main/MqttClient.cpp:100 | a suffix of a sorted table is sorted |
| Subscriptions.TopicsMembers | main/MqttClient.cpp:100-102 | a topic is listed iff some entry carries it |
| Subscriptions.TopicsListed | main/MqttClient.cpp:100-102 | every entry's topic is listed |
| Subscriptions.TopicsCarried | main/MqttClient.cpp:100-102 | every listed topic is carried by some entry |
| Subscriptions.TopicsAscending | main/MqttClient.cpp:100-102 | each topic is listed once, in ascending order |
| Subscriptions.DistinctTopics | main/Mqtt.cpp:117-119 | the reconnect loop, stepping by `upper_bound`, visits exactly `Topics` |
| Subscriptions.TopicsFrom | main/Mqtt.cpp:117 | the topics from a position on are its topic, then those after its upper bound |
| Subscriptions.EqualRange | main/Mqtt.cpp:132 | in a sorted table the entries of the topic are exactly those between the two bounds |
| Subscriptions.EqualRangeTopics | main/Mqtt.cpp:132 | every entry between the two bounds carries the topic |
| Subscriptions.HandlersBelowLowerBound | main/Mqtt.cpp:132 | no entry before the lower bound carries the topic |
| Subscriptions.Dispatch | main/Mqtt.cpp:132-133 | `equal_range` walked front to back yields all and only the handlers of the topic, in insertion order |
| MqttNames.Dash | main/MqttClient.cpp:11 | '-' becomes '/', every other character stays |
| MqttNames.ToTopic | main/MqttClient.cpp:9-13 | same length; every '-' of the client id becomes '/' |
| MqttNames.ToTopicSettled | main/Mqtt.cpp:11-16 | a topic has no '-' left, so deriving it again changes nothing |
| MqttNames.ToTopicKeepsPlain | main/Mqtt.cpp:11-16 | an id with no '-' is its own topic |
| MqttNames.BrokerUri | main/MqttClient.cpp:39 | `str("mqtt://", host, ":", port)`; its shape is `BrokerUriShape` |
| MqttNames.BrokerUriShape | main/MqttClient.cpp:39 | the URI is "mqtt://", host, ":" and the port in decimal |
| MqttNames.BrokerUriPort | main/Mqtt.cpp:44 | the port reads back from the URI |
| MqttNames.WillTopic | main/MqttClient.cpp:41 | `str("tele/", topic, "/LWT")`; its shape is `WillTopicShape` |
| MqttNames.WillTopicShape | main/MqttClient.cpp:41 | the will topic is "tele/", the device topic and "/LWT" |
| MqttNames.WillTopicInjective | main/Mqtt.cpp:46 | distinct device topics have distinct will topics |
| MqttNames.LastWill | main/MqttClient.cpp:48-50 | a retained "Offline" on the will topic |
| MqttNames.Subscribes | main/MqttClient.cpp:121-125 | one SUBSCRIBE per topic, in order |
| MqttNames.Calls | main/MqttClient.cpp:118 | each handler called once with the payload, in order |
| MqttClient.Client.constructor | main/MqttClient.cpp:37-61 | URI, topic, will topic and Will Message derived from the id; a start request iff Wi-Fi is already connected |
| MqttClient.Client.Publish | main/MqttClient.cpp:69-73 | a publish is requested iff connected; nothing else changes |
| MqttClient.Client.Subscribe | main/MqttClient.cpp:75-81 | the handler is stored as `emplace`; SUBSCRIBE iff connected and the topic had no handler |
| MqttClient.Client.ConnectToMqtt | main/MqttClient.cpp:83-87 | requests a start |
| MqttClient.Client.WiFiDisconnected | main/MqttClient.cpp:89-92 | requests a stop on every call |
| MqttClient.Client.MqttConnected | main/MqttClient.cpp:94-103 | connected; a retained "Online" then one SUBSCRIBE per distinct topic, ascending |
| MqttClient.Client.MqttDisconnected | main/MqttClient.cpp:105-109 | clears connected only |
| MqttClient.Client.MqttMessage | main/MqttClient.cpp:111-119 | every handler of exactly that topic, in insertion order, with the payload |
| Mqtt.Client.constructor | main/Mqtt.cpp:43-67 | URI, base topic, will topic and Will Message derived from the id; started and a start request iff Wi-Fi is connected |
| Mqtt.Client.Publish | main/Mqtt.cpp:75-84 | both overloads: a publish is requested iff connected |
| Mqtt.Client.Subscribe | main/Mqtt.cpp:86-92 | stored as `emplace`; SUBSCRIBE iff connected and the topic had no handler |
| Mqtt.Client.ConnectToMqtt | main/Mqtt.cpp:94-101 | requests a start and remembers it |
| Mqtt.Client.WiFiDisconnected | main/Mqtt.cpp:103-109 | a stop only if started; a second disconnect in a row requests nothing |
| Mqtt.Client.MqttConnected | main/Mqtt.cpp:111-120 | connected; a retained "Online" then one SUBSCRIBE per distinct topic, ascending |
| Mqtt.Client.MqttDisconnected | main/Mqtt.cpp:122-126 | clears connected only |
| Mqtt.Client.MqttMessage | main/Mqtt.cpp:128-134 | every handler of exactly that topic, in insertion order, with the payload |
| WiFi.ToLower | main/WiFi.cpp:18 | only 'A'..'Z' change, each to its lower-case letter |
| WiFi.LowerAll | main/WiFi.cpp:16-19 | every character lower-cased, the length kept |
| WiFi.ToHostname | main/WiFi.cpp:14-21 | `str("iot-", lower-cased id)`; its shape is `HostnameShape` |
| WiFi.HostnameShape | main/WiFi.cpp:14-21 | "iot-" followed by the lower-cased id |
| WiFi.HostnameIgnoresCase | main/WiFi.cpp:14-21 | ids differing only in letter case give the same hostname |
| WiFi.HostnameLowerCase | main/WiFi.cpp:14-21 | a hostname has no upper-case letter |
| WiFi.TimerBeforeEventSnoc2 | main/WiFi.cpp:98-116 | a timer action followed by its event keeps every event preceded by its timer action |
| WiFi.TimerBeforeEventSnoc | main/WiFi.cpp:85-91 | a connection attempt keeps the order |
| WiFi.Station.constructor | main/WiFi.cpp:40-45 | the hostname is fixed from the id; timer idle, nothing logged |
| WiFi.Station.Started | main/WiFi.cpp:30-33 | the first attempt is `connect(false)` |
| WiFi.Station.ReconnectTimerFired | main/WiFi.cpp:44 | the timer's callback is `connect(true)` |
| WiFi.Station.Connected | main/WiFi.cpp:98-107 | the reconnect timer is stopped before the connect event fires |
| WiFi.Station.Disconnected | main/WiFi.cpp:109-116 | the timer is armed for 5000 ms before the disconnect event fires |
| Strings.Piece | main/String.hpp:13-24 | a string argument verbatim; an integer as its decimal rendering, which parses back to it |
| Strings.Str | main/String.hpp:27-33 | no arguments give ""; one argument gives its piece |
| Strings.StrAppend | main/String.hpp:27-33 | str(a..., b...) == str(a...) + str(b...) |
| Strings.StrTexts | main/String.hpp:13-16 | string arguments are concatenated verbatim |
| Decimal.DigitChar | main/String.hpp:22-23 | a digit character with the given value |
| Decimal.NatDigits | main/String.hpp:22-23 | at least one digit, and a leading '0' only for zero |
| Decimal.Render | main/String.hpp:22-23 | `to_string` is never empty |
| Decimal.DigitValue | main/String.hpp:22-23 | the value of a digit character, below 10 |
| Decimal.Parse | main/String.hpp:22-23 | only non-empty strings parse |
| Decimal.DigitsValueOfNat | main/String.hpp:22-23 | the digits of n have value n |
| Decimal.ParseRender | main/String.hpp:22-23 | parsing the rendering of i gives i |
| Decimal.RenderInjective | main/String.hpp:22-23 | two integers render alike only if equal |
| TaskArgs.Count | main/Task.hpp:22 | how many arguments of a kind are supplied |
| TaskArgs.Pick | main/Task.hpp:24-26 | the first argument of the kind, else the default; `SingleIsPicked` and `PickNone` |
| TaskArgs.GetArg | main/Task.hpp:19-27 | rejected iff the kind is supplied twice |
| TaskArgs.AbsentGivesDefault | main/Task.hpp:24-26 | with no argument of the kind, the default |
| TaskArgs.SingleIsPicked | main/Task.hpp:24-26 | the one argument of the kind is picked wherever it stands |
| TaskArgs.CountAppend | main/Task.hpp:22 | counts of two argument lists add up |
| TaskArgs.PickAppend | main/Task.hpp:25 | arguments of other kinds before it do not change the pick |
| TaskArgs.PickNone | main/Task.hpp:24-25 | with none of the kind, the default |
| TaskArgs.OrderIrrelevant | main/Task.hpp:19-27 | the order of the arguments does not matter |
| TaskArgs.PickPrefix | main/Task.hpp:25 | arguments of other kinds after it do not change the pick |
| TaskArgs.Configure | main/Task.hpp:42-52 | a task is accepted iff no kind is given twice |
| TaskArgs.DefaultConfig | main/Task.hpp:30-32 | no arguments give stack 4096, priority 2, no affinity |
| TaskArgs.StreamTaskConfig | main/MarvinSession.cpp:33 | the stream task's arguments are taken as given, in any order |
| Application.Keys | main/Application.hpp:61 | the key of each specification, in order |
| Application.IndexOf | main/Application.hpp:74-79 | `find_index`: the first position holding the key |
| Application.DepSlot | main/Application.hpp:130-134 | the slot of a declared dependency holds its key |
| Application.SeenGrows | main/Application.hpp:100-105 | visiting a new value type leaves fewer to visit |
| Application.IndexOfOwnKey | main/Application.hpp:63-79 | with distinct keys a specification's own key finds its own slot |
| Application.SameTypeDependencyRejected | main/Application.hpp:104 | a dependency on a component of its own value type is rejected, whatever the names |
| Application.NoSelfDependency | main/Application.hpp:104 | no accepted component depends on itself |
| Application.DepSlots | main/Application.hpp:81-92 | one reference per declared dependency, in declared order |
| Application.Made | main/Application.hpp:123-128 | a component gets its dependencies, then its stored arguments |
| Application.OrderedSnoc | main/Application.hpp:105-110 | building a component after its dependencies keeps the construction order valid |
| Application.Live | main/Application.hpp:141-153 | the constructed slots, the order `destroy_all` visits them |
| Application.LiveExact | main/Application.hpp:150 | exactly the constructed slots, each once, increasing |
| Application.App.constructor | main/Application.hpp:162-163 | every slot empty; nothing built, destroyed or run |
| Application.After | main/Application.hpp:100-111 | the reference construction order of `construct_one`: the dependencies in declared order, each with its own first, then the slot unless built |
| Application.AfterDeps | main/Application.hpp:130-134 | the reference order of `construct_deps` over the first e dependencies |
| Application.AfterAll | main/Application.hpp:94-98 | the reference order of `construct()`: `construct_one` for the slots in declaration order |
| Application.AfterExtends | main/Application.hpp:100-111 | `construct_one` keeps what was built, in order, and builds its slot unless the cycle check stops it |
| Application.AfterDepsExtends | main/Application.hpp:130-134 | `construct_deps` keeps what was built, in order |
| Application.AfterDepsBuildsAll | main/Application.hpp:130-134 | without a cycle, `construct_deps` builds every declared dependency |
| Application.AfterAllBuildsAll | main/Application.hpp:167-170 | `construct()` builds every slot and keeps what was built |
| Application.NoDepsDeclarationOrder | main/Application.hpp:94-98 | with no dependencies the slots are built in declaration order 0, 1, ..., N-1 |
| Application.DependencyFirst | main/Application.hpp:100-111 | A depending on B, then B, then Context: B is built first, then A, then Context |
| Application.App.ConstructOne | main/Application.hpp:100-111 | the slots built are the old ones followed by `After`: the dependencies depth-first in declared order, then slot i, each slot at most once |
| Application.App.ConstructApply | main/Application.hpp:123-128 | slot i holds `Made(i)`, recorded as built last |
| Application.App.ConstructDeps | main/Application.hpp:130-134 | every declared dependency is built, and the slots built are the old ones followed by `AfterDeps` |
| Application.App.Construct | main/Application.hpp:167-170 | every slot is constructed, in the order `AfterAll` gives |
| Application.App.Get | main/Application.hpp:155-159 | the component in the slot whose key matches |
| Application.App.Run | main/Application.hpp:196-200 | everything is constructed in the order `AfterAll` gives, then the `Context` component runs |
| Application.App.Destroy | main/Application.hpp:136-153 | the destructor of every constructed slot, in declaration order |
| Application.ConstructedOnce | main/Application.hpp:94-111 | after `construct` every component was built exactly once, and `destroy` visits 0..N-1 |
| Application.LiveAll | main/Application.hpp:141-153 | with every slot constructed, `destroy_all` visits slots 0, 1, ..., N-1 |

## Left out

- Atomics and memory ordering (`std::atomic` flags, `memory_order_*`).
  The other task's flags are read from oracle sequences.
- `AudioBuffer.Ring.GetStats` does not model the drop-rate moving average
  (floating point). The statistics logging every 50 frames is left out
  too.
- The audio front end itself: the microphone, the feed tasks, and the AFE
  and wake word engines. Their verdicts are inputs.
  `configASSERT`/`ESP_ERROR_CHECK` aborts are not modelled.
- JSON serialisation. Messages are records with one field per JSON field;
  `Streaming.StartMessage` fills the fixed ones and the `"type"` field
  becomes the record's constructor.
- Delays and timeouts: `vTaskDelay`, the flush delay after the closing
  message, send timeouts in ticks, and the 1 ms poll delay of `waitUntil`.
  The tick rate is a parameter of `Time`.
- The WebSocket and MQTT transports and the ESP-IDF Wi-Fi, netif, NVS and
  timer calls. They are logged as requests or calls.
- `Streaming.StreamTask` models the producer as whole batches pushed
  between two passes. It also holds `running_` constant while the task
  runs.
- `Streaming.StreamLoop` does not model interleaving inside a pass.
- `WsStreamer.Streamer.StreamTask` sends only the start message, because
  `running_` is never set in WsStreamer.cpp. A later `running_` is not
  modelled.
- The `IFrameRing` of main/wstreamer.cpp is not part of this model; it is
  an abstract FIFO sequence. `drain_last(n)` delivers the newest n frames,
  oldest first, and empties the ring.
- `KeepAliveSpec.Bins` states only the length. The contents are given by
  `KeepAliveSpec.BinsSnoc`.
- `KeepAliveSpec.OnHbTick` states only the disconnected case in its own
  contract. The connected cases are `KeepAliveSpec.SilentTick` and
  `KeepAliveSpec.HeartbeatStops`.
- `KeepAliveSpec.DrainFrom` states only that the byte count never
  decreases. `KeepAliveSpec.DrainPopsPrefix` gives the whole state.
- Application's compile-time machinery:
  - the placement-new memory and moved-from arguments;
  - `destroy` does not clear `ptr`, so a second destroy is not modelled;
  - Context::run, Application.cpp, Component.hpp and Test.cpp are not part
    of this model.
- `TaskArgs` models `tskNO_AFFINITY` as ESP-IDF's 0x7FFFFFFF, because the
  value is not in the repository's sources.
- Task creation and shutdown (Task.cpp) are not part of this model.
- `Decimal.Render` models `std::to_string` for integers only.
- RingSpec and `AudioBuffer.Ring` count `head`, `tail`, `produced`,
  `consumed` and `overruns` as unbounded numbers. In the source they are
  32-bit `size_t` and wrap after 2^32 pushes. Across the wrap:
  - `RingSpec.Conserved` holds only modulo 2^32;
  - the distance `head - tail` stays right (`RingSpec.WrappedDistance`);
  - slots stay continuous when the capacity divides 2^32
    (`RingSpec.WrappedSlot`);
  - `drop_except_last` goes wrong (see Findings).
- `RingSpec.DropExceptLast` states the intended drop, not the drop across
  a wrap of the counters; `RingSpec.DropAcrossWrap` shows the difference.

## Findings

| source | as written | input that shows it | evidently intended | confidence | as-written member | corrected member |
|---|---|---|---|---|---|---|
| main/AudioBuffer.hpp:59 | `new_tail > tail` compares the stored 32-bit sequence numbers; main/AudioBuffer.cpp:31 does the same | true tail 2^32 - 1 and true head 2^32 + 3, then `drop_except_last(1)`: the stored new tail 2 is not above the stored tail 2^32 - 1, so all four items stay | keep only the newest `count` items whatever the counters' values, e.g. by testing `head - tail > count` | low: needs 2^32 pushes first; not executed | RingSpec.DropAcrossWrap | RingSpec.DropExceptLast |
