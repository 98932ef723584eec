# SpeechToText: a Dafny model of the base speech recognizer

This project models the base class `SpeechToText` of the Aimybox Android SDK. Concrete speech recognizers
extend this class. The class holds the parts that every recognizer shares:

- the recognition timeout, clamped to at least 3000 ms;
- an audio-chunk counter with an armed and a disarmed state. It decides when a run of audio buffers with no
  recognized text must be interrupted (`mustInterruptRecognition`);
- the callbacks (`onSpeechStart`, `onSpeechEnd`, `onSoundVolumeRmsChanged`, `onAudioBufferReceived`,
  `onException`) that report `Event`s and failures on the recognizer's channels;
- the closed variant types `Event` and `Result`. The rule that nothing follows a terminal `Result` on the
  output channel is stated as a well-formedness predicate on result traces.

Files:

- `events.dfy` (module `SpeechEvents`): `Event`, `Result` and the exception payload. `IsTerminal` and
  `WellFormed` describe result traces, and an equivalent front-to-back definition (`ClosedAfterTerminal`) is
  proved to match `WellFormed`.
- `counter.dfy` (module `ChunkCounter`): the counter as pure step functions. `Cleared` is `clearCounter`,
  `Increment` is the `++` in `onAudioBufferReceived`, `MustInterrupt` is `mustInterruptRecognition`, and
  `BufferEvents` gives the events of one buffer. `FeedEvents` gives the events of a run of buffers. The lemmas
  give the threshold behaviour, the disarmed behaviour and delivery of every buffer.
- `speech_to_text.dfy` (module `SpeechToTextBase`): the class `SpeechToText`. Its counter field is updated in
  place, and its two channels are append-only logs (`events`, `exceptions`). Every method states its whole new
  state in terms of the step functions above. `RecognitionTimeoutMs` is the timeout clamp.
  `ThreeChunkRecognizer` is a client that drives the class through the three-chunk scenario. `FeedBuffers`
  is a client that calls `onAudioBufferReceived` once per buffer of a run and is proved to produce exactly
  `FeedEvents`, so the run lemmas of `counter.dfy` hold of the object.

Integer widths are modelled explicitly. The counter and `maxAudioChunks` are Kotlin `Int`s (`Int32`), and
`++` wraps from `Int.MAX_VALUE` to `Int.MIN_VALUE`. The timeout is a Kotlin `Long` (`Long`).

Which results are terminal: SpeechToText.kt:62 names only `Final` and `Exception` as the results after
which the output channel is closed. Nothing in the class says that `Interrupted` closes the channel, so
`IsTerminal` holds for `Final` and `Exception` only, and `Interrupted` is treated like `Partial`.

Data model. The sealed class `Event` (SpeechToText.kt:123-162) becomes the datatype `SpeechEvents.Event`,
one constructor per subclass, with the same payloads. The `object`s become constructors without fields.
`Result` (SpeechToText.kt:164-169) becomes `SpeechEvents.Result`, with constructors `Partial`, `Final`,
`Interrupted` and `Exception`. A nullable `String?` is an `Option<string>`.

Two consequences of the code are stated as lemmas because they are easy to miss:

- The disarmed sentinel -1 is compared with the limit like any count. With a negative `maxAudioChunks`, a
  disarmed recognizer interrupts on every buffer (`DisarmedNegativeLimitAlwaysInterrupts`, and the second
  ensures of `InitCounter`).
- Nothing in this class resets the counter after an interruption. Every buffer after the threshold emits
  `RecognitionInterrupted` again (`NthBufferAfterClear`, `ThresholdAfterClear`).

## Model

| member | source | states |
|---|---|---|
| `SpeechToTextBase.RecognitionTimeoutMs` | core/src/main/java/com/justai/aimybox/speechtotext/SpeechToText.kt:24 | The effective timeout is at least 3000 ms and at least the requested value, and it is one of the two. So it equals the request whenever the request is 3000 or more. |
| `SpeechToTextBase.SpeechToText.constructor` | core/src/main/java/com/justai/aimybox/speechtotext/SpeechToText.kt:15-30 | A new recognizer keeps its limit, clamps its timeout, starts with the counter disarmed (-1) and has empty channels. The parameters default to a 10000 ms timeout and no limit, as in the source. |
| `SpeechToTextBase.SpeechToText.ClearCounter` | core/src/main/java/com/justai/aimybox/speechtotext/SpeechToText.kt:51-54 | The counter becomes 0 when a limit is set and is left unchanged otherwise. Neither channel changes. |
| `SpeechToTextBase.SpeechToText.InitCounter` | core/src/main/java/com/justai/aimybox/speechtotext/SpeechToText.kt:56-58 | The counter becomes -1 whatever the limit. Afterwards `mustInterruptRecognition` is false exactly when there is no limit or the limit is non-negative. |
| `SpeechToTextBase.SpeechToText.OnEvent` | core/src/main/java/com/justai/aimybox/speechtotext/SpeechToText.kt:74-76 | Appends exactly the given event to the event log. The counter and the exception log are unchanged. |
| `SpeechToTextBase.SpeechToText.OnException` | core/src/main/java/com/justai/aimybox/speechtotext/SpeechToText.kt:81-83 | Appends exactly the given exception to the exception log. It touches nothing else. |
| `SpeechToTextBase.SpeechToText.OnSpeechStart` | core/src/main/java/com/justai/aimybox/speechtotext/SpeechToText.kt:90 | Appends exactly `SpeechStartDetected`. The counter and the exception log are unchanged. |
| `SpeechToTextBase.SpeechToText.OnSpeechEnd` | core/src/main/java/com/justai/aimybox/speechtotext/SpeechToText.kt:97 | Appends exactly `SpeechEndDetected`. The counter and the exception log are unchanged. |
| `SpeechToTextBase.SpeechToText.OnSoundVolumeRmsChanged` | core/src/main/java/com/justai/aimybox/speechtotext/SpeechToText.kt:104-105 | Appends exactly `SoundVolumeRmsChanged` with the given volume. The counter and the exception log are unchanged. |
| `SpeechToTextBase.SpeechToText.OnAudioBufferReceived` | core/src/main/java/com/justai/aimybox/speechtotext/SpeechToText.kt:112-118 | A -1 counter stays -1. Any other counter goes up by exactly 1, wrapping at `Int.MAX_VALUE`. The log gains `AudioBufferReceived(buffer)` first, then `RecognitionInterrupted` exactly when `mustInterruptRecognition` holds on the new state: one or two events and nothing else. |
| `SpeechToTextBase.ThreeChunkRecognizer` | core/src/main/java/com/justai/aimybox/speechtotext/SpeechToText.kt:112-118 | With limit 3, after `clearCounter` and three buffers, the event log is the three buffers followed by one `RecognitionInterrupted`, and the counter is 3. |
| `ChunkCounter.BufferEvents` | core/src/main/java/com/justai/aimybox/speechtotext/SpeechToText.kt:116-117 | One buffer emits one or two events. The first reports the buffer. A second event is present exactly when the incremented counter has reached the limit, and it is `RecognitionInterrupted`. |
| `ChunkCounter.CounterAfterDisarmed` | core/src/main/java/com/justai/aimybox/speechtotext/SpeechToText.kt:113-115 | A disarmed counter stays -1 whatever number of buffers arrives. |
| `ChunkCounter.CounterAfterArmed` | core/src/main/java/com/justai/aimybox/speechtotext/SpeechToText.kt:113-115 | A counter c >= 0 is c + k after k buffers, as long as that does not pass `Int.MAX_VALUE`. |
| `ChunkCounter.FeedConcat` | core/src/main/java/com/justai/aimybox/speechtotext/SpeechToText.kt:112-118 | The events of two batches of buffers, run one after the other, are the first batch's events followed by the second batch's events, the second starting from the counter the first left. |
| `ChunkCounter.FeedDeliversBuffers` | core/src/main/java/com/justai/aimybox/speechtotext/SpeechToText.kt:112-118 | A run reports every buffer once, in order. Apart from the buffers it emits only `RecognitionInterrupted`, and no more of those than buffers. Where they fall is stated by `FeedInterruptsFollowBuffers`. |
| `ChunkCounter.NthBufferAfterClear` | core/src/main/java/com/justai/aimybox/speechtotext/SpeechToText.kt:32-34 | After `clearCounter` with any limit n, the i-th buffer emits `RecognitionInterrupted` exactly when i >= n. So buffers 1..n-1 emit none, the n-th emits one, and every later one emits one too. A limit of 0 or below interrupts at every buffer. |
| `ChunkCounter.ArmedInterruptCount` | core/src/main/java/com/justai/aimybox/speechtotext/SpeechToText.kt:112-118 | From a counter c >= 0 and any limit, a run that does not take the counter past `Int.MAX_VALUE` emits one `RecognitionInterrupted` for each buffer after which the counter is at or past the limit, and no others. |
| `ChunkCounter.ThresholdAfterClear` | core/src/main/java/com/justai/aimybox/speechtotext/SpeechToText.kt:51-54 | k buffers right after `clearCounter` with limit n >= 1 emit k - n + 1 interruptions when k >= n, and none otherwise. |
| `ChunkCounter.DisarmedNeverInterrupts` | core/src/main/java/com/justai/aimybox/speechtotext/SpeechToText.kt:34 | While disarmed, with no limit or a non-negative one, any run of buffers reports just the buffers and never `RecognitionInterrupted`. |
| `ChunkCounter.DisarmedNegativeLimitAlwaysInterrupts` | core/src/main/java/com/justai/aimybox/speechtotext/SpeechToText.kt:34 | With a negative limit, a disarmed run emits exactly each buffer followed by `RecognitionInterrupted`, one per buffer, because the sentinel -1 satisfies `-1 >= limit`. |
| `SpeechEvents.WellFormedIffClosed` | core/src/main/java/com/justai/aimybox/speechtotext/SpeechToText.kt:60-63 | "Only the last element may be terminal" and "a terminal head has nothing after it, recursively" describe the same result traces. |
| `SpeechEvents.AtMostOneTerminal` | core/src/main/java/com/justai/aimybox/speechtotext/SpeechToText.kt:164-169 | A well-formed trace holds at most one `Final` or `Exception`. It holds one exactly when its last element is terminal. |
| `SpeechEvents.AppendWellFormed` | core/src/main/java/com/justai/aimybox/speechtotext/SpeechToText.kt:60-63 | Appending a result keeps a trace well-formed exactly when the trace was well-formed and did not already end with a terminal result. |
| `SpeechEvents.NothingAfterTerminal` | core/src/main/java/com/justai/aimybox/speechtotext/SpeechToText.kt:60-63 | Once a trace ends with `Final` or `Exception`, any further value makes it ill-formed. |
| `SpeechEvents.PrefixWellFormed` | core/src/main/java/com/justai/aimybox/speechtotext/SpeechToText.kt:60-66 | Every prefix of a well-formed result trace is well-formed. |
| `ChunkCounter.MustInterrupt` | core/src/main/java/com/justai/aimybox/speechtotext/SpeechToText.kt:32-34 | `mustInterruptRecognition`: a limit is set and the counter is at or past it. It never holds without a limit. On the disarmed counter -1 it holds exactly when the limit is negative. Run-level consequences: `NthBufferAfterClear`, `DisarmedNeverInterrupts`, `DisarmedNegativeLimitAlwaysInterrupts`. |
| `SpeechToTextBase.SpeechToText.MustInterruptRecognition` | core/src/main/java/com/justai/aimybox/speechtotext/SpeechToText.kt:32-34 | The same test read from the object's fields: never true without a limit, and true on a disarmed counter exactly when the limit is negative. |
| `ChunkCounter.Cleared` | core/src/main/java/com/justai/aimybox/speechtotext/SpeechToText.kt:51-54 | The counter after `clearCounter`. With a limit, it is armed, and it already demands an interruption exactly when the limit is 0 or below. Without a limit, the counter is unchanged and no interruption is demanded. |
| `ChunkCounter.Increment` | core/src/main/java/com/justai/aimybox/speechtotext/SpeechToText.kt:113-115 | The counter after one buffer. The disarmed -1 stays -1. Any other value becomes its successor modulo 2^32 in two's complement, the Kotlin `Int` `++`. Run-level consequences: `CounterAfterArmed`, `CounterAfterDisarmed`. |
| `ChunkCounter.FeedInterruptsFollowBuffers` | core/src/main/java/com/justai/aimybox/speechtotext/SpeechToText.kt:116-117 | In the events of any run, whatever the limit and the counter, every `RecognitionInterrupted` comes straight after an `AudioBufferReceived`. So each buffer is followed by at most one interruption. |
| `ChunkCounter.CounterAfterStep` | core/src/main/java/com/justai/aimybox/speechtotext/SpeechToText.kt:113-115 | The counter after k + 1 buffers is one `Increment` of the counter after k buffers. |
| `ChunkCounter.FeedSnoc` | core/src/main/java/com/justai/aimybox/speechtotext/SpeechToText.kt:112-118 | The events of a run followed by one more buffer are the run's events, then that buffer's events, computed from the counter the run left. |
| `SpeechToTextBase.FeedBuffers` | core/src/main/java/com/justai/aimybox/speechtotext/SpeechToText.kt:112-118 | Calling `onAudioBufferReceived` on the object once per buffer of a run moves the counter to `CounterAfter` and appends exactly `FeedEvents` of the run to the event log. So the run lemmas hold of the class itself. The exception log is unchanged. |
| `SpeechEvents.IsTerminal` | core/src/main/java/com/justai/aimybox/speechtotext/SpeechToText.kt:60-63 | `Final` and `Exception` are terminal; `Partial` and `Interrupted` are not. |
| `SpeechEvents.WellFormed` | core/src/main/java/com/justai/aimybox/speechtotext/SpeechToText.kt:60-63 | A trace is well-formed exactly when nothing follows any terminal result in it. Properties: `WellFormedIffClosed`, `AtMostOneTerminal`, `AppendWellFormed`, `NothingAfterTerminal`, `PrefixWellFormed`. |
| `ChunkCounter.CounterAfterNegative` | core/src/main/java/com/justai/aimybox/speechtotext/SpeechToText.kt:113-115 | A negative counter c below -1 is c + k after k buffers, up to and including the step that reaches -1. |
| `ChunkCounter.CounterAfterSplit` | core/src/main/java/com/justai/aimybox/speechtotext/SpeechToText.kt:113-115 | The counter after a + b buffers is the counter after a buffers, moved b buffers further. |
| `ChunkCounter.CounterWrapsToDisarmed` | core/src/main/java/com/justai/aimybox/speechtotext/SpeechToText.kt:113-115 | From 0, `Int.MAX_VALUE` + 1 buffers wrap the counter to `Int.MIN_VALUE`. After 2^32 - 1 buffers or more, the counter is -1, so it is disarmed for good. |

## Left out

- Channel delivery: `SendChannel.offer` does not block. On a full channel it returns false and the value is lost. On a closed channel it throws, so in `onAudioBufferReceived` the counter has already been incremented and `RecognitionInterrupted` is never offered. The model covers neither the drop nor the throw: it appends every offered event and exception to a log. The channels are `lateinit` and are taken to be set before any callback runs.
- `@Volatile` and all thread-safety: callbacks are modelled as running one at a time.
- `startRecognition`, `stopRecognition`, `cancelRecognition`: abstract, with no body in this class. The timeout firing, forced termination after `RecognitionInterrupted`, and the production of `Result`s all live in concrete recognizers, which are not part of this model. The model therefore proves nothing about who emits results. It only defines which result traces are well-formed.
- `destroy`: an empty default body (`Unit`), with no state to model.
- `rmsDb` is a 32-bit float. It is carried as its raw bits (`bv32`), and no arithmetic is done on it.
- `SpeechToTextException` (core/src/main/java/com/justai/aimybox/core) is not part of this model. It is represented by its optional message only.
- `ByteArray` payloads are compared by value (`seq<bv8>`). Kotlin's `data class` equality on arrays is by reference, and nothing in this class depends on it.
- NthBufferAfterClear: the "every later buffer interrupts again" claim is proved only up to `Int.MAX_VALUE` buffers after `clearCounter`. At the next buffer the `Int` counter wraps to `Int.MIN_VALUE`. With a limit >= 0 it then stops interrupting, and 2^32 - 1 buffers after `clearCounter` it reaches -1 and stays disarmed (`CounterWrapsToDisarmed`). With a negative limit, interruptions resume once the climbing counter reaches the limit. No lemma gives the interruptions after the wrap.
- ThresholdAfterClear: bounded the same way, to runs of at most `Int.MAX_VALUE` buffers, and stated only for a limit n >= 1, which its closed form k - n + 1 needs.
- ArmedInterruptCount: stated only for a run that starts from a counter at 0 or above and does not take the counter past `Int.MAX_VALUE`. A negative counter, which exists only after a wrap, is not covered.
- `recognitionTimeoutMs` is an `open val`, and the channels are `open lateinit var` (SpeechToText.kt:24, 37-38). A subclass may override them, including the 3000 ms clamp. The model fixes the base class's definitions.
- KaldiAssets.kt (model download, unzipping, asset copying) and AudioSynthesizer.kt (coroutine job control around Android `MediaPlayer`) are I/O and concurrency plumbing over platform libraries, and are not part of this model.
