/**
 The base speech recognizer `SpeechToText`: the clamped recognition timeout,
 the armed/disarmed audio-chunk counter it updates in place, and the callbacks
 that concrete recognizers call to report events and failures.

 The event and exception channels are append-only logs here: every offered
 value is taken to be delivered.
 */
module SpeechToTextBase {
  import opened SpeechEvents
  import opened ChunkCounter

  /** A Kotlin `Long`: two's complement, 64 bits. */
  newtype Long = x: int | -0x8000_0000_0000_0000 <= x < 0x8000_0000_0000_0000

  /** The shortest recognition timeout, in milliseconds. */
  const MinRecognitionTimeoutMs: Long := 3000

  /** The timeout used when a recognizer asks for none, in milliseconds. */
  const DefaultRecognitionTimeoutMs: Long := 10000

  /**
   `recognitionTimeoutMs`: the requested timeout, raised to 3000 ms when shorter.
   The result is the larger of the two: it is at least both and is one of them.
   */
  function RecognitionTimeoutMs(requested: Long): (r: Long)
    ensures r >= MinRecognitionTimeoutMs && r >= requested
    ensures r == MinRecognitionTimeoutMs || r == requested
  {
    if requested < MinRecognitionTimeoutMs then MinRecognitionTimeoutMs else requested
  }

  /** Base class for speech recognizers. */
  class SpeechToText {
    /** Interrupt recognition after this many audio chunks without a result; `None` never interrupts. */
    const maxAudioChunks: Option<Int32>
    /** Recognition is cancelled if no result arrives within this interval. */
    const recognitionTimeoutMs: Long

    /** Audio chunks received since the last result; `Disarmed` (-1) when not counting. */
    var audioChunksBetweenResults: Int32
    /** Everything offered to the event channel, oldest first. */
    var events: seq<Event>
    /** Everything offered to the exception channel, oldest first. */
    var exceptions: seq<SpeechToTextException>

    constructor (recognitionTimeout: Long := DefaultRecognitionTimeoutMs, maxAudioChunks: Option<Int32> := None)
      ensures this.maxAudioChunks == maxAudioChunks
      ensures recognitionTimeoutMs == RecognitionTimeoutMs(recognitionTimeout)
      ensures audioChunksBetweenResults == Disarmed
      ensures events == [] && exceptions == []
    {
      this.maxAudioChunks := maxAudioChunks;
      recognitionTimeoutMs := RecognitionTimeoutMs(recognitionTimeout);
      audioChunksBetweenResults := Disarmed;
      events := [];
      exceptions := [];
    }

    /** `mustInterruptRecognition`, read from the current state. */
    predicate MustInterruptRecognition()
      reads this
      ensures MustInterruptRecognition() ==> maxAudioChunks.Some?
      ensures audioChunksBetweenResults == Disarmed ==>
        (MustInterruptRecognition() <==> maxAudioChunks.Some? && maxAudioChunks.value < 0)
    {
      MustInterrupt(maxAudioChunks, audioChunksBetweenResults)
    }

    /** Arms the counter at 0 when a limit is set; otherwise nothing changes. */
    method ClearCounter()
      modifies this
      ensures maxAudioChunks.Some? ==> audioChunksBetweenResults == 0
      ensures maxAudioChunks.None? ==> audioChunksBetweenResults == old(audioChunksBetweenResults)
      ensures audioChunksBetweenResults == Cleared(maxAudioChunks, old(audioChunksBetweenResults))
      ensures events == old(events) && exceptions == old(exceptions)
    {
      if maxAudioChunks.Some? {
        audioChunksBetweenResults := 0;
      }
    }

    /** Disarms the counter, whatever the limit. */
    method InitCounter()
      modifies this
      ensures audioChunksBetweenResults == Disarmed
      ensures !MustInterruptRecognition() <==> maxAudioChunks.None? || maxAudioChunks.value >= 0
      ensures events == old(events) && exceptions == old(exceptions)
    {
      audioChunksBetweenResults := Disarmed;
    }

    /** Offers one event to the event channel. */
    method OnEvent(event: Event)
      modifies this
      ensures events == old(events) + [event]
      ensures audioChunksBetweenResults == old(audioChunksBetweenResults)
      ensures exceptions == old(exceptions)
    {
      events := events + [event];
    }

    /** Offers a recognizer failure to the exception channel; the events and the counter are untouched. */
    method OnException(exception: SpeechToTextException)
      modifies this
      ensures exceptions == old(exceptions) + [exception]
      ensures events == old(events)
      ensures audioChunksBetweenResults == old(audioChunksBetweenResults)
    {
      exceptions := exceptions + [exception];
    }

    /** The recognizer detected the start of speech. */
    method OnSpeechStart()
      modifies this
      ensures events == old(events) + [SpeechStartDetected]
      ensures audioChunksBetweenResults == old(audioChunksBetweenResults)
      ensures exceptions == old(exceptions)
    {
      OnEvent(SpeechStartDetected);
    }

    /** The recognizer detected the end of speech. */
    method OnSpeechEnd()
      modifies this
      ensures events == old(events) + [SpeechEndDetected]
      ensures audioChunksBetweenResults == old(audioChunksBetweenResults)
      ensures exceptions == old(exceptions)
    {
      OnEvent(SpeechEndDetected);
    }

    /** The recognizer measured a new input volume. */
    method OnSoundVolumeRmsChanged(rmsDb: RmsDb)
      modifies this
      ensures events == old(events) + [SoundVolumeRmsChanged(rmsDb)]
      ensures audioChunksBetweenResults == old(audioChunksBetweenResults)
      ensures exceptions == old(exceptions)
    {
      OnEvent(SoundVolumeRmsChanged(rmsDb));
    }

    /**
     The recognizer recorded a chunk of audio. An armed counter counts it; the
     buffer is reported, followed by `RecognitionInterrupted` exactly when the
     limit is set and the counter, after counting, has reached it.
     */
    method OnAudioBufferReceived(buffer: AudioBuffer)
      modifies this
      ensures old(audioChunksBetweenResults) == Disarmed ==> audioChunksBetweenResults == Disarmed
      ensures old(audioChunksBetweenResults) != Disarmed && old(audioChunksBetweenResults) != IntMax
              ==> audioChunksBetweenResults == old(audioChunksBetweenResults) + 1
      ensures old(audioChunksBetweenResults) == IntMax ==> audioChunksBetweenResults == IntMin
      ensures audioChunksBetweenResults == Increment(old(audioChunksBetweenResults))
      ensures events == old(events) + BufferEvents(maxAudioChunks, old(audioChunksBetweenResults), buffer)
      ensures |events| == |old(events)| + (if MustInterruptRecognition() then 2 else 1)
      ensures events[|old(events)|] == AudioBufferReceived(buffer)
      ensures MustInterruptRecognition() ==> events[|events| - 1] == RecognitionInterrupted
      ensures exceptions == old(exceptions)
    {
      if audioChunksBetweenResults != Disarmed {
        audioChunksBetweenResults := if audioChunksBetweenResults == IntMax then IntMin else audioChunksBetweenResults + 1;
      }
      OnEvent(AudioBufferReceived(buffer));
      if MustInterruptRecognition() {
        OnEvent(RecognitionInterrupted);
      }
    }
  }

  /**
   A recognizer limited to three chunks, armed by `clearCounter`, receives three
   buffers: the third is followed by `RecognitionInterrupted`, and nothing else is reported.
   */
  method ThreeChunkRecognizer(b1: AudioBuffer, b2: AudioBuffer, b3: AudioBuffer) returns (log: seq<Event>, counter: Int32)
    ensures log == [AudioBufferReceived(b1), AudioBufferReceived(b2), AudioBufferReceived(b3), RecognitionInterrupted]
    ensures counter == 3
  {
    var recognizer := new SpeechToText(maxAudioChunks := Some(3));
    recognizer.ClearCounter();
    recognizer.OnAudioBufferReceived(b1);
    recognizer.OnAudioBufferReceived(b2);
    recognizer.OnAudioBufferReceived(b3);
    log, counter := recognizer.events, recognizer.audioChunksBetweenResults;
  }

  /**
   A recognizer receives a run of audio buffers with no other call in between:
   the counter moves once per buffer and the event log grows by exactly the
   events of that run, in order.
   */
  method FeedBuffers(recognizer: SpeechToText, buffers: seq<AudioBuffer>)
    modifies recognizer
    ensures recognizer.audioChunksBetweenResults == CounterAfter(old(recognizer.audioChunksBetweenResults), |buffers|)
    ensures recognizer.events
         == old(recognizer.events) + FeedEvents(recognizer.maxAudioChunks, old(recognizer.audioChunksBetweenResults), buffers)
    ensures recognizer.exceptions == old(recognizer.exceptions)
  {
    var i := 0;
    while i < |buffers|
      invariant 0 <= i <= |buffers|
      invariant recognizer.audioChunksBetweenResults == CounterAfter(old(recognizer.audioChunksBetweenResults), i)
      invariant recognizer.events
             == old(recognizer.events) + FeedEvents(recognizer.maxAudioChunks, old(recognizer.audioChunksBetweenResults), buffers[..i])
      invariant recognizer.exceptions == old(recognizer.exceptions)
    {
      FeedSnoc(recognizer.maxAudioChunks, old(recognizer.audioChunksBetweenResults), buffers[..i], buffers[i]);
      CounterAfterStep(old(recognizer.audioChunksBetweenResults), i);
      assert buffers[..i + 1] == buffers[..i] + [buffers[i]];
      recognizer.OnAudioBufferReceived(buffers[i]);
      i := i + 1;
    }
    assert buffers[..i] == buffers;
  }
}
