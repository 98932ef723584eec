/**
 The audio-chunk counter of a speech recognizer as pure step functions.

 The counter is a Kotlin `Int`. The value -1 means disarmed: chunks are not
 counted. Any other value means armed and counts the chunks received since the
 last result. Each step function here is one of the recognizer's in-place
 updates. The lemmas describe what a run of audio buffers emits.
 */
module ChunkCounter {
  import opened SpeechEvents

  /** A Kotlin `Int`: two's complement, 32 bits. */
  newtype Int32 = x: int | -0x8000_0000 <= x < 0x8000_0000

  const IntMax: Int32 := 0x7fff_ffff
  const IntMin: Int32 := -0x8000_0000

  /** The sentinel for a disarmed counter. */
  const Disarmed: Int32 := -1

  /**
   `mustInterruptRecognition`: a limit is set and the counter has reached it.
   The test does not look at whether the counter is armed, so the sentinel -1
   itself reaches any negative limit.
   */
  predicate MustInterrupt(maxAudioChunks: Option<Int32>, counter: Int32)
    ensures MustInterrupt(maxAudioChunks, counter) ==> maxAudioChunks.Some?
    ensures counter == Disarmed ==>
      (MustInterrupt(maxAudioChunks, counter) <==> maxAudioChunks.Some? && maxAudioChunks.value < 0)
  {
    maxAudioChunks.Some? && counter >= maxAudioChunks.value
  }

  /** The counter after `clearCounter`: it arms only when a limit is set. */
  function Cleared(maxAudioChunks: Option<Int32>, counter: Int32): (r: Int32)
    ensures maxAudioChunks.Some? ==>
      r != Disarmed && (MustInterrupt(maxAudioChunks, r) <==> maxAudioChunks.value <= 0)
    ensures maxAudioChunks.None? ==> r == counter && !MustInterrupt(maxAudioChunks, r)
  {
    if maxAudioChunks.Some? then 0 else counter
  }

  /** The counter after one audio buffer: `++` on an armed counter, wrapping as a Kotlin `Int` does. */
  function Increment(counter: Int32): (r: Int32)
    ensures counter == Disarmed ==> r == Disarmed
    ensures counter != Disarmed ==>
      r as int == (counter as int + 1 - IntMin as int) % 0x1_0000_0000 + IntMin as int
  {
    if counter == Disarmed then counter
    else if counter == IntMax then IntMin
    else counter + 1
  }

  /** The events one audio buffer emits, given the counter before the call. */
  function BufferEvents(maxAudioChunks: Option<Int32>, counter: Int32, buffer: AudioBuffer): (r: seq<Event>)
    ensures 1 <= |r| <= 2 && r[0] == AudioBufferReceived(buffer)
    ensures |r| == 2 <==> MustInterrupt(maxAudioChunks, Increment(counter))
    ensures |r| == 2 ==> r[1] == RecognitionInterrupted
  {
    var announce := [AudioBufferReceived(buffer)];
    if MustInterrupt(maxAudioChunks, Increment(counter)) then announce + [RecognitionInterrupted] else announce
  }

  /** The counter after `k` audio buffers. */
  function CounterAfter(counter: Int32, k: nat): Int32
    decreases k
  {
    if k == 0 then counter else CounterAfter(Increment(counter), k - 1)
  }

  /** The events a run of audio buffers emits, in order, with no other call in between. */
  function FeedEvents(maxAudioChunks: Option<Int32>, counter: Int32, buffers: seq<AudioBuffer>): seq<Event>
    decreases |buffers|
  {
    if buffers == [] then []
    else BufferEvents(maxAudioChunks, counter, buffers[0])
         + FeedEvents(maxAudioChunks, Increment(counter), buffers[1..])
  }

  /** The number of `RecognitionInterrupted` events in a log. */
  function InterruptCount(events: seq<Event>): nat
    decreases |events|
  {
    if events == [] then 0
    else (if events[0] == RecognitionInterrupted then 1 else 0) + InterruptCount(events[1..])
  }

  /** The payloads of the `AudioBufferReceived` events in a log, in order. */
  function BuffersOf(events: seq<Event>): seq<AudioBuffer>
    decreases |events|
  {
    if events == [] then []
    else (if events[0].AudioBufferReceived? then [events[0].buffer] else []) + BuffersOf(events[1..])
  }

  /** Each buffer reported and followed by an interruption: what a run emits when every buffer interrupts. */
  function Flagged(buffers: seq<AudioBuffer>): seq<Event>
    decreases |buffers|
  {
    if buffers == [] then []
    else [AudioBufferReceived(buffers[0]), RecognitionInterrupted] + Flagged(buffers[1..])
  }

  /** Every `RecognitionInterrupted` in a log comes straight after an `AudioBufferReceived`. */
  predicate InterruptsFollowBuffers(events: seq<Event>) {
    forall i :: 0 <= i < |events| && events[i].RecognitionInterrupted? ==> i > 0 && events[i - 1].AudioBufferReceived?
  }

  /** Each buffer reported without an interruption: what a run emits when nothing interrupts it. */
  function Announced(buffers: seq<AudioBuffer>): seq<Event>
    decreases |buffers|
  {
    if buffers == [] then [] else [AudioBufferReceived(buffers[0])] + Announced(buffers[1..])
  }

  lemma {:induction false} InterruptCountConcat(a: seq<Event>, b: seq<Event>)
    ensures InterruptCount(a + b) == InterruptCount(a) + InterruptCount(b)
    decreases |a|
  {
    if a == [] {
      assert a + b == b;
    } else {
      assert (a + b)[0] == a[0];
      assert (a + b)[1..] == a[1..] + b;
      InterruptCountConcat(a[1..], b);
    }
  }

  lemma {:induction false} BuffersOfConcat(a: seq<Event>, b: seq<Event>)
    ensures BuffersOf(a + b) == BuffersOf(a) + BuffersOf(b)
    decreases |a|
  {
    if a == [] {
      assert a + b == b;
    } else {
      assert (a + b)[0] == a[0];
      assert (a + b)[1..] == a[1..] + b;
      BuffersOfConcat(a[1..], b);
    }
  }

  /** A disarmed counter stays disarmed whatever number of buffers arrives. */
  lemma {:induction false} CounterAfterDisarmed(k: nat)
    ensures CounterAfter(Disarmed, k) == Disarmed
    decreases k
  {
    if k > 0 {
      CounterAfterDisarmed(k - 1);
    }
  }

  /** A counter at 0 or above counts every buffer, one by one, as long as it does not wrap around. */
  lemma {:induction false} CounterAfterArmed(counter: Int32, k: nat)
    requires 0 <= counter && counter as int + k <= IntMax as int
    ensures CounterAfter(counter, k) as int == counter as int + k
    decreases k
  {
    if k > 0 {
      CounterAfterArmed(counter + 1, k - 1);
    }
  }

  /** A wrapped, negative counter climbs by one per buffer until it reaches the sentinel -1. */
  lemma {:induction false} CounterAfterNegative(counter: Int32, k: nat)
    requires counter < 0 && counter as int + k <= Disarmed as int
    ensures CounterAfter(counter, k) as int == counter as int + k
    decreases k
  {
    if k > 0 {
      CounterAfterNegative(counter + 1, k - 1);
    }
  }

  /** `a + b` buffers move the counter as `a` buffers followed by `b` more. */
  lemma {:induction false} CounterAfterSplit(counter: Int32, a: nat, b: nat)
    ensures CounterAfter(counter, a + b) == CounterAfter(CounterAfter(counter, a), b)
    decreases a
  {
    if a > 0 {
      CounterAfterSplit(Increment(counter), a - 1, b);
    }
  }

  /**
   The counter armed by `clearCounter` wraps after `Int.MAX_VALUE` buffers to
   `Int.MIN_VALUE`, and `2^32 - 1` buffers after arming it lands on -1: it is disarmed from then on.
   */
  lemma CounterWrapsToDisarmed(k: nat)
    ensures CounterAfter(0, IntMax as int + 1) == IntMin
    ensures CounterAfter(0, 0xffff_ffff + k) == Disarmed
  {
    CounterAfterArmed(0, IntMax as int);
    CounterAfterSplit(0, IntMax as int, 1);
    CounterAfterNegative(IntMin, 0x7fff_ffff);
    CounterAfterSplit(0, IntMax as int + 1, 0x7fff_ffff);
    CounterAfterDisarmed(k);
    CounterAfterSplit(0, 0xffff_ffff, k);
  }

  /** Running two batches of buffers one after the other emits the two batches' events in order. */
  lemma {:induction false} FeedConcat(maxAudioChunks: Option<Int32>, counter: Int32, xs: seq<AudioBuffer>, ys: seq<AudioBuffer>)
    ensures FeedEvents(maxAudioChunks, counter, xs + ys)
         == FeedEvents(maxAudioChunks, counter, xs) + FeedEvents(maxAudioChunks, CounterAfter(counter, |xs|), ys)
    decreases |xs|
  {
    if xs == [] {
      assert xs + ys == ys;
    } else {
      assert (xs + ys)[1..] == xs[1..] + ys;
      FeedConcat(maxAudioChunks, Increment(counter), xs[1..], ys);
    }
  }

  /**
   Every buffer of a run is reported, in order, and nothing but buffers and
   interruptions is emitted: each buffer adds one or two events.
   */
  lemma {:induction false} FeedDeliversBuffers(maxAudioChunks: Option<Int32>, counter: Int32, buffers: seq<AudioBuffer>)
    ensures BuffersOf(FeedEvents(maxAudioChunks, counter, buffers)) == buffers
    ensures |FeedEvents(maxAudioChunks, counter, buffers)|
         == |buffers| + InterruptCount(FeedEvents(maxAudioChunks, counter, buffers))
    ensures InterruptCount(FeedEvents(maxAudioChunks, counter, buffers)) <= |buffers|
    decreases |buffers|
  {
    if buffers != [] {
      var head := BufferEvents(maxAudioChunks, counter, buffers[0]);
      var tail := FeedEvents(maxAudioChunks, Increment(counter), buffers[1..]);
      FeedDeliversBuffers(maxAudioChunks, Increment(counter), buffers[1..]);
      BuffersOfConcat(head, tail);
      InterruptCountConcat(head, tail);
      assert head[1..] == [] || head[1..] == [RecognitionInterrupted];
      assert BuffersOf(head) == [buffers[0]];
      assert buffers == [buffers[0]] + buffers[1..];
    }
  }

  /**
   In the events of any run, each `RecognitionInterrupted` comes straight after
   the buffer that caused it, so a buffer is followed by at most one interruption.
   */
  lemma {:induction false} FeedInterruptsFollowBuffers(maxAudioChunks: Option<Int32>, counter: Int32, buffers: seq<AudioBuffer>)
    ensures InterruptsFollowBuffers(FeedEvents(maxAudioChunks, counter, buffers))
    decreases |buffers|
  {
    if buffers != [] {
      var head := BufferEvents(maxAudioChunks, counter, buffers[0]);
      var tail := FeedEvents(maxAudioChunks, Increment(counter), buffers[1..]);
      FeedInterruptsFollowBuffers(maxAudioChunks, Increment(counter), buffers[1..]);
      var e := head + tail;
      forall i | 0 <= i < |e| && e[i].RecognitionInterrupted? ensures i > 0 && e[i - 1].AudioBufferReceived? {
        if i < |head| {
          assert e[i] == head[i];
          assert i == 1 && e[0] == head[0];
        } else {
          assert e[i] == tail[i - |head|];
          assert e[i - 1] == tail[i - |head| - 1];
        }
      }
    }
  }

  /**
   After `clearCounter` with limit `n`, the `i`-th buffer (counting from 1)
   emits `RecognitionInterrupted` exactly when `i >= n`: none before the `n`-th,
   one at the `n`-th, and one at every later buffer, since nothing here resets the
   counter. A limit of 0 or below interrupts at every buffer.
   */
  lemma NthBufferAfterClear(n: Int32, i: nat, buffer: AudioBuffer)
    requires 1 <= i <= IntMax as int
    ensures BufferEvents(Some(n), CounterAfter(Cleared(Some(n), Disarmed), i - 1), buffer)
         == if i >= n as int then [AudioBufferReceived(buffer), RecognitionInterrupted]
            else [AudioBufferReceived(buffer)]
  {
    CounterAfterArmed(0, i - 1);
  }

  /** How many buffers of a run of `k`, from a counter `counter >= 0`, find the counter at or past `n`. */
  function Reaching(n: Int32, counter: Int32, k: nat): nat {
    var last := counter as int + k;
    var below := if n as int - 1 > counter as int then n as int - 1 else counter as int;
    if last <= below then 0 else last - below
  }

  /** From a counter at 0 or above, the interruptions a run emits are exactly the buffers that reach the limit. */
  lemma {:induction false} ArmedInterruptCount(n: Int32, counter: Int32, buffers: seq<AudioBuffer>)
    requires 0 <= counter && counter as int + |buffers| <= IntMax as int
    ensures InterruptCount(FeedEvents(Some(n), counter, buffers)) == Reaching(n, counter, |buffers|)
    decreases |buffers|
  {
    if buffers != [] {
      var head := BufferEvents(Some(n), counter, buffers[0]);
      ArmedInterruptCount(n, counter + 1, buffers[1..]);
      InterruptCountConcat(head, FeedEvents(Some(n), counter + 1, buffers[1..]));
      assert head[1..] == [] || head[1..] == [RecognitionInterrupted];
      assert InterruptCount(head) == if counter + 1 >= n then 1 else 0 by {
        if |head| == 2 {
          assert head[1..][1..] == [];
        } else {
          assert head[1..] == [];
        }
      }
    }
  }

  /** A run of `k` buffers right after `clearCounter` with limit `n >= 1` emits `k - n + 1` interruptions when `k >= n`, none otherwise. */
  lemma ThresholdAfterClear(n: Int32, buffers: seq<AudioBuffer>)
    requires 1 <= n && |buffers| <= IntMax as int
    ensures InterruptCount(FeedEvents(Some(n), Cleared(Some(n), Disarmed), buffers))
         == if |buffers| < n as int then 0 else |buffers| - n as int + 1
  {
    ArmedInterruptCount(n, 0, buffers);
  }

  /**
   While disarmed, with no limit or a non-negative one, a run of buffers only
   reports the buffers: `RecognitionInterrupted` is never emitted.
   */
  lemma {:induction false} DisarmedNeverInterrupts(maxAudioChunks: Option<Int32>, buffers: seq<AudioBuffer>)
    requires maxAudioChunks.None? || maxAudioChunks.value >= 0
    ensures FeedEvents(maxAudioChunks, Disarmed, buffers) == Announced(buffers)
    ensures RecognitionInterrupted !in FeedEvents(maxAudioChunks, Disarmed, buffers)
    decreases |buffers|
  {
    if buffers != [] {
      DisarmedNeverInterrupts(maxAudioChunks, buffers[1..]);
    }
  }

  /**
   The disarmed sentinel -1 is itself compared with the limit: with a negative
   limit, every buffer of a run emits `RecognitionInterrupted` although the counter is disarmed.
   */
  lemma {:induction false} DisarmedNegativeLimitAlwaysInterrupts(m: Int32, buffers: seq<AudioBuffer>)
    requires m < 0
    ensures FeedEvents(Some(m), Disarmed, buffers) == Flagged(buffers)
    ensures InterruptCount(FeedEvents(Some(m), Disarmed, buffers)) == |buffers|
    decreases |buffers|
  {
    if buffers != [] {
      var head := BufferEvents(Some(m), Disarmed, buffers[0]);
      DisarmedNegativeLimitAlwaysInterrupts(m, buffers[1..]);
      InterruptCountConcat(head, FeedEvents(Some(m), Disarmed, buffers[1..]));
      assert head == [AudioBufferReceived(buffers[0]), RecognitionInterrupted];
      assert InterruptCount(head) == 1 by {
        assert head[1..][1..] == [];
      }
    }
  }

  /** One buffer more moves the counter one step further. */
  lemma {:induction false} CounterAfterStep(counter: Int32, k: nat)
    ensures CounterAfter(counter, k + 1) == Increment(CounterAfter(counter, k))
    decreases k
  {
    if k > 0 {
      CounterAfterStep(Increment(counter), k - 1);
    }
  }

  /** The events of a run followed by one more buffer: the run's events, then that buffer's. */
  lemma FeedSnoc(maxAudioChunks: Option<Int32>, counter: Int32, buffers: seq<AudioBuffer>, buffer: AudioBuffer)
    ensures FeedEvents(maxAudioChunks, counter, buffers + [buffer])
         == FeedEvents(maxAudioChunks, counter, buffers) + BufferEvents(maxAudioChunks, CounterAfter(counter, |buffers|), buffer)
  {
    FeedConcat(maxAudioChunks, counter, buffers, [buffer]);
    assert [buffer][1..] == [];
  }
}
