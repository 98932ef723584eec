/**
 The closed variant types of the speech recognizer: the `Event`s a recognizer
 reports while it runs and the `Result`s it delivers on its output channel,
 together with the rule that nothing follows a terminal result.
 */
module SpeechEvents {

  datatype Option<+T> = None | Some(value: T)

  /** One byte of recorded audio. */
  type Byte = bv8

  /** A chunk of raw audio as recorded from the microphone. */
  type AudioBuffer = seq<Byte>

  /** A sound volume in decibels, a 32-bit float carried as its raw bits: it is only passed along. */
  type RmsDb = bv32

  /** A recognizer failure; only its message is kept. */
  datatype SpeechToTextException = SpeechToTextException(message: Option<string>)

  /** Events occurring during the recognition process. */
  datatype Event =
    | RecognitionStarted
    | RecognitionPartialResult(text: Option<string>)
    | RecognitionResult(text: Option<string>)
    | EmptyRecognitionResult
    | RecognitionCancelled
    | RecognitionInterrupted
    | SpeechStartDetected
    | SpeechEndDetected
    | SoundVolumeRmsChanged(rmsDb: RmsDb)
    | AudioBufferReceived(buffer: AudioBuffer)

  /** Values delivered on the output channel of `startRecognition`. */
  datatype Result =
    | Partial(text: Option<string>)
    | Final(text: Option<string>)
    | Interrupted
    | Exception(exception: SpeechToTextException)

  /** `Final` and `Exception` close the output channel; `Partial` and `Interrupted` do not. */
  predicate IsTerminal(r: Result)
    ensures IsTerminal(r) <==> !(r.Partial? || r.Interrupted?)
  {
    r.Final? || r.Exception?
  }

  /** A trace of results in which a terminal result can only be the last element. */
  predicate WellFormed(t: seq<Result>)
    ensures WellFormed(t) <==> forall i :: 0 <= i < |t| && IsTerminal(t[i]) ==> t[i + 1..] == []
  {
    forall i :: 0 <= i < |t| - 1 ==> !IsTerminal(t[i])
  }

  /** The same rule stated from the front: a terminal head is allowed only when nothing follows it. */
  predicate ClosedAfterTerminal(t: seq<Result>)
    decreases |t|
  {
    |t| <= 1 || (!IsTerminal(t[0]) && ClosedAfterTerminal(t[1..]))
  }

  /** The number of terminal results in a trace. */
  function TerminalCount(t: seq<Result>): nat
    decreases |t|
  {
    if t == [] then 0
    else (if IsTerminal(t[0]) then 1 else 0) + TerminalCount(t[1..])
  }

  /** The positional rule and the front-to-back rule describe the same traces. */
  lemma {:induction false} WellFormedIffClosed(t: seq<Result>)
    ensures WellFormed(t) <==> ClosedAfterTerminal(t)
    decreases |t|
  {
    if |t| > 1 {
      WellFormedIffClosed(t[1..]);
      if WellFormed(t) {
        assert !IsTerminal(t[0]);
        assert WellFormed(t[1..]) by {
          forall i | 0 <= i < |t[1..]| - 1 ensures !IsTerminal(t[1..][i]) {
            assert t[1..][i] == t[i + 1];
          }
        }
      }
      if ClosedAfterTerminal(t) {
        forall i | 0 <= i < |t| - 1 ensures !IsTerminal(t[i]) {
          if i > 0 {
            assert t[i] == t[1..][i - 1];
          }
        }
      }
    }
  }

  /** A well-formed trace holds at most one terminal result, and when it holds one, it is the last. */
  lemma {:induction false} AtMostOneTerminal(t: seq<Result>)
    requires WellFormed(t)
    ensures TerminalCount(t) <= 1
    ensures TerminalCount(t) == 1 <==> (t != [] && IsTerminal(t[|t| - 1]))
    decreases |t|
  {
    if |t| == 1 {
      assert t[1..] == [];
    } else if |t| > 1 {
      assert WellFormed(t[1..]) by {
        forall i | 0 <= i < |t[1..]| - 1 ensures !IsTerminal(t[1..][i]) {
          assert t[1..][i] == t[i + 1];
        }
      }
      AtMostOneTerminal(t[1..]);
      assert t[1..][|t[1..]| - 1] == t[|t| - 1];
    }
  }

  /** A result may be appended to a well-formed trace exactly when the trace is still open. */
  lemma AppendWellFormed(t: seq<Result>, r: Result)
    ensures WellFormed(t + [r]) <==> WellFormed(t) && (t == [] || !IsTerminal(t[|t| - 1]))
  {
    var u := t + [r];
    forall i | 0 <= i < |t| ensures u[i] == t[i] { }
  }

  /** After a terminal result, no further value keeps the trace well-formed. */
  lemma NothingAfterTerminal(t: seq<Result>, rest: seq<Result>)
    requires t != [] && IsTerminal(t[|t| - 1])
    requires rest != []
    ensures !WellFormed(t + rest)
  {
    assert (t + rest)[|t| - 1] == t[|t| - 1];
  }

  /** Every prefix of a well-formed trace is well-formed: consumers never observe a bad partial trace. */
  lemma PrefixWellFormed(t: seq<Result>, k: nat)
    requires WellFormed(t) && k <= |t|
    ensures WellFormed(t[..k])
  {
    forall i | 0 <= i < k - 1 ensures !IsTerminal(t[..k][i]) {
      assert t[..k][i] == t[i];
    }
  }
}
