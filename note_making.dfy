/**
 * The note-making page: one button toggles recording, which also runs a
 * seconds counter driven by a 1-second interval; another stops recording
 * and resets the counter.
 *
 * Each `setInterval` handle that is still live adds one second per tick.
 * The page keeps only the latest handle in a ref, so the model counts the
 * live handles and records whether the ref's handle is one of them:
 * starting the timer twice without pausing would leave an earlier handle
 * running that no later `clearInterval` reaches.
 */
module NoteMaking {

  class Recorder {
    /** Whether the browser offers `webkitSpeechRecognition` (the ref is set once on mount). */
    const hasRecognizer: bool
    var isListening: bool
    /** Elapsed seconds shown on the page. */
    var timer: nat
    /** Number of `setInterval` handles still running. */
    var liveIntervals: nat
    /** Whether the handle held in the interval ref is still running. */
    var refLive: bool

    /** Exactly one interval runs, the one the ref holds, exactly while recording. */
    predicate Valid()
      reads this
    {
      liveIntervals == (if isListening then 1 else 0)
      && refLive == isListening
      && (isListening ==> hasRecognizer)
    }

    constructor (hasRecognizer: bool)
      ensures this.hasRecognizer == hasRecognizer
      ensures !isListening && timer == 0 && liveIntervals == 0 && !refLive
      ensures Valid()
    {
      this.hasRecognizer := hasRecognizer;
      isListening := false;
      timer := 0;
      liveIntervals := 0;
      refLive := false;
    }

    /** `startTimer`: a new interval whose handle replaces the one in the ref. */
    method StartTimer()
      modifies this
      ensures liveIntervals == old(liveIntervals) + 1 && refLive
      ensures isListening == old(isListening) && timer == old(timer)
    {
      liveIntervals := liveIntervals + 1;
      refLive := true;
    }

    /** `pauseTimer`: clears the interval the ref holds; the elapsed seconds are kept. */
    method PauseTimer()
      modifies this
      ensures !refLive
      ensures liveIntervals == old(liveIntervals) - (if old(refLive) && old(liveIntervals) > 0 then 1 else 0)
      ensures isListening == old(isListening) && timer == old(timer)
    {
      if refLive && liveIntervals > 0 {
        liveIntervals := liveIntervals - 1;
      }
      refLive := false;
    }

    /** `resetTimer`: clears the interval the ref holds and sets the counter to 0. */
    method ResetTimer()
      modifies this
      ensures !refLive && timer == 0
      ensures liveIntervals == old(liveIntervals) - (if old(refLive) && old(liveIntervals) > 0 then 1 else 0)
      ensures isListening == old(isListening)
    {
      PauseTimer();
      timer := 0;
    }

    /** `startRecording`: with a recognizer, starts it, sets listening and starts the timer; otherwise nothing. */
    method StartRecording()
      modifies this
      ensures hasRecognizer ==> isListening && refLive && liveIntervals == old(liveIntervals) + 1
      ensures !hasRecognizer ==> isListening == old(isListening) && refLive == old(refLive)
                                 && liveIntervals == old(liveIntervals)
      ensures timer == old(timer)
    {
      if hasRecognizer {
        isListening := true;
        StartTimer();
      }
    }

    /** `pauseRecording`: with a recognizer, stops it, clears listening and pauses the timer; otherwise nothing. */
    method PauseRecording()
      modifies this
      ensures hasRecognizer ==> !isListening && !refLive
                                && liveIntervals == old(liveIntervals) - (if old(refLive) && old(liveIntervals) > 0 then 1 else 0)
      ensures !hasRecognizer ==> isListening == old(isListening) && refLive == old(refLive)
                                 && liveIntervals == old(liveIntervals)
      ensures timer == old(timer)
    {
      if hasRecognizer {
        isListening := false;
        PauseTimer();
      }
    }

    /** `toggleRecording`: flips listening (when a recognizer exists); the counter keeps its value. */
    method ToggleRecording()
      requires Valid()
      modifies this
      ensures Valid()
      ensures hasRecognizer ==> isListening == !old(isListening)
      ensures !hasRecognizer ==> isListening == old(isListening) && liveIntervals == old(liveIntervals)
      ensures timer == old(timer)
    {
      if isListening {
        PauseRecording();
      } else {
        StartRecording();
      }
    }

    /** One second elapses on a running interval; every live handle counts, so ticks happen only while one exists. */
    method Tick()
      requires liveIntervals > 0
      modifies this
      ensures timer == old(timer) + 1
      ensures isListening == old(isListening) && liveIntervals == old(liveIntervals) && refLive == old(refLive)
    {
      timer := timer + 1;
    }

    /** The Stop button: pause recording, then reset the timer, whether or not a recognizer exists. */
    method Stop()
      requires Valid()
      modifies this
      ensures Valid()
      ensures !isListening && timer == 0 && liveIntervals == 0 && !refLive
    {
      PauseRecording();
      ResetTimer();
    }
  }

  /** Recording from a fresh page: two toggles count the seconds ticked in between and stop the counter. */
  method RecordSession(ticks: nat) returns (elapsed: nat, listening: bool)
    ensures elapsed == ticks && !listening
  {
    var recorder := new Recorder(true);
    recorder.ToggleRecording();
    var i := 0;
    while i < ticks
      invariant 0 <= i <= ticks
      invariant recorder.Valid() && recorder.isListening && recorder.timer == i
    {
      recorder.Tick();
      i := i + 1;
    }
    recorder.ToggleRecording();
    elapsed, listening := recorder.timer, recorder.isListening;
  }
}
