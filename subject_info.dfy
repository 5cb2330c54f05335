/**
 * The spoken dialogue page for blind learners. The page reads a subject
 * description aloud, then listens; a final recognition result arms a
 * silence timer, and when the timer fires the utterance is sent as a
 * question together with the conversation so far. The answer is added
 * to the history and spoken, after which the page listens again.
 *
 * Browser callbacks become methods of `Conversation`. The asynchronous
 * `handleQuerySubmission` is split at its awaits: `HandleQuerySubmission`
 * runs up to the request, `AnswerReceived` or `AnswerFailed` resumes when
 * the request settles, and `UtteranceEnded` resumes after the answer has
 * been spoken. `flight` records which of these continuations is pending.
 *
 * The handlers are created once, on the first render, so in the running
 * page the `isListening` read by the recognizer's `onend` and the history
 * passed to the request are the values of that render. The model follows
 * the code as written instead: it reads the current `isListening`, and it
 * sends the history as it was just before the user entry was appended.
 */
module SubjectInfo {
  import opened Wrappers
  import opened Text

  /** The `type` of a history entry. */
  datatype Speaker = System | User | Ai

  datatype Entry = Entry(kind: Speaker, text: string)

  /** One entry of the history as the request sends it. */
  datatype RequestItem = RequestItem(role: string, text: string)

  /** The body posted to `/api/ask_more`. */
  datatype AskMore = AskMore(conversationHistory: seq<RequestItem>, query: string)

  /** A recognition result: whether it is final and its first alternative's transcript. */
  datatype RecognitionResult = RecognitionResult(isFinal: bool, transcript: string)

  /** Which continuation of the submission is pending. */
  datatype Flight = NoFlight | AwaitingAnswer(query: string) | AwaitingPlayback

  /** Which utterance the speech engine is speaking; each kind has its own continuation. */
  datatype Playback = Intro | Answer | Goodbye

  const GoodbyeMessage: string := "Goodbye! Thank you for chatting."

  function RoleName(kind: Speaker): (r: string)
    ensures r in {"system", "user", "ai"}
  {
    match kind
    case System => "system"
    case User => "user"
    case Ai => "ai"
  }

  /** Different speakers have different role names. */
  lemma RoleNameInjective(a: Speaker, b: Speaker)
    ensures RoleName(a) == RoleName(b) ==> a == b
  {
  }

  /** The history as `askMore` formats it: same length and order, `role` taken from `type`, text unchanged. */
  function RequestHistory(history: seq<Entry>): (r: seq<RequestItem>)
    ensures |r| == |history|
    ensures forall i :: 0 <= i < |history| ==>
              r[i].role == RoleName(history[i].kind) && r[i].text == history[i].text
  {
    if history == [] then []
    else RequestHistory(history[..|history| - 1]) + [RequestItem(RoleName(history[|history| - 1].kind), history[|history| - 1].text)]
  }

  /** Formatting commutes with appending entries. */
  lemma RequestHistoryAppend(a: seq<Entry>, b: seq<Entry>)
    ensures RequestHistory(a + b) == RequestHistory(a) + RequestHistory(b)
  {
    var l, r := RequestHistory(a + b), RequestHistory(a) + RequestHistory(b);
    assert |l| == |r|;
    forall i | 0 <= i < |l| ensures l[i] == r[i] {
      if i < |a| {
        assert (a + b)[i] == a[i];
      } else {
        assert (a + b)[i] == b[i - |a|];
      }
    }
  }

  /** Formatting loses nothing: the history can be recovered from what is sent. */
  lemma RequestHistoryInjective(a: seq<Entry>, b: seq<Entry>)
    requires RequestHistory(a) == RequestHistory(b)
    ensures a == b
  {
    var ra, rb := RequestHistory(a), RequestHistory(b);
    assert |a| == |b|;
    forall i | 0 <= i < |a| ensures a[i] == b[i] {
      assert ra[i] == rb[i];
      RoleNameInjective(a[i].kind, b[i].kind);
    }
  }

  /** The transcripts of the final results of `results`, concatenated in order. */
  function Finals(results: seq<RecognitionResult>): string {
    if results == [] then ""
    else
      var last := results[|results| - 1];
      Finals(results[..|results| - 1]) + (if last.isFinal then last.transcript else "")
  }

  /** `Finals` distributes over concatenation. */
  lemma {:induction false} FinalsAppend(a: seq<RecognitionResult>, b: seq<RecognitionResult>)
    ensures Finals(a + b) == Finals(a) + Finals(b)
    decreases |b|
  {
    if b == [] {
      assert a + b == a;
    } else {
      var b0 := b[..|b| - 1];
      assert (a + b)[..|a + b| - 1] == a + b0;
      FinalsAppend(a, b0);
    }
  }

  /** A single result contributes its transcript exactly when it is final. */
  lemma FinalsOfOne(r: RecognitionResult)
    ensures Finals([r]) == (if r.isFinal then r.transcript else "")
  {
    assert [r][..0] == [];
  }

  /** An interim result contributes nothing, wherever it sits. */
  lemma FinalsSkipsInterim(a: seq<RecognitionResult>, r: RecognitionResult, b: seq<RecognitionResult>)
    requires !r.isFinal
    ensures Finals(a + [r] + b) == Finals(a + b)
  {
    FinalsAppend(a + [r], b);
    FinalsAppend(a, [r]);
    FinalsOfOne(r);
    FinalsAppend(a, b);
  }

  /** The text an `onresult` event collects: the final results from `resultIndex` on. */
  function FinalTranscript(results: seq<RecognitionResult>, resultIndex: nat): string {
    if resultIndex >= |results| then "" else Finals(results[resultIndex..])
  }

  /** Whether an answer arrived: a 2xx status whose JSON body parsed. */
  function AnswerOf(status: int, info: Option<string>): (r: Option<string>)
    ensures r.Some? <==> 200 <= status <= 299 && info.Some?
    ensures r.Some? ==> r == info
  {
    if 200 <= status <= 299 then info else None
  }

  class Conversation {
    /** Whether the browser offers `webkitSpeechRecognition`. */
    const hasRecognizer: bool
    /** The subject description the page was opened with ("" when absent). */
    const description: string

    var isPlaying: bool
    var isListening: bool
    /** `isProcessingRef`, the guard against overlapping submissions. */
    var isProcessing: bool
    /** The armed silence timer, holding the text it will submit. */
    var silenceTimer: Option<string>
    var transcript: string
    var history: seq<Entry>
    /** Whether the recognizer is running. */
    var recognizing: bool
    var flight: Flight
    /** The utterance being spoken, until it ends or is cancelled. */
    var current: Option<Playback>
    /** Every text handed to the speech engine, in order. */
    var spoken: seq<string>

    predicate Valid()
      reads this
    {
      (isProcessing <==> !flight.NoFlight?)
      && (recognizing ==> hasRecognizer)
      && (current == Some(Answer) ==> flight.AwaitingPlayback?)
    }

    constructor (hasRecognizer: bool, description: string)
      ensures this.hasRecognizer == hasRecognizer && this.description == description
      ensures !isPlaying && !isListening && !isProcessing && !recognizing
      ensures silenceTimer == None && transcript == "" && history == []
      ensures flight == NoFlight && current == None && spoken == []
      ensures Valid()
    {
      this.hasRecognizer := hasRecognizer;
      this.description := description;
      isPlaying, isListening, isProcessing, recognizing := false, false, false, false;
      silenceTimer, transcript, history := None, "", [];
      flight, current, spoken := NoFlight, None, [];
    }

    /** The seeding effect: a non-empty description becomes the system entry of an empty history. */
    method SeedHistory()
      requires Valid()
      modifies this`history
      ensures Valid()
      ensures description != "" && old(history) == [] ==> history == [Entry(System, description)]
      ensures description == "" || old(history) != [] ==> history == old(history)
    {
      if description != "" && history == [] {
        history := [Entry(System, description)];
      }
    }

    /** Speaks `text` as `playTextToSpeech` does: whatever was being spoken is cancelled first. */
    method Speak(text: string, kind: Playback)
      modifies this`current, this`spoken
      ensures current == Some(kind) && spoken == old(spoken) + [text]
    {
      current := Some(kind);
      spoken := spoken + [text];
    }

    /** The intro effect: a non-empty description is read aloud; listening starts when it ends. */
    method SpeakDescription()
      requires Valid()
      modifies this`current, this`spoken
      ensures Valid()
      ensures description != "" ==> current == Some(Intro) && spoken == old(spoken) + [description]
      ensures description == "" ==> current == old(current) && spoken == old(spoken)
    {
      if description != "" {
        Speak(description, Intro);
      }
    }

    /** `onresult`: collects the final transcripts from `resultIndex` on; a non-blank text re-arms the timer and is displayed. */
    method OnResult(results: seq<RecognitionResult>, resultIndex: nat)
      requires Valid()
      modifies this`silenceTimer, this`transcript
      ensures Valid()
      ensures var text := FinalTranscript(results, resultIndex);
              if !AllIn(text, JsWhitespace) then
                silenceTimer == Some(text) && transcript == text
              else
                silenceTimer == old(silenceTimer) && transcript == old(transcript)
    {
      var finalTranscript := "";
      var i := resultIndex;
      while i < |results|
        invariant resultIndex <= i
        invariant i > resultIndex ==> i <= |results| && finalTranscript == Finals(results[resultIndex..i])
        invariant i == resultIndex ==> finalTranscript == ""
        invariant silenceTimer == old(silenceTimer) && transcript == old(transcript)
        decreases |results| - i
      {
        if i == resultIndex {
          assert results[resultIndex..i + 1] == [results[i]];
          FinalsOfOne(results[i]);
        } else {
          assert results[resultIndex..i + 1][..i - resultIndex] == results[resultIndex..i];
        }
        if results[i].isFinal {
          finalTranscript := finalTranscript + results[i].transcript;
        }
        i := i + 1;
      }
      if resultIndex < |results| {
        assert results[resultIndex..i] == results[resultIndex..];
      }
      assert finalTranscript == FinalTranscript(results, resultIndex);
      if Trim(finalTranscript, JsWhitespace) != "" {
        silenceTimer := Some(finalTranscript);
        transcript := finalTranscript;
      }
    }

    /** `handleQuerySubmission` up to the request; a no-op while the guard is set. */
    method HandleQuerySubmission(query: string) returns (request: Option<AskMore>)
      requires Valid()
      modifies this`isProcessing, this`isListening, this`recognizing, this`silenceTimer,
               this`transcript, this`history, this`flight
      ensures Valid()
      ensures old(isProcessing) ==>
                request == None
                && isProcessing && isListening == old(isListening) && recognizing == old(recognizing)
                && silenceTimer == old(silenceTimer) && transcript == old(transcript)
                && history == old(history) && flight == old(flight)
      ensures !old(isProcessing) ==>
                request == Some(AskMore(RequestHistory(old(history)), query))
                && isProcessing && !isListening && !recognizing
                && silenceTimer == None && transcript == ""
                && history == old(history) + [Entry(User, query)]
                && flight == AwaitingAnswer(query)
    {
      if isProcessing {
        return None;
      }
      isProcessing := true;
      isListening := false;
      recognizing := false;
      silenceTimer := None;
      transcript := "";
      // The request is built from the history as read before the append below takes effect.
      request := Some(AskMore(RequestHistory(history), query));
      history := history + [Entry(User, query)];
      flight := AwaitingAnswer(query);
    }

    /** The silence timer fires: its text is submitted unless the guard is set, in which case it is dropped. */
    method TimerFires() returns (request: Option<AskMore>)
      requires Valid()
      modifies this`isProcessing, this`isListening, this`recognizing, this`silenceTimer,
               this`transcript, this`history, this`flight
      ensures Valid()
      ensures silenceTimer == None
      ensures request.Some? <==> old(silenceTimer).Some? && !old(isProcessing)
      ensures request.Some? ==>
                request.value == AskMore(RequestHistory(old(history)), old(silenceTimer).value)
                && history == old(history) + [Entry(User, old(silenceTimer).value)]
                && flight == AwaitingAnswer(old(silenceTimer).value)
                && isProcessing && !isListening && !recognizing && transcript == ""
      ensures request.None? ==>
                history == old(history) && flight == old(flight)
                && isProcessing == old(isProcessing) && isListening == old(isListening)
                && recognizing == old(recognizing) && transcript == old(transcript)
    {
      request := None;
      match silenceTimer
      case None =>
      case Some(text) =>
        silenceTimer := None;
        if !isProcessing {
          request := HandleQuerySubmission(text);
        }
    }

    /** The request succeeded: the answer is recorded as an `ai` entry and spoken. */
    method AnswerReceived(info: string)
      requires Valid() && flight.AwaitingAnswer?
      modifies this`history, this`current, this`spoken, this`flight
      ensures Valid()
      ensures history == old(history) + [Entry(Ai, info)]
      ensures current == Some(Answer) && spoken == old(spoken) + [info]
      ensures flight == AwaitingPlayback
    {
      history := history + [Entry(Ai, info)];
      flight := AwaitingPlayback;
      Speak(info, Answer);
    }

    /** The request failed (a non-2xx status or a fetch or JSON error): only the guard is cleared. */
    method AnswerFailed()
      requires Valid() && flight.AwaitingAnswer?
      modifies this`isProcessing, this`flight
      ensures Valid()
      ensures !isProcessing && flight == NoFlight
    {
      isProcessing := false;
      flight := NoFlight;
    }

    /** The request settled with `status` and, when its body parsed, the answer `info`. */
    method AnswerArrived(status: int, info: Option<string>)
      requires Valid() && flight.AwaitingAnswer?
      modifies this`isProcessing, this`history, this`current, this`spoken, this`flight
      ensures Valid()
      ensures AnswerOf(status, info).Some? ==>
                history == old(history) + [Entry(Ai, info.value)] && spoken == old(spoken) + [info.value]
                && current == Some(Answer) && isProcessing && flight == AwaitingPlayback
      ensures AnswerOf(status, info).None? ==>
                history == old(history) && spoken == old(spoken) && current == old(current)
                && !isProcessing && flight == NoFlight
    {
      match AnswerOf(status, info)
      case Some(text) => AnswerReceived(text);
      case None => AnswerFailed();
    }

    /** `onstart` of an intro or answer utterance: playing, not listening, recognizer stopped. */
    method UtteranceStarted()
      requires Valid()
      modifies this`isPlaying, this`isListening, this`recognizing
      ensures Valid()
      ensures current == Some(Intro) || current == Some(Answer) ==> isPlaying && !isListening && !recognizing
      ensures current.None? || current == Some(Goodbye) ==>
                isPlaying == old(isPlaying) && isListening == old(isListening) && recognizing == old(recognizing)
    {
      if current == Some(Intro) || current == Some(Answer) {
        isPlaying := true;
        isListening := false;
        recognizing := false;
      }
    }

    /**
     * `onend` of the current utterance. After the intro, and after an answer,
     * listening resumes; after an answer the guard is also cleared. The
     * goodbye utterance has no handlers.
     */
    method UtteranceEnded()
      requires Valid()
      modifies this`isPlaying, this`isListening, this`recognizing, this`isProcessing, this`flight, this`current
      ensures Valid()
      ensures old(current) == Some(Intro) ==>
                !isPlaying && isListening && recognizing == hasRecognizer && current == None
                && isProcessing == old(isProcessing) && flight == old(flight)
      ensures old(current) == Some(Answer) ==>
                !isPlaying && isListening && recognizing == hasRecognizer && current == None
                && !isProcessing && flight == NoFlight
      ensures old(current) == Some(Goodbye) ==>
                current == None && isPlaying == old(isPlaying) && isListening == old(isListening)
                && recognizing == old(recognizing) && isProcessing == old(isProcessing) && flight == old(flight)
      ensures old(current).None? ==>
                current == None && isPlaying == old(isPlaying) && isListening == old(isListening)
                && recognizing == old(recognizing) && isProcessing == old(isProcessing) && flight == old(flight)
    {
      match current
      case None =>
      case Some(kind) =>
        current := None;
        if kind != Goodbye {
          isPlaying := false;
          isListening := true;
          recognizing := hasRecognizer;
          if kind == Answer {
            isProcessing := false;
            flight := NoFlight;
          }
        }
    }

    /** `onerror` of the recognizer. */
    method RecognitionError()
      requires Valid()
      modifies this`isListening
      ensures Valid()
      ensures !isListening
    {
      isListening := false;
    }

    /** `onend` of the recognizer: it restarts itself when `isListening` holds. */
    method RecognitionEnded()
      requires Valid()
      modifies this`recognizing
      ensures Valid()
      ensures recognizing == (hasRecognizer && isListening)
    {
      recognizing := hasRecognizer && isListening;
    }

    /**
     * `handleStartListening`, the Start Mic button: turns listening on and clears
     * the transcript, or turns it off; without a recognizer it cannot turn it off.
     */
    method ToggleListening()
      requires Valid()
      modifies this`isListening, this`transcript, this`recognizing
      ensures Valid()
      ensures !old(isListening) ==> isListening && transcript == "" && recognizing == (hasRecognizer || old(recognizing))
      ensures old(isListening) && hasRecognizer ==> !isListening && !recognizing && transcript == old(transcript)
      ensures old(isListening) && !hasRecognizer ==> isListening && !recognizing && transcript == old(transcript)
    {
      if !isListening {
        isListening := true;
        transcript := "";
        if hasRecognizer {
          recognizing := true;
        }
      } else if hasRecognizer {
        isListening := false;
        recognizing := false;
      }
    }

    /** `handleStopAudio`: speech is cancelled and listening resumes; the guard is left as it is. */
    method StopAudio()
      requires Valid()
      modifies this`current, this`isPlaying, this`isListening, this`recognizing
      ensures Valid()
      ensures current == None && !isPlaying && isListening
      ensures recognizing == (hasRecognizer || old(recognizing))
    {
      current := None;
      isPlaying := false;
      isListening := true;
      if hasRecognizer {
        recognizing := true;
      }
    }

    /**
     * `handleQuitConversation`: stops speech and recognition, empties the
     * history and the transcript, and says goodbye. The silence timer and
     * the guard are not touched.
     */
    method Quit()
      requires Valid()
      modifies this`current, this`spoken, this`recognizing, this`isPlaying, this`isListening,
               this`history, this`transcript
      ensures Valid()
      ensures !isPlaying && !isListening && !recognizing && history == [] && transcript == ""
      ensures current == Some(Goodbye) && spoken == old(spoken) + [GoodbyeMessage]
    {
      current := None;
      recognizing := false;
      isPlaying := false;
      isListening := false;
      history := [];
      transcript := "";
      spoken := spoken + [GoodbyeMessage];
      current := Some(Goodbye);
    }
  }

  /** A fresh page once the description has been read aloud. */
  method OpenPage(description: string) returns (page: Conversation)
    requires description != ""
    ensures fresh(page) && page.Valid() && page.hasRecognizer
    ensures page.history == [Entry(System, description)] && page.spoken == [description]
    ensures page.flight == NoFlight && !page.isProcessing && page.current == None
    ensures page.silenceTimer == None
  {
    page := new Conversation(true, description);
    page.SeedHistory();
    page.SpeakDescription();
    page.UtteranceStarted();
    page.UtteranceEnded();
  }

  /** The user says `question` in one final result: the timer is armed with it and nothing else changes. */
  method Listen(page: Conversation, question: string)
    requires page.Valid() && !AllIn(question, JsWhitespace)
    modifies page
    ensures page.Valid() && page.silenceTimer == Some(question) && page.transcript == question
    ensures page.history == old(page.history) && page.spoken == old(page.spoken)
    ensures page.flight == old(page.flight) && page.current == old(page.current)
  {
    var results := [RecognitionResult(true, question)];
    assert results[0..] == results;
    FinalsOfOne(results[0]);
    assert FinalTranscript(results, 0) == question;
    page.OnResult(results, 0);
  }

  /** With a timer armed and nothing in flight: the timer fires, the answer arrives and is spoken. */
  method FinishTurn(page: Conversation, answer: string) returns (request: Option<AskMore>)
    requires page.Valid() && page.silenceTimer.Some? && page.flight == NoFlight && page.current == None
    modifies page
    ensures request == Some(AskMore(RequestHistory(old(page.history)), old(page.silenceTimer).value))
    ensures page.history == old(page.history) + [Entry(User, old(page.silenceTimer).value), Entry(Ai, answer)]
    ensures page.spoken == old(page.spoken) + [answer]
    ensures page.isListening && !page.isProcessing && page.flight == NoFlight
  {
    request := page.TimerFires();
    page.AnswerArrived(200, Some(answer));
    page.UtteranceStarted();
    page.UtteranceEnded();
  }

  /**
   * One complete turn from a fresh page: the description is read, the user's
   * final utterance arms the timer, the timer submits it, the answer is spoken
   * and listening resumes.
   */
  method OneTurn(description: string, question: string, answer: string)
      returns (request: Option<AskMore>, history: seq<Entry>, spoken: seq<string>, listening: bool, processing: bool)
    requires description != "" && !AllIn(question, JsWhitespace)
    ensures request == Some(AskMore([RequestItem("system", description)], question))
    ensures history == [Entry(System, description), Entry(User, question), Entry(Ai, answer)]
    ensures spoken == [description, answer]
    ensures listening && !processing
  {
    var page := OpenPage(description);
    Listen(page, question);
    assert RequestHistory(page.history) == [RequestItem("system", description)];
    request := FinishTurn(page, answer);
    history, spoken, listening, processing := page.history, page.spoken, page.isListening, page.isProcessing;
  }
}
