/** The `VoiceAssistant` controller: the listening flag driven by the
    recognition events and the microphone button, the error banner, the
    voice cache, the conversation log, and the sentence-by-sentence playback
    of each answer. The browser's recognition and synthesis objects are
    represented by the calls made on them, in order; the platform's answers
    (whether `start()` throws, the voice list, the backend's reply, how
    each utterance ends) are parameters. */
module Assistant {

  import opened Optional
  import opened Text
  import opened Voices
  import opened Turn

  /** A call made on the speech-recognition object. */
  datatype RecognitionCall = Start | Stop

  /** A call made on the speech-synthesis device: `cancel()`, or `speak()`
      of an utterance with its text and voice. */
  datatype SynthesisCall = Cancel | Speak(text: string, voice: Option<Voice>)

  /** How an utterance finishes: its `onend` or its `onerror` handler runs. */
  datatype UtteranceEnd = Ended | Failed

  /** The error alert: its text and whether it is shown. */
  datatype Banner = Banner(text: string, visible: bool)

  /** Everything the controller's methods change, as one value. */
  datatype Session = Session(
    micDisabled: bool,
    isListening: bool,
    voices: seq<Voice>,
    selectedVoice: Option<Voice>,
    banner: Banner,
    conversation: seq<Entry>,
    recognitionCalls: seq<RecognitionCall>,
    synthesisCalls: seq<SynthesisCall>)

  const UNSUPPORTED := "Speech recognition is not supported in this browser."
  const START_FAILURE := "Failed to start listening. Please try again."
  const HIDDEN := Banner("", false)

  // ---------------------------------------------------------------------
  // Playback and turns as functions of the session

  /** The voice an utterance gets: the cached one, or a fresh selection
      from the platform's list when none is cached. */
  function VoiceFor(s: Session, available: seq<Voice>): (v: Option<Voice>)
    ensures v.None? <==> s.selectedVoice.None? && available == []
    ensures v.Some? ==> v == s.selectedVoice || v.value in available
  {
    if s.selectedVoice.Some? then s.selectedVoice else SelectVoice(available)
  }

  /** The session after `speakSentence(sentence)`. */
  function AfterSentence(s: Session, sentence: string, available: seq<Voice>): (r: Session)
    ensures r.micDisabled == s.micDisabled && r.isListening == s.isListening && r.banner == s.banner
    ensures r.conversation == s.conversation && r.recognitionCalls == s.recognitionCalls
    ensures r.selectedVoice == VoiceFor(s, available)
    ensures r.synthesisCalls == s.synthesisCalls + [Cancel, Speak(Clean(sentence), r.selectedVoice)]
  {
    var voice := VoiceFor(s, available);
    s.(voices := if s.selectedVoice.None? then available else s.voices,
       selectedVoice := voice,
       synthesisCalls := s.synthesisCalls + [Cancel, Speak(Clean(sentence), voice)])
  }

  /** The session after speaking `sentences` one after the other. */
  function AfterSentences(s: Session, sentences: seq<string>, available: seq<Voice>): (r: Session)
    ensures r.micDisabled == s.micDisabled && r.isListening == s.isListening && r.banner == s.banner
    ensures r.conversation == s.conversation && r.recognitionCalls == s.recognitionCalls
    ensures |r.synthesisCalls| == |s.synthesisCalls| + 2 * |sentences|
    ensures r.synthesisCalls[..|s.synthesisCalls|] == s.synthesisCalls
    decreases |sentences|
  {
    if sentences == [] then s
    else AfterSentence(AfterSentences(s, sentences[..|sentences| - 1], available), sentences[|sentences| - 1], available)
  }

  lemma AfterSentencesStep(s: Session, sentences: seq<string>, available: seq<Voice>, i: nat)
    requires i < |sentences|
    ensures AfterSentences(s, sentences[..i + 1], available)
            == AfterSentence(AfterSentences(s, sentences[..i], available), sentences[i], available)
  {
    assert sentences[..i + 1][..i] == sentences[..i] && sentences[..i + 1][i] == sentences[i];
  }

  /** The synthesis calls for `sentences` spoken with one voice. */
  function Playback(sentences: seq<string>, voice: Option<Voice>): (calls: seq<SynthesisCall>)
    ensures |calls| == 2 * |sentences|
    decreases |sentences|
  {
    if sentences == [] then []
    else Playback(sentences[..|sentences| - 1], voice) + [Cancel, Speak(Clean(sentences[|sentences| - 1]), voice)]
  }

  /** Playback is one cancel-then-speak pair per sentence, in sentence order. */
  lemma {:induction false} PlaybackAt(sentences: seq<string>, voice: Option<Voice>, k: nat)
    requires k < |sentences|
    ensures Playback(sentences, voice)[2 * k] == Cancel
    ensures Playback(sentences, voice)[2 * k + 1] == Speak(Clean(sentences[k]), voice)
    decreases |sentences|
  {
    if k < |sentences| - 1 {
      var init := sentences[..|sentences| - 1];
      PlaybackAt(init, voice, k);
      assert init[k] == sentences[k];
    }
  }

  /** Speaking a list of sentences selects the voice at most once, then
      issues the playback calls with that voice; an empty list changes nothing. */
  lemma {:induction false} PlaybackEffect(s: Session, sentences: seq<string>, available: seq<Voice>)
    ensures AfterSentences(s, sentences, available) ==
            if sentences == [] then s
            else s.(voices := if s.selectedVoice.None? then available else s.voices,
                    selectedVoice := VoiceFor(s, available),
                    synthesisCalls := s.synthesisCalls + Playback(sentences, VoiceFor(s, available)))
    decreases |sentences|
  {
    if |sentences| > 1 {
      var init := sentences[..|sentences| - 1];
      PlaybackEffect(s, init, available);
      SpeakAfterPlayback(s, AfterSentences(s, init, available), Playback(init, VoiceFor(s, available)),
                         sentences[|sentences| - 1], available);
    } else if |sentences| == 1 {
      assert sentences[..0] == [];
    }
  }

  /** One more sentence after a playback keeps the voice chosen for the first one. */
  lemma SpeakAfterPlayback(s: Session, mid: Session, played: seq<SynthesisCall>, sentence: string, available: seq<Voice>)
    requires mid == s.(voices := if s.selectedVoice.None? then available else s.voices,
                       selectedVoice := VoiceFor(s, available),
                       synthesisCalls := s.synthesisCalls + played)
    ensures AfterSentence(mid, sentence, available)
            == mid.(synthesisCalls := s.synthesisCalls + (played + [Cancel, Speak(Clean(sentence), VoiceFor(s, available))]))
  {
    assert VoiceFor(mid, available) == VoiceFor(s, available);
  }

  /** The session after `processVoiceInput(transcript)` receives `reply`. */
  function AfterTurn(s: Session, transcript: string, reply: Reply, available: seq<Voice>): (r: Session)
    ensures r.micDisabled == s.micDisabled && r.isListening == s.isListening
    ensures r.recognitionCalls == s.recognitionCalls
    ensures |r.synthesisCalls| >= |s.synthesisCalls| && r.synthesisCalls[..|s.synthesisCalls|] == s.synthesisCalls
    ensures r.banner != s.banner ==> Classify(reply).ShowError? && r.banner == Banner(Classify(reply).message, true)
  {
    var logged := s.(conversation := s.conversation + [FormatMessage(User, transcript)]);
    match Classify(reply)
    case ShowError(message) => logged.(banner := Banner(message, true))
    case Answer(text) =>
      AfterSentences(logged.(conversation := logged.conversation + [FormatMessage(Assistant, text)]),
                     Segments(text), available)
  }

  /** A reply with a failing status shows the fixed message, logs only the
      user's words and speaks nothing. */
  lemma ServerFailureTurn(s: Session, transcript: string, body: Body, available: seq<Voice>)
    ensures var t := AfterTurn(s, transcript, HttpReply(false, body), available);
            t.banner == Banner(SERVER_FAILURE, true)
            && t.conversation == s.conversation + [FormatMessage(User, transcript)]
            && t.synthesisCalls == s.synthesisCalls
            && t.isListening == s.isListening
  {
  }

  /** A truthy `error` field is shown as it is and nothing is spoken. */
  lemma ServerErrorTurn(s: Session, transcript: string, error: string, response: string, available: seq<Voice>)
    requires error != ""
    ensures var t := AfterTurn(s, transcript, HttpReply(true, Json(Some(error), response)), available);
            t.banner == Banner(error, true)
            && t.conversation == s.conversation + [FormatMessage(User, transcript)]
            && t.synthesisCalls == s.synthesisCalls
  {
  }

  /** An answer logs the user's words and then the answer, leaves the
      banner alone, and plays the answer's segments in order. */
  lemma AnsweredTurn(s: Session, transcript: string, reply: Reply, available: seq<Voice>)
    requires Classify(reply).Answer?
    ensures var t := AfterTurn(s, transcript, reply, available);
            var text := Classify(reply).text;
            t.conversation == s.conversation + [FormatMessage(User, transcript), FormatMessage(Assistant, text)]
            && t.banner == s.banner
            && t.isListening == s.isListening
            && t.synthesisCalls == s.synthesisCalls + Playback(Segments(text), VoiceFor(s, available))
  {
    var text := Classify(reply).text;
    var user, answer := FormatMessage(User, transcript), FormatMessage(Assistant, text);
    var logged := s.(conversation := s.conversation + [user, answer]);
    assert s.(conversation := s.conversation + [user]).(conversation := s.conversation + [user] + [answer]) == logged;
    PlaybackEffect(logged, Segments(text), available);
  }

  /** Whatever the reply, the user's words are logged first, and one more
      entry follows exactly when there is an answer. */
  lemma TurnLog(s: Session, transcript: string, reply: Reply, available: seq<Voice>)
    ensures var t := AfterTurn(s, transcript, reply, available);
            |t.conversation| == |s.conversation| + (if Classify(reply).Answer? then 2 else 1)
            && t.conversation[..|s.conversation| + 1] == s.conversation + [FormatMessage(User, transcript)]
  {
    if Classify(reply).Answer? {
      AnsweredTurn(s, transcript, reply, available);
    }
  }

  // ---------------------------------------------------------------------
  // The controller

  class VoiceAssistant {

    /** Whether the browser offers `SpeechRecognition`; without it
        `recognition` stays `null`. */
    const recognitionSupported: bool
    var micDisabled: bool
    var isListening: bool
    var voices: seq<Voice>
    var selectedVoice: Option<Voice>
    var errorText: string
    var errorVisible: bool
    var conversation: seq<Entry>
    var recognitionCalls: seq<RecognitionCall>
    var synthesisCalls: seq<SynthesisCall>

    function Snapshot(): Session
      reads this
    {
      Session(micDisabled, isListening, voices, selectedVoice, Banner(errorText, errorVisible),
              conversation, recognitionCalls, synthesisCalls)
    }

    /** Page load: without recognition support the unsupported message is
        shown and the microphone disabled; then the voices are loaded. */
    constructor (supported: bool, available: seq<Voice>)
      ensures recognitionSupported == supported
      ensures Snapshot() == Session(!supported, false, available, SelectVoice(available),
                                    if supported then HIDDEN else Banner(UNSUPPORTED, true), [], [], [])
    {
      recognitionSupported := supported;
      micDisabled, isListening := false, false;
      voices, selectedVoice := [], None;
      errorText, errorVisible := "", false;
      conversation, recognitionCalls, synthesisCalls := [], [], [];
      new;
      if !supported {
        ShowError(UNSUPPORTED);
        micDisabled := true;
      }
      LoadVoices(available);
    }

    /** `loadVoices`, also run on every `voiceschanged` event. */
    method LoadVoices(available: seq<Voice>)
      modifies this
      ensures Snapshot() == old(Snapshot()).(voices := available, selectedVoice := SelectVoice(available))
    {
      voices := available;
      selectedVoice := SelectVoice(available);
    }

    method ShowError(message: string)
      modifies this
      ensures Snapshot() == old(Snapshot()).(banner := Banner(message, true))
    {
      errorText := message;
      errorVisible := true;
    }

    method HideError()
      modifies this
      ensures Snapshot() == old(Snapshot()).(banner := HIDDEN)
    {
      errorVisible := false;
      errorText := "";
    }

    /** The recognition's `onstart` handler. */
    method OnStart()
      modifies this
      ensures Snapshot() == old(Snapshot()).(isListening := true)
    {
      isListening := true;
    }

    /** The recognition's `onend` handler. */
    method OnEnd()
      modifies this
      ensures Snapshot() == old(Snapshot()).(isListening := false)
    {
      isListening := false;
    }

    /** The recognition's `onerror` handler, for the error code `code`. */
    method OnError(code: string)
      modifies this
      ensures Snapshot() == old(Snapshot()).(isListening := false, banner := Banner("Error: " + code, true))
    {
      ShowError("Error: " + code);
      isListening := false;
    }

    /** `startListening`: `accepted` says whether the platform's `start()`
        returns rather than throws. The flag is left to `onstart`. */
    method StartListening(accepted: bool)
      modifies this
      ensures Snapshot() == old(Snapshot()).(
                recognitionCalls := old(recognitionCalls) + (if recognitionSupported then [Start] else []),
                banner := if recognitionSupported && accepted then HIDDEN else Banner(START_FAILURE, true))
    {
      if recognitionSupported {
        recognitionCalls := recognitionCalls + [Start];
        if accepted {
          HideError();
        } else {
          ShowError(START_FAILURE);
        }
      } else {
        // calling start() on a null recognition throws before any call is made
        ShowError(START_FAILURE);
      }
    }

    /** `stopListening`: whatever `stop()` throws is swallowed. */
    method StopListening()
      modifies this
      ensures Snapshot() == old(Snapshot()).(
                recognitionCalls := old(recognitionCalls) + (if recognitionSupported then [Stop] else []))
    {
      if recognitionSupported {
        recognitionCalls := recognitionCalls + [Stop];
      }
    }

    /** `toggleListening`: stop exactly when the flag is set, start otherwise. */
    method ToggleListening(accepted: bool)
      modifies this
      ensures old(isListening) ==> Snapshot() == old(Snapshot()).(
                recognitionCalls := old(recognitionCalls) + (if recognitionSupported then [Stop] else []))
      ensures !old(isListening) ==> Snapshot() == old(Snapshot()).(
                recognitionCalls := old(recognitionCalls) + (if recognitionSupported then [Start] else []),
                banner := if recognitionSupported && accepted then HIDDEN else Banner(START_FAILURE, true))
    {
      if isListening {
        StopListening();
      } else {
        StartListening(accepted);
      }
    }

    /** A click on the microphone button, which a disabled button ignores. */
    method ClickMic(accepted: bool)
      modifies this
      ensures old(micDisabled) ==> Snapshot() == old(Snapshot())
      ensures !old(micDisabled) && old(isListening) ==> Snapshot() == old(Snapshot()).(
                recognitionCalls := old(recognitionCalls) + (if recognitionSupported then [Stop] else []))
      ensures !old(micDisabled) && !old(isListening) ==> Snapshot() == old(Snapshot()).(
                recognitionCalls := old(recognitionCalls) + (if recognitionSupported then [Start] else []),
                banner := if recognitionSupported && accepted then HIDDEN else Banner(START_FAILURE, true))
    {
      if !micDisabled {
        ToggleListening(accepted);
      }
    }

    /** `addMessageToConversation` */
    method AddMessage(role: Role, message: string)
      modifies this
      ensures Snapshot() == old(Snapshot()).(conversation := old(conversation) + [FormatMessage(role, message)])
    {
      conversation := conversation + [FormatMessage(role, message)];
    }

    /** `speakSentence`: cancel, clean the text, load the voices if none is
        selected, and speak with the selected voice. */
    method SpeakSentence(sentence: string, available: seq<Voice>)
      modifies this
      ensures Snapshot() == AfterSentence(old(Snapshot()), sentence, available)
    {
      ghost var after := AfterSentence(Snapshot(), sentence, available);
      synthesisCalls := synthesisCalls + [Cancel];
      var cleaned := Clean(sentence);
      if selectedVoice.None? {
        LoadVoices(available);
      }
      synthesisCalls := synthesisCalls + [Speak(cleaned, selectedVoice)];
      assert voices == after.voices && selectedVoice == after.selectedVoice;
      assert synthesisCalls == after.synthesisCalls;
    }

    /** `speakResponse`: each segment in turn, waiting until its utterance
        ends; `ending(i)` says how the i-th utterance ends, and either way
        the next segment follows. */
    method SpeakResponse(text: string, available: seq<Voice>, ending: nat -> UtteranceEnd)
      modifies this
      ensures Snapshot() == AfterSentences(old(Snapshot()), Segments(text), available)
    {
      var sentences := Segments(text);
      for i := 0 to |sentences|
        invariant Snapshot() == AfterSentences(old(Snapshot()), sentences[..i], available)
      {
        SpeakSentence(sentences[i], available);
        match ending(i) {
          case Ended =>
          case Failed =>   // logged to the console, then resolved like an end
        }
        AfterSentencesStep(old(Snapshot()), sentences, available, i);
      }
      assert sentences[..|sentences|] == sentences;
    }

    /** `processVoiceInput` for a recognised `transcript`, with the reply of
        the backend, the platform's voice list and the utterance endings. */
    method ProcessVoiceInput(transcript: string, reply: Reply, available: seq<Voice>, ending: nat -> UtteranceEnd)
      modifies this
      ensures Snapshot() == AfterTurn(old(Snapshot()), transcript, reply, available)
    {
      AddMessage(User, transcript);
      match reply {
        case NetworkFailure(reason) =>
          ShowError(reason);
        case HttpReply(ok, body) =>
          if !ok {
            ShowError(SERVER_FAILURE);
          } else {
            match body {
              case Unparsable(reason) =>
                ShowError(reason);
              case Json(error, response) =>
                if IsTruthy(error) {
                  ShowError(error.value);
                } else {
                  AddMessage(Assistant, response);
                  SpeakResponse(response, available, ending);
                }
            }
          }
      }
    }
  }
}
