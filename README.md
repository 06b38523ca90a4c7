# Voice assistant controller

A model of the browser-side `VoiceAssistant` controller of a small voice
assistant web page. The user clicks a microphone button. The browser's
speech recognition turns what they say into a transcript. The transcript is
logged and sent to the backend (`POST /process-voice`). The reply is logged
and read aloud sentence by sentence by the browser's speech synthesis.

The model is split into these modules:

- `Text` (`text.dfy`): pure string work.
  - `Split` models `text.split(/[.!?]+/)`.
  - `Segments` adds the filter that drops blank pieces.
  - `Clean` models the clean-up chain of `speakSentence`: `trim()`, then runs of `!`/`?` become `.`, runs of `.` become `.`, and runs of whitespace become one space.
  - Whitespace is the ECMAScript `\s` set.
  - `Collapse(s, k)` models the regular-expression replacement `replace(/[k]+/g, r)`.
- `Voices` (`voices.dfy`): the three-tier voice waterfall of `loadVoices` (pure).
  - `Includes` is JavaScript's case-sensitive `String.prototype.includes`.
- `Turn` (`turn.dfy`): how a turn is logged and how a reply is classified (pure).
  - `FormatMessage` builds the log paragraph that `addMessageToConversation` appends.
  - `Classify` gives the error or answer that `processVoiceInput` derives from the reply of `fetch`.
- `Assistant` (`assistant.dfy`): the controller itself, as a `class` whose methods update its fields (imperative).
  - The listening flag, the disabled state of the microphone, the voice cache and the error banner are fields.
  - The conversation log is a field, and so are the calls made on the recognition and synthesis objects, recorded in order.
  - `Snapshot()` gathers these fields into a `Session` value. Every method states its new `Snapshot()` in terms of the old one.
  - The sentence loop of `speakResponse` and the dispatch of `processVoiceInput` are proved against the specification functions `AfterSentences` and `AfterTurn`.
  - The lemmas `PlaybackEffect`, `AnsweredTurn` and friends prove what those functions promise.
- `Scenarios` (`scenarios.dfy`): worked cases.
  - The answer "Hello there! How are you? Fine." is spoken as three cancel-then-speak pairs.
  - Two voice lists show the tiers at work.

The platform's answers are parameters of the methods:

| parameter | what it stands for |
|---|---|
| `supported` | whether `SpeechRecognition` exists |
| `accepted` | whether `recognition.start()` returns or throws |
| `available` | the list `getVoices()` returns |
| `reply` | the result of `fetch` and of parsing the JSON body |
| `ending(i)` | whether the i-th utterance fires `onend` or `onerror` |

The recognition `onresult` handler is modelled by `ProcessVoiceInput`, with the transcript as its argument.

The split on `/[.!?]+/` removes the terminators before the clean-up runs. So no spoken segment contains a `.`, `!` or `?`, and the clean-up's punctuation steps never change a segment (`Text.CleanSegment`, `Scenarios.ReplyPlayback`).

## Model

| member | source | states |
|---|---|---|
| Text.SkipSpaces | static/js/voice_assistant.js:159 | the position returned is the first one at or after the start that holds no whitespace: everything skipped is whitespace |
| Text.BackOverSpaces | static/js/voice_assistant.js:159 | the position returned is just past the last non-whitespace character before the end: everything passed over is whitespace |
| Text.Trim | static/js/voice_assistant.js:159 | `trim()` is the input minus its edge whitespace: the result is the stretch that starts at the first non-whitespace position, with only whitespace before and after it; it is empty exactly when the input is all whitespace, and otherwise starts and ends with a non-whitespace character |
| Text.TrimNoTerminator | static/js/voice_assistant.js:159 | trimming text without `.`, `!` or `?` yields text without them |
| Text.TrimUnchanged | static/js/voice_assistant.js:159 | text with no whitespace at either end is its own trim |
| Text.TrimWords | static/js/voice_assistant.js:159 | trimming keeps every character that is neither whitespace nor a terminator, in order |
| Text.WordsInfix | static/js/voice_assistant.js:159 | a stretch of the text with only whitespace around it holds all of the text's non-whitespace, non-terminator characters, in order |
| Text.Collapse | static/js/voice_assistant.js:160-162 | a global run replacement never lengthens the text and empties only empty text |
| Text.CollapseEnds | static/js/voice_assistant.js:160-162 | the result starts with the first input character rewritten and ends with the last one rewritten |
| Text.CollapseChars | static/js/voice_assistant.js:160-162 | every character left after a run replacement is the replacement or an input character outside the class |
| Text.CollapseLeavesNoRun | static/js/voice_assistant.js:161-162 | when the replacement belongs to the class, no two neighbouring characters of the class remain |
| Text.CollapseKeepsApart | static/js/voice_assistant.js:160-162 | collapsing one class does not make two characters of a disjoint class neighbours |
| Text.CollapseFixpoint | static/js/voice_assistant.js:160-162 | text already in collapsed form is unchanged by the replacement |
| Text.CollapseKeepsOut | static/js/voice_assistant.js:160-162 | a replacement whose output char is outside class `q` introduces no `q` characters |
| Text.CollapseOutside | static/js/voice_assistant.js:160-162 | every character outside the class (and other than the replacement) survives the replacement, in order and with its multiplicity |
| Text.CollapseRun | static/js/voice_assistant.js:160-162 | a non-empty run of class characters becomes exactly one replacement character |
| Text.CollapseSingle | static/js/voice_assistant.js:160-162 | a single character becomes its rewrite |
| Text.CollapseDrop | static/js/voice_assistant.js:160-162 | a class character followed by another class character contributes nothing |
| Text.CollapseKeep | static/js/voice_assistant.js:160-162 | any other first character is kept, rewritten, in front of the collapse of the rest |
| Text.CollapseAppend | static/js/voice_assistant.js:160-162 | text cut where no run of the class is split collapses piece by piece: the result is the collapse of the first piece followed by the collapse of the second |
| Text.CollapseAppendOne | static/js/voice_assistant.js:160-162 | the append law for a first piece of one character |
| Text.CollapseAppendStep | static/js/voice_assistant.js:160-162 | the append law carries over from a piece to the same piece with one more character in front |
| Text.CollapseWords | static/js/voice_assistant.js:160-162 | each replacement keeps every character that is neither whitespace nor a terminator, in order |
| Text.Clean | static/js/voice_assistant.js:159-162 | the spoken text is never longer than the sentence and is empty exactly when the sentence is whitespace only |
| Text.CleanTrimmed | static/js/voice_assistant.js:159-162 | the cleaned sentence has no whitespace at either end |
| Text.CleanNoBangs | static/js/voice_assistant.js:159-162 | no `!` or `?` survives the clean-up |
| Text.CleanNoDoubleDot | static/js/voice_assistant.js:159-162 | no `..` survives the clean-up |
| Text.CleanSingleSpaces | static/js/voice_assistant.js:159-162 | whitespace in the cleaned sentence is single plain spaces, never two whitespace characters in a row |
| Text.CleanUnchanged | static/js/voice_assistant.js:159-162 | text with no edge whitespace, no `!` or `?`, no `..` and only single plain spaces is its own clean-up |
| Text.CleanIdempotent | static/js/voice_assistant.js:159-162 | cleaning a cleaned sentence changes nothing |
| Text.CleanWords | static/js/voice_assistant.js:159-162 | the clean-up keeps every character that is neither whitespace nor a terminator, in order: only punctuation and whitespace are rewritten |
| Text.Split | static/js/voice_assistant.js:146 | `split(/[.!?]+/)` yields at least one piece and no piece contains a terminator |
| Text.JoinSplit | static/js/voice_assistant.js:146 | the split loses only the terminator runs: joining the pieces with `.` gives the text with each terminator run replaced by one `.` |
| Text.PunctuationCollapse | static/js/voice_assistant.js:160-161 | the two punctuation replacements together turn each run of terminators into a single `.` |
| Text.SplitWithoutTerminator | static/js/voice_assistant.js:146 | text without terminators splits into one piece, the whole text |
| Text.SplitSentence | static/js/voice_assistant.js:146 | a sentence closed by one terminator splits off as the first piece, followed by the split of the rest |
| Text.SplitOfBlankText | static/js/voice_assistant.js:146 | text made of terminators and whitespace splits into whitespace-only pieces |
| Text.KeepNonBlank | static/js/voice_assistant.js:146 | the filter keeps only non-blank pieces, each taken from the input |
| Text.KeepNonBlankSingle | static/js/voice_assistant.js:146 | a single piece is kept exactly when it is not whitespace only |
| Text.KeepNonBlankAppend | static/js/voice_assistant.js:146 | filtering two lists one after the other is filtering each and concatenating the results |
| Text.KeepNonBlankCut | static/js/voice_assistant.js:146 | filtering a list is filtering its two parts, cut at any point, and concatenating the results |
| Text.KeepNonBlankInOrder | static/js/voice_assistant.js:146 | the filter result is a subsequence of its input and contains every non-blank piece |
| Text.KeepNonBlankOfBlanks | static/js/voice_assistant.js:146 | all-blank pieces are all dropped |
| Text.Segments | static/js/voice_assistant.js:146 | no segment is empty, whitespace only, or contains `.`, `!` or `?` |
| Text.SegmentsInOrder | static/js/voice_assistant.js:146 | for every cut of the split, the segments are the kept pieces before the cut followed by the kept pieces after it; so they are the non-blank pieces in the split's order, none missing |
| Text.SegmentsSentence | static/js/voice_assistant.js:146 | a non-blank sentence closed by one terminator is the first segment, followed by the segments of the rest |
| Text.SegmentsOfBlankText | static/js/voice_assistant.js:146 | text of only terminators and whitespace yields no segment |
| Text.SegmentsOfOneSentence | static/js/voice_assistant.js:146 | non-blank text without a terminator yields exactly one segment, the whole text |
| Text.CleanSegment | static/js/voice_assistant.js:146-162 | for a segment the punctuation steps do nothing: what is spoken is the trimmed segment with whitespace runs collapsed, and it contains no terminator |
| Text.SpokenSegment | static/js/voice_assistant.js:146-162 | every segment is spoken as non-empty text with no terminator, no whitespace at its ends and no two whitespace characters in a row |
| Voices.Includes | static/js/voice_assistant.js:29-30 | a text includes only parts no longer than itself |
| Voices.IncludesOccurrence | static/js/voice_assistant.js:29-30 | `includes` holds exactly when the part occurs at some index |
| Voices.IncludesAt | static/js/voice_assistant.js:29-30 | a part that occurs at some index is included |
| Voices.MissingCharacter | static/js/voice_assistant.js:29-30 | a part with a character absent from the text is not included |
| Voices.FindFirst | static/js/voice_assistant.js:28-30 | `find` returns the first index whose voice satisfies the tier, or none when no voice does |
| Voices.SelectVoice | static/js/voice_assistant.js:28-31 | the selection is absent exactly for an empty list and is otherwise an element of the list |
| Voices.SelectBritishMale | static/js/voice_assistant.js:28-29 | the first `en-GB` voice whose name includes `Male` is chosen whenever one exists |
| Voices.SelectAmerican | static/js/voice_assistant.js:30 | with no tier-1 voice, the first `en-US` voice whose name does not include `Female` is chosen |
| Voices.SelectFallback | static/js/voice_assistant.js:31 | with neither tier present, the first voice is chosen |
| Turn.FormatMessage | static/js/voice_assistant.js:135-139 | the paragraph's class is the role name followed by `-message`, and its text is the role's icon, a space and the message itself |
| Turn.ReadFormatted | static/js/voice_assistant.js:135-139 | role and message can be read back from every logged paragraph |
| Turn.FormatInjective | static/js/voice_assistant.js:135-139 | two logged paragraphs are equal only for the same role and message |
| Turn.Classify | static/js/voice_assistant.js:118-131 | an answer results exactly for an ok response with parsed JSON and a falsy `error`, and carries `response`; a non-ok response gives `Failed to get response from server`; a truthy `error` is shown verbatim |
| Assistant.VoiceFor | static/js/voice_assistant.js:167-170 | the utterance gets no voice exactly when none is selected and the platform offers none; otherwise it gets the selected voice or one from the platform list |
| Assistant.AfterSentence | static/js/voice_assistant.js:153-188 | speaking one sentence leaves the microphone, listening flag, banner, log and recognition calls alone, uses the voice `VoiceFor` gives, and appends exactly a cancel and then the cleaned sentence spoken with that voice |
| Assistant.AfterSentences | static/js/voice_assistant.js:144-151 | speaking a list of sentences leaves the microphone, listening flag, banner, log and recognition calls alone, appends exactly two synthesis calls per sentence and keeps the earlier calls as they were |
| Assistant.AfterSentencesStep | static/js/voice_assistant.js:148-150 | speaking the first i+1 sentences is speaking the first i and then sentence i |
| Assistant.Playback | static/js/voice_assistant.js:148-150 | the calls for n sentences are 2n calls |
| Assistant.PlaybackAt | static/js/voice_assistant.js:148-186 | call 2k is `cancel()` and call 2k+1 speaks the cleaned sentence k with the chosen voice, for every k |
| Assistant.PlaybackEffect | static/js/voice_assistant.js:148-170 | speaking a list selects a voice at most once (loading the voices only if none is selected) and appends exactly the cancel/speak pairs for the list with that voice; an empty list changes nothing |
| Assistant.SpeakAfterPlayback | static/js/voice_assistant.js:148-170 | a sentence spoken after a playback uses the voice chosen for the first sentence and adds its cancel/speak pair after the earlier calls |
| Assistant.AfterTurn | static/js/voice_assistant.js:106-133 | a turn never touches the microphone, the listening flag or the recognition calls, only appends synthesis calls, and changes the banner only to show the message of an error outcome |
| Assistant.ServerFailureTurn | static/js/voice_assistant.js:107-132 | a non-ok reply shows the fixed failure message, logs only the user entry and speaks nothing |
| Assistant.ServerErrorTurn | static/js/voice_assistant.js:107-132 | a truthy `error` is shown verbatim, only the user entry is logged and nothing is spoken |
| Assistant.AnsweredTurn | static/js/voice_assistant.js:107-128 | an answer extends the log by exactly [user, assistant] in that order, leaves the banner and listening flag alone, and plays its segments |
| Assistant.TurnLog | static/js/voice_assistant.js:107-127 | the user entry is always logged first, and a second entry follows exactly when there is an answer |
| Assistant.VoiceAssistant.constructor | static/js/voice_assistant.js:2-46 | not listening, empty log and traces; without recognition support the unsupported message is shown and the microphone disabled; voices loaded and selected |
| Assistant.VoiceAssistant.LoadVoices | static/js/voice_assistant.js:25-32 | the voice cache becomes the platform list and the selection its waterfall choice; nothing else changes |
| Assistant.VoiceAssistant.ShowError | static/js/voice_assistant.js:190-192 | the banner shows the message; nothing else changes |
| Assistant.VoiceAssistant.HideError | static/js/voice_assistant.js:196-199 | the banner is hidden and emptied; nothing else changes |
| Assistant.VoiceAssistant.OnStart | static/js/voice_assistant.js:53-56 | `onstart` sets the listening flag and changes nothing else |
| Assistant.VoiceAssistant.OnEnd | static/js/voice_assistant.js:58-61 | `onend` clears the listening flag and changes nothing else |
| Assistant.VoiceAssistant.OnError | static/js/voice_assistant.js:68-72 | `onerror` shows `Error: <code>` and clears the listening flag |
| Assistant.VoiceAssistant.StartListening | static/js/voice_assistant.js:83-90 | `start()` is called (when recognition exists); acceptance hides the banner, a throw shows the fixed retry message; the listening flag is unchanged |
| Assistant.VoiceAssistant.StopListening | static/js/voice_assistant.js:92-98 | `stop()` is called when recognition exists; any failure is swallowed and nothing else changes |
| Assistant.VoiceAssistant.ToggleListening | static/js/voice_assistant.js:75-81 | stop exactly when listening, start otherwise |
| Assistant.VoiceAssistant.ClickMic | static/js/voice_assistant.js:44-49 | a disabled button changes nothing; an enabled one toggles |
| Assistant.VoiceAssistant.AddMessage | static/js/voice_assistant.js:135-142 | the log grows by exactly the formatted entry |
| Assistant.VoiceAssistant.SpeakSentence | static/js/voice_assistant.js:153-188 | cancel, then (after loading voices if none is selected) speak the cleaned sentence with the selected voice |
| Assistant.VoiceAssistant.SpeakResponse | static/js/voice_assistant.js:144-184 | the session after the loop is the one `AfterSentences` gives for the segments, whatever the utterance endings are |
| Assistant.VoiceAssistant.ProcessVoiceInput | static/js/voice_assistant.js:106-133 | the session after a turn is the one `AfterTurn` gives for the transcript and reply |
| Scenarios.SplitThree | static/js/voice_assistant.js:146 | three sentences each closed by a terminator split into those sentences and a trailing empty piece |
| Scenarios.KeepThree | static/js/voice_assistant.js:146 | the filter drops the trailing empty piece |
| Scenarios.ThreeSentences | static/js/voice_assistant.js:146 | three non-blank punctuated sentences are segmented into exactly those sentences |
| Scenarios.ReplySegments | static/js/voice_assistant.js:146 | "Hello there! How are you? Fine." segments into "Hello there", " How are you", " Fine" |
| Scenarios.CleanFirst | static/js/voice_assistant.js:159-162 | "Hello there" is cleaned to itself |
| Scenarios.SpacedWords | static/js/voice_assistant.js:159-162 | " How are you" and " Fine" are cleaned to "How are you" and "Fine" |
| Scenarios.PlaybackThree | static/js/voice_assistant.js:148-186 | three sentences are played as exactly six calls: a cancel and then the cleaned sentence, for each sentence in order |
| Scenarios.ReplyPlayback | static/js/voice_assistant.js:146-186 | that reply is played as cancel, "Hello there", cancel, "How are you", cancel, "Fine", with no closing periods |
| Scenarios.CleanSingleSpaced | static/js/voice_assistant.js:159-162 | single-spaced text without terminators or edge whitespace is cleaned to itself |
| Scenarios.CleanLeadingSpace | static/js/voice_assistant.js:159-162 | the same text behind one space is cleaned to the text |
| Scenarios.PicksBritishMale | static/js/voice_assistant.js:28-29 | an `en-GB` voice named "Daniel Male" wins over an earlier `en-US` voice |
| Scenarios.PassesOverFemale | static/js/voice_assistant.js:28-30 | "Kate Female" (`en-GB`) is passed over for an `en-US` voice |
| Scenarios.KateIsNeither | static/js/voice_assistant.js:28-30 | an `en-GB` voice named "Kate Female" matches neither the British-male tier nor the American tier |
| Scenarios.AlexIsAmerican | static/js/voice_assistant.js:28-30 | an `en-US` voice named "Alex" matches the American tier and not the British-male tier |
| Scenarios.FemaleIsNotMale | static/js/voice_assistant.js:29 | the search is case-sensitive: "Kate Female" does not include "Male" |

## Left out

- DOM presentation is not modelled.
  - This covers element lookup, the `recording`/`active` classes, the status text set by `updateUI` (`Listening...` / `Click to start speaking`, a function of the flag) and scrolling the log.
  - The log is a sequence of (CSS class, text) entries.
- The 5-second timer after `showError` that hides the banner is not modelled as an automatic event. `HideError` is the explicit hide it would perform.
- The utterance `rate`, `pitch` and `volume` are floating-point tuning constants and are not modelled.
- Console logging of a failed `stop()` or a synthesis error is not modelled.
- Asynchronous interleaving is not modelled.
  - Methods run one at a time to completion.
  - The code has no guard against a click or a recognition event arriving while a reply is fetched or spoken, and the model adds none.
  - `ProcessVoiceInput` models a whole turn without interruption.
- The voice list is one `available` value per turn. A `voiceschanged` event in the middle of a playback is not modelled. Such an event is a separate `LoadVoices` call.
- `Turn.IsTruthy`: the `error` field is modelled as an optional string. A non-string `error` value (a number, `false`, an object) is not modelled.
- A JSON body without a `response` field is not modelled. In the code, line 127 logs the entry "🤖 undefined". Then `text.split` at line 146 throws a `TypeError`, which surfaces at the `await` on line 128. Line 131 shows its message in the banner, and nothing is spoken.
- Every utterance is assumed to fire `onend` or `onerror` (`ending(i)` only chooses which). The code sets no timeout. An utterance that fires neither never resolves the promise of `speakSentence` (lines 154-187, resolved only at lines 177-184), so the loop at lines 148-150 would wait forever.
- Strings are sequences of Unicode code points. JavaScript's UTF-16 code units are not modelled, which matters for the length of text outside the Basic Multilingual Plane.
- The initial banner is taken to be hidden and empty. Its markup is not part of this model.
- The Flask backend (`app.py`) is not part of this model. Its refusal of empty input (status 400) and its mapping of any failure to status 500 reach the client as a `Reply` with `ok` false.
- `Text.KeepNonBlank` filters on "not whitespace only". This is the same test as `trim().length > 0`, by the contract of `Text.Trim` (the trim is empty exactly for whitespace-only text).
