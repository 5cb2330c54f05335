# AISamasya: a verified model of its decision logic

AISamasya is a learning assistant for people with disabilities. A React
front end asks for the user's name and needs and sends them to a matching
page. Blind users get a spoken dialogue about a subject, a voice-driven
note recorder and a camera scene describer. Flask back ends relay
requests to a language model. A webcam script reads head nods as
yes/no answers.

This project models the deterministic logic inside those components in
Dafny and proves what it promises:

- `SubjectInfo` (`subject_info.dfy`): the turn-taking machine of the spoken
  dialogue page. It is a class whose methods are the browser callbacks:
  recognition results, the silence timer, utterance start and end, the
  Start Mic / Stop Audio / Quit buttons, and the asynchronous query
  submission, split at its awaits.
- `SceneServer` (`scene_server.dfy`): the main Flask app. It covers the
  parser of the streamed scene description, the yes/no command
  dispatcher, the document loader's extension dispatch and DOCX paragraph
  filter, and the empty-input rejections of the query endpoint.
- `NodDetection` (`nod_detection.dfy`): the head-nod classifier over a
  window of eye positions, and the per-frame window update as a class.
- `Dashboard` (`dashboard.dfy`): toggling options on the dashboard, the
  submit-enabled flag, and priority routing.
- `BackendApi` (`backend_api.dfy`): the routing of the back end's
  `submit_disabilities` and the subject guard of `scrap_sub`. The
  dashboard's call to `submit_disabilities` is commented out
  (frontend/src/components/Dashboard.js:27-31), so it never posts. The
  model compares the two routing rules on the same list.
- `NoteMaking` (`note_making.dfy`): the recording timer, a class that
  counts the running `setInterval` handles.
- `Text` (`text.dfy`) and `Wrappers` (`wrappers.dfy`): Python and
  JavaScript string semantics (`strip`/`trim`, `in`, `split`, `lower`) and
  `Option`.

Browser engines, the network and the language model are not modelled.
Their callbacks and answers become method calls and parameters:

- a recognition event is a sequence of `RecognitionResult`;
- a fetch outcome is a status and an optional parsed body;
- a model answer is its text, or the message of the exception the call
  raised;
- a frame of the webcam loop is the list of eye boxes the cascade found.

The page's code behaves as follows, and the model follows it:

- Nothing keeps listening and playing apart. Start Mic can turn
  listening on while speech plays, so only per-event facts are proved.
- A silence timer that fires while a submission is in flight is dropped,
  not queued. Stop Audio and Quit leave the processing guard as it is.
- Quit does not cancel an answer still in flight. In the handlers as
  modelled, an answer that arrives after Quit is appended to the emptied
  history and spoken. In the running app, Quit also navigates to
  '/visual', which unmounts the page, and the model does not cover that.
- `speechSynthesis.cancel()` (Stop Audio, Quit, and any new utterance)
  drops the pending utterance's `onend` continuation. A cancelled answer
  playback therefore leaves the guard set, and later submissions are
  no-ops. The model assumes the engine delivers no `end` event for a
  cancelled utterance.
- The handlers are created once (`useCallback(..., [])`). The running page
  therefore reads first-render values of `isListening` and of the
  history. The model follows the guards as written: the recognizer's
  `onend` reads the current `isListening`, and the request carries the
  history as read just before the user entry is appended.
- Without a recognizer, Start Mic can turn listening on but never off
  again.

## Model

| member | source | states |
|---|---|---|
| Text.Trim | app.py:133 | the result is the input with only whitespace removed before and after it: a slice whose cut-off ends are all whitespace, which starts and ends with no whitespace character and is empty exactly when the input is all whitespace |
| Text.TrimUnique | app.py:133 | any slice that leaves only whitespace on both sides and is itself stripped is the result of stripping |
| Text.TrimIsSlice | app.py:133 | stripping keeps one contiguous slice of the input |
| Text.TrimIdempotent | app.py:133 | stripping twice is stripping once |
| Text.TrimKeepsAbsence | app.py:133 | stripping never creates an occurrence of a marker |
| Text.IndexOf | app.py:132 | the first occurrence of a substring: it occurs there, nowhere earlier, and `None` means nowhere |
| Text.OccursShift | app.py:132 | occurrences in the tail of a string are the later occurrences in the string, shifted by one |
| Text.NotContainsSlice | app.py:133 | a substring absent from a string is absent from each of its slices |
| Text.OccursInSlice | app.py:133 | an occurrence in a slice is an occurrence in the whole string |
| Text.OccursInPrefix | app.py:133 | an occurrence that ends inside a prefix is an occurrence in that prefix |
| Text.FindOr | app.py:133 | the index at which the first piece of `split` ends: the first occurrence of the separator, or the length when there is none, with no occurrence before it |
| Text.FindOrUnique | app.py:133 | an index with no occurrence before it and an occurrence at it, or the end, is that first index |
| Text.AfterFirst | app.py:133 | in a text made of a prefix, the separator and a rest, with the first occurrence right after the prefix, the text after the first separator is that rest |
| Text.FirstOfTwo | app.py:133 | cutting at the first marker and then at the first stop marker cuts at whichever of the two comes first, when the stop marker cannot overlap the marker's start |
| Text.Split | app.py:133 | Python `split`: at least one piece, two or more exactly when the separator occurs, no piece contains it, the first piece is a prefix, and joining the pieces with the separator gives the input back |
| Text.SplitHeadKeepsAbsence | app.py:133 | the first piece lacks anything the whole string lacks |
| Text.SplitHead | app.py:133 | `split(sep)[0]` is the text before the first separator |
| Text.SplitSecond | app.py:133 | `split(sep)[1]` is the text between the first and the second separator, or up to the end |
| Text.LeadingCount | app.py:133 | the count of leading whitespace characters, with a non-whitespace character or the end right after them |
| Text.TrailingCount | app.py:133 | the count of trailing whitespace characters, with a non-whitespace character or the start right before them |
| Text.AsciiLower | app.py:151 | the result has the input's length and each character lowered |
| Text.AsciiLowerIdempotent | app.py:70 | lowercasing twice is lowercasing once |
| SceneServer.CutBetween | app.py:133 | the text after the first marker and before the stop marker, stripped, contains neither marker and has no surrounding whitespace |
| SceneServer.CutAfter | app.py:135 | the text between the first and any second marker, stripped, has no marker and no surrounding whitespace |
| SceneServer.ExtractScene | app.py:133 | one chunk's scene description contains neither "Scene Description:" nor "Learning:" and is stripped |
| SceneServer.ExtractLearning | app.py:135 | one chunk's learning text contains no "Learning:" and is stripped |
| SceneServer.CutBetweenValue | app.py:133 | the cut is the stripped text between the end of the first marker and the first stop marker after it |
| SceneServer.CutAfterValue | app.py:135 | the cut is the stripped text between the end of the first marker and its next occurrence, or the end |
| SceneServer.CutBetweenAt | app.py:133 | for a text `pre + marker + rest` whose first marker follows `pre`, the cut is `rest` up to the first index where either marker starts, stripped |
| SceneServer.CutAfterAt | app.py:135 | for a text `pre + marker + rest` whose first marker follows `pre`, the cut is `rest` up to its first marker, stripped |
| SceneServer.ExtractSceneValue | app.py:133 | for `pre + "Scene Description:" + rest`, the description is `rest` up to the first "Scene Description:" or "Learning:" in it (or all of it), stripped |
| SceneServer.ExtractLearningValue | app.py:135 | for `pre + "Learning:" + rest`, the learning text is `rest` up to the next "Learning:" (or all of it), stripped |
| SceneServer.SceneOf | app.py:128-133 | the final scene description contains neither marker and is stripped |
| SceneServer.LearningOf | app.py:129-135 | the final learning content contains no "Learning:" and is stripped |
| SceneServer.SceneOfWithoutMarker | app.py:128-133 | with no chunk containing "Scene Description:", the description stays "" |
| SceneServer.LearningOfWithoutMarker | app.py:129-135 | with no chunk containing "Learning:", the learning content stays "" |
| SceneServer.SceneOfLastWins | app.py:130-133 | the last chunk containing "Scene Description:" decides the description, whatever came before |
| SceneServer.LearningOfLastWins | app.py:130-135 | the last chunk containing "Learning:" decides the learning content |
| SceneServer.ParseSceneResponse | app.py:128-143 | the chunk loop yields `SceneOf` and `LearningOf` of the chunks, and `has_learning` is true exactly when the learning content is non-empty |
| SceneServer.ProcessCommand | app.py:148-168 | after lowercasing, "yes" is a success with a learning message and "no" a success without one; anything else, a missing command included, is an error with status 400 |
| SceneServer.ProcessCommandIgnoresCase | app.py:151 | a command and its lowercased form get the same reply |
| SceneServer.RFind | app.py:70 | the last index of a character, or -1 when it does not occur |
| SceneServer.ExtStart | app.py:70 | where POSIX `splitext` starts the extension: at the last '.', which lies after the last '/', and only when the last component has a '.' after some other character of that component; otherwise at the end |
| SceneServer.HasExtensionAtLastDot | app.py:70 | the last component has a '.' after a non-'.' character exactly when its last '.' does |
| SceneServer.Splitext | app.py:70 | root and extension concatenate to the path; the extension is empty or starts with '.' and has no later '.' or '/'; a non-empty extension starts at the last '.' |
| SceneServer.SplitextHasExtension | app.py:70 | the extension is non-empty exactly when the last component has a '.' after some other character of that component |
| SceneServer.SplitextOfName | app.py:70 | a name with a non-dot character followed by one '.' suffix splits into that name and that suffix |
| SceneServer.SplitextOfDotName | app.py:70 | a name made of leading dots and a dot-free tail has no extension |
| SceneServer.KeptParagraph | app.py:79-82 | a paragraph is kept, stripped, exactly when it is not all whitespace |
| SceneServer.DocxDocs | app.py:79-82 | every kept document is non-empty, stripped and carries the path as source, and no more documents than paragraphs result |
| SceneServer.Contents | app.py:80 | the page contents of the documents, one per document in order |
| SceneServer.DocxDocsAppend | app.py:79-82 | the filter works paragraph by paragraph, so kept paragraphs keep their original order |
| SceneServer.DocxDocsKeepsCleanParagraphs | app.py:79-82 | paragraphs already non-empty and stripped are all kept unchanged |
| SceneServer.CleanParagraphKept | app.py:79-82 | a single clean paragraph is kept as it is |
| SceneServer.DocxDocsIdempotent | app.py:79-82 | filtering the kept paragraphs again gives the same documents |
| SceneServer.SameContentsSameDocs | app.py:80 | documents from one source are determined by their texts |
| SceneServer.LoadDocument | app.py:69-85 | ".pdf", ".txt" and ".docx", compared lowercased, go to their loaders; DOCX gives the filtered paragraphs; any other extension is "Unsupported file type." |
| SceneServer.LoadDocumentIgnoresCase | app.py:70 | an extension and its lowercased form are accepted alike |
| SceneServer.SplitextOfLowered | app.py:70 | lowercasing an extension does not move where `splitext` cuts |
| SceneServer.LoweredSameShape | app.py:70 | lowercasing the end of a path keeps its length and every '.' and '/' in place |
| SceneServer.SplitextSameShape | app.py:70 | the cut depends only on where the '.' and '/' characters are |
| SceneServer.RFindSameShape | app.py:70 | the last index of a character depends only on where that character is |
| SceneServer.HandleQuery | app.py:189-198 | a missing or empty query is rejected with 400 "No query provided"; otherwise the model gets the query after the fixed prompt |
| SceneServer.ConcatAll | app.py:200 | `"".join` of the chunk texts |
| SceneServer.ConcatAllAppend | app.py:200 | joining two runs of chunks gives the two joined texts in order |
| SceneServer.QueryReply | app.py:194-203 | a rejection is returned before any model call; otherwise the status is 200, with "success" and the concatenated chunks exactly when the model call did not raise, and "error" with the exception's message when it did |
| NodDetection.Lefts | nod_detection.py:56 | the first eye of each sample, in order |
| NodDetection.Rights | nod_detection.py:57 | the second eye of each sample, in order |
| NodDetection.Xs | nod_detection.py:59 | the x coordinates, in order |
| NodDetection.Ys | nod_detection.py:60 | the y coordinates, in order |
| NodDetection.Diff | nod_detection.py:59-63 | `np.diff`: one fewer element, each the step between neighbours |
| NodDetection.AddSeq | nod_detection.py:66-67 | element-wise sum of two equally long arrays |
| NodDetection.SumDiffTelescopes | nod_detection.py:59-66 | the steps add up to the last value minus the first |
| NodDetection.SumAddSeq | nod_detection.py:66-67 | the sum of an element-wise sum is the sum of the sums |
| NodDetection.MeanAgainstThreshold | nod_detection.py:70-72 | comparing a mean over n steps with the threshold is comparing the total with threshold times n, for both `>` and `<` |
| NodDetection.Decide | nod_detection.py:70-75 | the direction test on the mean steps; its meaning is stated by DecideAgreesWithDisplacement |
| NodDetection.DecideByDisplacement | nod_detection.py:70-75 | the same test on total displacements against threshold times steps; a reference definition without division |
| NodDetection.MeanStepX | nod_detection.py:56-66 | `dx`; MeanStepIsDisplacement states its value |
| NodDetection.MeanStepY | nod_detection.py:56-67 | `dy`; MeanStepIsDisplacement states its value |
| NodDetection.DecideAgreesWithDisplacement | nod_detection.py:69-75 | the direction test on mean steps equals the integer test on total displacements |
| NodDetection.MeanStepIsDisplacement | nod_detection.py:56-67 | `dx` and `dy` are the net displacements of both eyes divided by the number of steps |
| NodDetection.PairTelescopes | nod_detection.py:59-66 | the summed steps of two coordinate series give both net changes |
| NodDetection.MeanIsDisplacement | nod_detection.py:56-67 | the totals of the summed x and y steps of both eyes are the net displacements between the first and last sample |
| NodDetection.TrackAgreesWithDisplacement | nod_detection.py:56-75 | the classifier's decision on `dx`, `dy` is the integer decision on net displacements over n-1 steps |
| NodDetection.TrackHeadMovement | nod_detection.py:48-75 | fewer than 10 samples give None; otherwise "No" when the horizontal displacement exceeds 10 per step and the vertical is below it, "Yes" the other way round, None else |
| NodDetection.ThresholdIsUndecided | nod_detection.py:70-75 | a displacement of exactly the threshold on either axis gives None |
| NodDetection.SampleOf | nod_detection.py:92 | the top-left corners of the first and second eye box |
| NodDetection.Slide | nod_detection.py:91-94 | a frame without exactly two eyes leaves the window as it is; one with two appends their sample last, and to a window of fewer than 10 it only appends; the window never exceeds 10 |
| NodDetection.SlideDropsOldest | nod_detection.py:93-94 | on a full window the oldest sample is the one dropped |
| NodDetection.Step | nod_detection.py:91-101 | one loop pass keeps the window within 10; a detection happens only on a full window and empties it |
| NodDetection.TwoEyeSamples | nod_detection.py:91-92 | the samples of the frames with exactly two eyes, in order, no more of them than frames |
| NodDetection.Run | nod_detection.py:81-101 | a run of loop passes keeps a window of at most 10 within 10 |
| NodDetection.FreshWindowNeedsTenFrames | nod_detection.py:91-101 | from an emptied window, fewer than ten two-eye frames detect nothing and the window is exactly their samples, in order |
| NodDetection.NodTracker.ProcessFrame | nod_detection.py:91-101 | one loop pass: the window slides, and a detection empties it and sets the message; without one the message is kept |
| NodDetection.NodTracker.constructor | nod_detection.py:28-29 | the loop starts with an empty window and no message |
| Dashboard.RemoveAll | frontend/src/components/Dashboard.js:20 | the option is gone, every other option is kept, and the list is shorter exactly when the option was there |
| Dashboard.RemoveAllConcat | frontend/src/components/Dashboard.js:20 | removal keeps the order of the remaining options |
| Dashboard.RemoveAllAbsent | frontend/src/components/Dashboard.js:20 | removing an absent option changes nothing |
| Dashboard.ToggleDisability | frontend/src/components/Dashboard.js:17-23 | an option not selected is appended at the end; a selected one is removed and the others keep their order; every other option's membership is unchanged |
| Dashboard.ToggleTwiceRestores | frontend/src/components/Dashboard.js:17-23 | toggling an absent option twice restores the list |
| Dashboard.RemoveAllKeepsNoDuplicates | frontend/src/components/Dashboard.js:20 | removal keeps a duplicate-free list duplicate-free |
| Dashboard.ToggleKeepsNoDuplicates | frontend/src/components/Dashboard.js:17-23 | a toggle keeps a duplicate-free list duplicate-free |
| Dashboard.Toggles | frontend/src/components/Dashboard.js:17-23 | the selection after a series of presses; TogglesParity states its contents |
| Dashboard.TogglesParity | frontend/src/components/Dashboard.js:17-23 | after a series of presses an option is selected exactly when it was selected before or was pressed an odd number of times, but not both |
| Dashboard.TogglesFromEmptyHaveNoDuplicates | frontend/src/components/Dashboard.js:6-23 | from the initial empty list, no series of presses selects an option twice |
| Dashboard.SubmitDisabled | frontend/src/components/Dashboard.js:74 | submit is disabled exactly when nothing is selected or the name is blank after `trim` |
| Dashboard.Route | frontend/src/components/Dashboard.js:34-40 | the route is one of '/subject_b', '/audial' and '/general' |
| Dashboard.LastTwoButtonsIgnored | frontend/src/components/Dashboard.js:8-13 | Motor Disability and Learning Disorder, the last two of the four buttons, never change the route |
| Dashboard.HandleSubmit | frontend/src/components/Dashboard.js:34-40 | '/subject_b' exactly when Visual Impairment is selected, else '/audial' exactly when Hearing Impairment is, else '/general'; the name and list travel unchanged |
| Dashboard.RouteIgnoresOtherOptions | frontend/src/components/Dashboard.js:34-40 | toggling an option other than the two deciding ones never changes the route |
| BackendApi.Mentions | backend/app.py:20-22 | Python `in` on the request value: a missing value contains nothing, an array contains its string items, and null, numbers and booleans raise |
| BackendApi.SubmitDisabilities | backend/app.py:12-29 | '/blind' whenever Visual Impairment is present, '/deaf' for Hearing Impairment without it, '/general' otherwise and when the key is missing; success carries exactly one route and no error; a non-object body or a value `in` rejects gives 500 with the exception's message |
| BackendApi.AsArray | backend/app.py:17 | the dashboard's list as the JSON array it would post, item by item |
| BackendApi.RoutesAgree | backend/app.py:20-25 | the two routing rules agree: for the same list, the server's '/blind', '/deaf', '/general' correspond exactly to the dashboard's '/subject_b', '/audial', '/general' |
| BackendApi.ScrapSubject | backend/app.py:33-41 | a missing or empty subject is rejected before the model; a non-object body fails with the exception's message; otherwise the subject itself is described |
| BackendApi.SubjectResponse | backend/app.py:38-46 | status 400 with "Subject not provided" exactly for a rejection, 200 with the description exactly when the model answered, 500 with the exception's message otherwise |
| BackendApi.EmptySubjectNeverReachesModel | app.py:229-236 | a missing and an empty subject give the same 400 reply whatever the model would have said |
| NoteMaking.Recorder.constructor | frontend/src/components/Blind/NoteMaking.js:4-8 | a fresh page is not listening, shows 0 and runs no interval |
| NoteMaking.Recorder.StartTimer | frontend/src/components/Blind/NoteMaking.js:60-64 | one more interval runs, and it is the one the ref holds |
| NoteMaking.Recorder.PauseTimer | frontend/src/components/Blind/NoteMaking.js:66-68 | the ref's interval stops; the elapsed seconds are kept |
| NoteMaking.Recorder.ResetTimer | frontend/src/components/Blind/NoteMaking.js:70-73 | the ref's interval stops and the counter is 0 |
| NoteMaking.Recorder.StartRecording | frontend/src/components/Blind/NoteMaking.js:34-41 | with a recognizer, listening starts along with one new interval; without one nothing changes |
| NoteMaking.Recorder.PauseRecording | frontend/src/components/Blind/NoteMaking.js:43-50 | with a recognizer, listening and the ref's interval stop; without one nothing changes |
| NoteMaking.Recorder.ToggleRecording | frontend/src/components/Blind/NoteMaking.js:52-58 | with a recognizer, listening flips, and exactly one interval runs exactly while listening; the counter keeps its value |
| NoteMaking.Recorder.Tick | frontend/src/components/Blind/NoteMaking.js:61-63 | a tick happens only while an interval runs and adds exactly 1 |
| NoteMaking.Recorder.Stop | frontend/src/components/Blind/NoteMaking.js:147-150 | afterwards nothing listens, no interval runs and the counter is 0, with or without a recognizer |
| NoteMaking.RecordSession | frontend/src/components/Blind/NoteMaking.js:34-73 | recording from a fresh page for n ticks and toggling off shows n seconds and does not listen |
| SubjectInfo.RoleName | frontend/src/components/Blind/SubjectInfo.js:227 | each entry type becomes one of "system", "user", "ai" |
| SubjectInfo.RoleNameInjective | frontend/src/components/Blind/SubjectInfo.js:227 | different entry types get different roles |
| SubjectInfo.RequestHistory | frontend/src/components/Blind/SubjectInfo.js:226-229 | the history sent has the same length and order, each role taken from the type and each text unchanged |
| SubjectInfo.RequestHistoryAppend | frontend/src/components/Blind/SubjectInfo.js:226-229 | formatting commutes with appending entries |
| SubjectInfo.RequestHistoryInjective | frontend/src/components/Blind/SubjectInfo.js:226-229 | the history can be recovered from what is sent |
| SubjectInfo.Finals | frontend/src/components/Blind/SubjectInfo.js:35-39 | the final results' transcripts joined in order; FinalsAppend, FinalsOfOne and FinalsSkipsInterim state its meaning |
| SubjectInfo.FinalTranscript | frontend/src/components/Blind/SubjectInfo.js:33-39 | the loop from `resultIndex` on; OnResult states what it collects |
| SubjectInfo.FinalsAppend | frontend/src/components/Blind/SubjectInfo.js:35-39 | the collected final text of a concatenation is the concatenation of the collected texts |
| SubjectInfo.FinalsOfOne | frontend/src/components/Blind/SubjectInfo.js:36-37 | a single result adds its transcript exactly when it is final |
| SubjectInfo.FinalsSkipsInterim | frontend/src/components/Blind/SubjectInfo.js:36 | an interim result adds nothing, wherever it sits |
| SubjectInfo.AnswerOf | frontend/src/components/Blind/SubjectInfo.js:243-247 | an answer arrives exactly for a 2xx status whose body parsed |
| SubjectInfo.Conversation.constructor | frontend/src/components/Blind/SubjectInfo.js:13-22 | nothing plays, listens or is processed; no timer is armed; the history is empty |
| SubjectInfo.Conversation.SeedHistory | frontend/src/components/Blind/SubjectInfo.js:110-115 | a non-empty description becomes the single system entry of an empty history; otherwise nothing changes |
| SubjectInfo.Conversation.Speak | frontend/src/components/Blind/SubjectInfo.js:74-94 | the new utterance replaces the one being spoken and is handed to the engine |
| SubjectInfo.Conversation.SpeakDescription | frontend/src/components/Blind/SubjectInfo.js:211-214 | a non-empty description is read aloud; an empty one is not |
| SubjectInfo.Conversation.OnResult | frontend/src/components/Blind/SubjectInfo.js:31-56 | the text is the in-order concatenation of the final results from `resultIndex` on; a non-blank text becomes the single armed timer and the shown transcript; a blank one changes nothing |
| SubjectInfo.Conversation.HandleQuerySubmission | frontend/src/components/Blind/SubjectInfo.js:117-140 | a no-op while the guard is set; otherwise the guard is set, listening stops, the timer is disarmed, the transcript cleared, one user entry appended after the unchanged earlier entries, and the request carries the earlier history and the query |
| SubjectInfo.Conversation.TimerFires | frontend/src/components/Blind/SubjectInfo.js:48-50 | the armed text is submitted exactly when the guard is clear; otherwise the fire is dropped and nothing else changes |
| SubjectInfo.Conversation.AnswerReceived | frontend/src/components/Blind/SubjectInfo.js:143-146 | exactly one ai entry with the answer is appended and the answer is spoken; the guard stays set until playback ends |
| SubjectInfo.Conversation.AnswerFailed | frontend/src/components/Blind/SubjectInfo.js:153-157 | the guard is cleared, listening stays off, and no ai entry is added |
| SubjectInfo.Conversation.AnswerArrived | frontend/src/components/Blind/SubjectInfo.js:140-157 | a 2xx answer is appended and spoken; any other outcome leaves the history and clears the guard |
| SubjectInfo.Conversation.UtteranceStarted | frontend/src/components/Blind/SubjectInfo.js:81-87 | an intro or answer utterance sets playing, stops listening and stops the recognizer |
| SubjectInfo.Conversation.UtteranceEnded | frontend/src/components/Blind/SubjectInfo.js:89-92 | playing stops; after the intro or an answer listening resumes; after an answer the guard is cleared |
| SubjectInfo.Conversation.RecognitionError | frontend/src/components/Blind/SubjectInfo.js:58-61 | listening is off |
| SubjectInfo.Conversation.RecognitionEnded | frontend/src/components/Blind/SubjectInfo.js:63-67 | the recognizer restarts exactly when listening is on |
| SubjectInfo.Conversation.ToggleListening | frontend/src/components/Blind/SubjectInfo.js:160-175 | off to on clears the transcript and starts the recognizer; on to off stops it, but only when a recognizer exists |
| SubjectInfo.Conversation.StopAudio | frontend/src/components/Blind/SubjectInfo.js:177-187 | speech stops, playing is false and listening is true; the guard is untouched |
| SubjectInfo.Conversation.Quit | frontend/src/components/Blind/SubjectInfo.js:190-205 | playing and listening are off, the history and transcript are empty, and the goodbye is spoken; the timer and guard are untouched |
| SubjectInfo.OpenPage | frontend/src/components/Blind/SubjectInfo.js:110-221 | after the intro is spoken, the history is the system entry and nothing is in flight |
| SubjectInfo.Listen | frontend/src/components/Blind/SubjectInfo.js:31-56 | one final utterance arms the timer with it and shows it, and nothing else changes |
| SubjectInfo.FinishTurn | frontend/src/components/Blind/SubjectInfo.js:48-157 | the timer fires, the answer arrives and is spoken; the history gains the user and ai entries, listening resumes and the guard is clear |
| SubjectInfo.OneTurn | frontend/src/components/Blind/SubjectInfo.js:31-221 | a full turn from a fresh page sends the system entry and the question, and ends with a three-entry history, both texts spoken, listening on and the guard clear |

## Left out

- Speech recognition and synthesis engines, microphone, camera, `fetch`
  and `axios`: only their callbacks and outcomes appear, as method calls
  and parameters.
- Real time: the 5000 ms silence delay, the 1000 ms interval and the
  nod message's display duration (nod_detection.py:103-109, float seconds)
  are abstract events or are not modelled.
- Rendering, routing after Quit (`navigate('/visual')`), unmount cleanup,
  styling, and the frequency visualiser of the note page (AudioContext and
  canvas geometry).
- The Gemini, FAISS and HuggingFace calls, file saving and removal,
  `process_and_store_document`, the `/summarize` and `/upload` endpoints,
  Flask/CORS setup, and the two `llm_response.py` wrappers. The model's
  answers are parameters.
- The camera page, the subject-choice page and the deaf page: I/O wiring
  whose only logic is a transcript join and fallback strings.
- Lowercasing covers ASCII letters only. Python `lower()` also maps other
  letters, but no mapping produces the extensions or commands matched.
- `app.py`'s `scrap_sub` (app.py:226-241) is the same code as the back
  end's, so one model covers both.
- SceneServer.ProcessCommand: a non-string "command" value, or a body that
  is not a JSON object, raises in the source and gives 500; the model
  takes a missing or string command only.
- SceneServer.HandleQuery: a non-object body (500) and non-string but
  truthy queries are not modelled.
- BackendApi.ScrapSubject: a subject that is a non-string JSON value is
  not modelled; only a missing value or a string is.
- SceneServer.ParseSceneResponse: `chunk.text` raising for blocked content
  is not modelled; a chunk is its text.
- SceneServer.Splitext: POSIX rules only (the '/' separator). Windows
  drive letters and '\\' are not modelled.
- SubjectInfo.Conversation.AnswerReceived: an answer body without an
  `info` field (`undefined`) is modelled as a string answer; JavaScript's
  rendering of `undefined` is not.
- A recognizer `start()` on an already running recognizer throws in the
  browser. The model treats starting as idempotent, so that exception and
  its effect on the `catch` block are not captured.
- Whether a speech engine delivers `end` for a cancelled utterance varies
  between browsers. The model takes cancellation to drop the
  continuation.
- React's stale closures: the model reads current state where the page
  would read first-render state (the recognizer's `onend` and the history
  sent with a request).
- NodDetection.NodTracker.ProcessFrame: models lines 91-101 of one pass.
  Clearing the message once `MESSAGE_DURATION` has passed
  (nod_detection.py:103-109) reads the clock and is not modelled.
- NodDetection.TrackHeadMovement: `np.mean` is taken over exact rationals
  (integer pixel steps). Floating-point rounding of the mean is not
  modelled.
