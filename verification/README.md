# Face and gesture interaction core, in Dafny

This project models the per-frame decision logic of a face and gesture
interaction assistant for elderly users. A camera frame is seen only through
the integer pixel landmarks of up to two hands, a few face points and the
face matcher's verdicts. From these the program:

- classifies static hand gestures (thumbs up or down, fist, peace, stop,
  eat, silence, can't hear, cover eyes, heart, clap; an older script adds
  medicine);
- detects a "hi" wave from the wrist's horizontal swing over the last five
  frames, per hand slot;
- runs the interaction session. An unknown face waits out a timeout and then
  a wave starts registration. A recognized face's wave starts the
  interaction and the greeting. Gestures are then committed and animated,
  and a wave held for 1.8 seconds says goodbye;
- composes the spoken greeting from the user's role, today's visits and the
  elderly user's last visit;
- looks up roles by normalised name;
- expires subtitles after ten seconds.

Everything is a pure function over immutable datatypes:

- Time is a `real` parameter, in seconds.
- The module-level state of the Python scripts (wave buffers, still
  counters, subtitle text, last banner) becomes an explicit value, passed in
  and returned.
- `math.hypot(dx, dy) < r` on integer pixels is `dx*dx + dy*dy < r*r`.
- The Eat midpoint is doubled so it stays integral.
- `scaled_diff > 0.05` with `hand_height >= 1` is `20 * diff > height`.

Modules:

| module | file | what |
|---|---|---|
| `Landmarks` | landmarks.dfy | points, 21-landmark hands, handedness, face points, distance tests, finger-extension flags, the close-pair count |
| `GestureRecognition` | gesture_recognition.dfy | `detect_custom_gesture` and its one- and two-hand classifiers |
| `GestureV03` | gesture_v03.dfy | the older last-write-wins classifier with Medicine, and its sticky banner |
| `WaveDetector` | wave_detector.dfy | `detect_wave` with its two five-sample wrist buffers |
| `HiWave` | hi_wave.dfy | the Hi/Stop script: buffers, still counters and the banner |
| `InteractionFlow` | interaction_flow.dfy | `AppState`, the registration trigger, the registration and start waves, the status panel |
| `Session` | session.dfy | one iteration of the main loop, and runs of iterations |
| `Text` | text.dfy | `str.strip()`, ASCII `lower` and `capitalize` |
| `Roles` | roles.dfy | `get_user_role` |
| `Conversation` | conversation.dfy | `greet_user_by_role`, the hour-to-period map, the `%I:%M %p` time text |
| `Subtitles` | subtitles.dfy | `update_subtitle` and `get_current_subtitle` |

Facts about the code that the model keeps as written:

- The cover-eyes radius is 60 pixels.
- The thumb tests compare the tip with joint 3 with no margin.
- In `_detect_one_hand` a hand with every finger strictly folded is already
  Thumbs_Down. Fist is returned only when some tip and reference joint share
  a y coordinate.
- The main loop commits a gesture on the first frame that shows it, with no
  debounce over frames, and it has no rule that turns a still hand into Stop.
- The relaunch branch at the top of the outer loop can never fire, because
  it tests a freshly built `AppState`.
- `detect_wave`'s buffers are module state, so they survive an interaction
  restart.

## Model

| member | source | states |
|---|---|---|
| Landmarks.Marks | app/gesture_recognition.py:48-56 | the landmark list of each detected hand, in detection order, with landmark id as position |
| Landmarks.AnyNearExists | app/gesture_recognition.py:106-110 | the loop over ear points finds a point within the radius exactly when one exists |
| Landmarks.AnyPairNearExists | app/gesture_recognition.py:118-125 | the nested tip/eye loops succeed exactly when some tip is within the radius of some eye point |
| Landmarks.NearSymmetric | app/gesture_recognition.py:133-135 | the distance test does not depend on the order of the two points |
| Landmarks.CountClosePairs | app/gesture_recognition.py:139-146 | the nested counting loop returns the number of tip pairs closer than the radius, at most the product of the list lengths |
| Landmarks.FingersByHeight | app/gesture_recognition.py:66-70 | five flags: thumb tip above joint 3, each other tip above the joint two below it |
| Landmarks.FingersBySide | app/hi_wave_detector.py:29-37 | five flags: the thumb compares x against joint 3, in a direction set by handedness; the others compare y |
| Landmarks.OpenPalmIff | app/hi_wave_detector.py:29-39 | all five fingers count as extended exactly when the thumb is out and the four tips are above their joints |
| GestureRecognition.DetectOneHand | app/gesture_recognition.py:65-112 | a one-hand result is always one of the one-hand labels |
| GestureRecognition.ThumbsUpIff | app/gesture_recognition.py:72-74 | Thumbs_Up exactly when the thumb tip is above joint 3 and all four other tips are below their joints |
| GestureRecognition.AllFoldedIsThumbsDown | app/gesture_recognition.py:76-78 | thumb tip below joint 3 with all other tips folded always gives Thumbs_Down |
| GestureRecognition.FistNeedsTie | app/gesture_recognition.py:67-81 | Fist is returned only when some tip and reference joint share a y coordinate |
| GestureRecognition.PeaceIff | app/gesture_recognition.py:82-83 | Peace exactly when the thumb is not up and exactly the index and middle fingers are extended |
| GestureRecognition.StopIff | app/gesture_recognition.py:84-85 | Stop exactly when all five fingers are extended |
| GestureRecognition.EatIff | app/gesture_recognition.py:90-97 | Eat exactly when 1 to 4 fingers are up, there is a mouth point, the index and middle tips are within 40, their midpoint is below the mouth and within 100 of it |
| GestureRecognition.SilenceIff | app/gesture_recognition.py:99-103 | Silence exactly when the hand is partial, there is a mouth point, Eat does not hold and the index tip is within 40 of the mouth |
| GestureRecognition.CantHearIff | app/gesture_recognition.py:105-110 | Can't hear exactly when the hand is partial, neither mouth gesture holds, and the index tip is within 40 of some ear point |
| GestureRecognition.FaceGesturesNeedPartialHand | app/gesture_recognition.py:80-112 | Eat, Silence and Can't hear are never returned with 0 or 5 fingers extended |
| GestureRecognition.DetectTwoHands | app/gesture_recognition.py:114-154 | a two-hand result is never a one-hand label |
| GestureRecognition.CoverEyesIff | app/gesture_recognition.py:115-125 | Cover_eyes exactly when some hand-1 tip is within 60 of a left-eye point and some hand-2 tip is within 60 of a right-eye point |
| GestureRecognition.HeartIff | app/gesture_recognition.py:127-136 | Heart exactly when it is not Cover_eyes and both the thumb tips and the pinky tips are within 60; the pose is symmetric in hand order |
| GestureRecognition.ClapIff | app/gesture_recognition.py:138-152 | Clap exactly when neither earlier gesture holds, the wrists are within 80, and at least 3 of the 9 tip pairs are within 50 |
| GestureRecognition.DetectCustomGesture | app/gesture_recognition.py:58-63 | no hands or more than two gives no gesture; one hand gives a one-hand label and two hands a two-hand label |
| GestureRecognition.FaceFieldsConsulted | app/gesture_recognition.py:58-63 | one hand reads only the mouth and ears, two hands only the eyes |
| GestureV03.BaseLabelIff | app/gesture_v0.3.py:75-93 | Fist, Peace and Stop each hold exactly for their finger pattern |
| GestureV03.OneHandPriority | app/gesture_v0.3.py:95-131 | last write wins: right ear, then left ear, then Eat, then Shhh, then the base label |
| GestureV03.LowestIndex | app/gesture_v0.3.py:156 | `max` by y returns the first landmark of greatest y |
| GestureV03.TwoHands | app/gesture_v0.3.py:137-179 | Heart exactly on the heart pose; Medicine exactly when no heart and hand 1's lowest landmark is within 60 of one of hand 2's index, middle or ring tips |
| GestureV03.Classify | app/gesture_v0.3.py:68-133 | no hands or more than two classify to nothing; one hand gets the one-hand chain, which never gives Heart or Medicine; two hands get the two-hand test, which gives only Heart or Medicine |
| GestureV03.Step | app/gesture_v0.3.py:181-185 | the banner becomes "No Hand Detected" without hands, follows a recognised gesture, and otherwise stays |
| GestureV03.BannerSticky | app/gesture_v0.3.py:181-182 | a frame with hands but no gesture keeps the previous gesture on the banner |
| WaveDetector.Push | app/hi_wave_detector.py:8 | a `deque(maxlen=5)` append: the new sample is last and the length is capped at five |
| WaveDetector.PushAllKeepsLastFive | app/hi_wave_detector.py:41-44 | after any series of appends the buffer holds exactly the last five samples (or all of them) |
| WaveDetector.Max | app/hi_wave_detector.py:49 | the maximum is an element and bounds every element |
| WaveDetector.Min | app/hi_wave_detector.py:49 | the minimum is an element and is bounded by every element |
| WaveDetector.DetectWave | app/hi_wave_detector.py:11-58 | no hands leave the buffers alone; the result is a hit on slot 0 or slot 1; each processed slot receives its wrist x; a hit on slot 0 stops slot 1 from being processed; a hit needs a full buffer |
| WaveDetector.DetectWaveMeaning | app/hi_wave_detector.py:27-56 | a wave is reported exactly when one of the first two hands has an open palm and a wrist swing of more than a twentieth of its height |
| WaveDetector.Run | app/hi_wave_detector.py:11-58 | one answer per call over a series of calls |
| WaveDetector.RunIsSuccessiveCalls | app/hi_wave_detector.py:8-58 | answer i of a series is `detect_wave` on frame i with the buffers the first i calls left, since the buffers are shared module state |
| WaveDetector.NoWaveWhileFilling | app/hi_wave_detector.py:46-47 | no wave while both buffers are short of five samples |
| WaveDetector.FirstFourCallsNeverWave | app/hi_wave_detector.py:8-47 | the first four calls from empty buffers never report a wave |
| HiWave.HandStep | app/hi_wave.py:35-95 | one hand: its wrist sample, its still counter (+1 on a still open palm, else 0), the gesture variable and the banner |
| HiWave.HiFrame | app/hi_wave.py:28-100 | corrected frame: no hands clears both slots and blanks the banner; processed slots get their samples and still counters |
| HiWave.FrameBanner | app/hi_wave.py:94-95 | the corrected banner shows the gesture of the last hand that made one, with that hand's side, and otherwise stays; so it changes only to a gesture some hand made |
| HiWave.FrameAsWrittenBanner | app/hi_wave.py:28-95 | the script as written updates buffers and still counters exactly as the corrected frame does, but shows hand 0's gesture with the last hand's side when hand 1 makes none |
| HiWave.FrameIsLoopPerHand | app/hi_wave.py:28-95 | the corrected frame is the loop with the gesture reset before each hand |
| HiWave.OwnGestureMeaning | app/hi_wave.py:69-90 | Hi exactly on an open palm with a full waving buffer; Stop exactly on an open palm that is not waving with the still counter reaching 40 or more |
| HiWave.NoStopTooEarly | app/hi_wave.py:87-92 | in the corrected script, Stop cannot appear before some slot has counted 40 still frames |
| HiWave.StopNeedsFortyFrames | app/hi_wave.py:12-90 | from the start, fewer than 40 frames of the corrected script never show Stop |
| HiWave.NoStopTooEarlyAsWritten | app/hi_wave.py:28-95 | the script as written cannot show Stop before some slot has counted 40 still frames either |
| HiWave.StopNeedsFortyFramesAsWritten | app/hi_wave.py:12-95 | from the start, fewer than 40 frames of the script as written never show Stop |
| HiWave.AsWrittenNamesIdleHand | app/hi_wave.py:28-95 | a concrete frame on which the code as written labels Hi with the idle second hand, while the corrected frame names the waving hand |
| InteractionFlow.NewAppState | main.py:42-48 | a fresh flag record has every flag false |
| InteractionFlow.CheckForRegistrationTrigger | app/interaction_flow.py:24-33 | clears the timer and awaiting_wave outside the condition, starts the timer on the first frame, raises awaiting_wave strictly past the timeout, and changes no other flag |
| InteractionFlow.AwaitingAfterTimeout | app/interaction_flow.py:24-33 | while an unknown face stays alone the timer holds the first frame's time, and awaiting_wave holds exactly when the latest frame is strictly more than the timeout after it |
| InteractionFlow.CheckWaveAndStartRegistration | app/interaction_flow.py:36-47 | without awaiting_wave the detector is not called and nothing changes; otherwise a wave sets the prompt and registration flags, clears awaiting_wave and spawns registration |
| InteractionFlow.RunRegistrationFlow | app/interaction_flow.py:50-55 | only request_restart changes, to true |
| InteractionFlow.FirstRecognized | app/interaction_flow.py:64-67 | the name of the first recognized face in list order, or none exactly when no face is recognized |
| InteractionFlow.StartInteractionIfWave | app/interaction_flow.py:58-69 | on a wave: started, start time now, greet the first recognized face; otherwise the flag is kept and no start time is given |
| InteractionFlow.DrawInteractionStatus | app/interaction_flow.py:72-104 | Speaking during the wave message, Running once gestures are live, never both; idle only while running with no gesture on show; the typing prompt exactly when flagged |
| Session.NewSession | main.py:52-77 | a new session: no restart request, nothing started, no timers, the wave buffers carried over |
| Session.RelaunchBranchIsDead | main.py:52-58 | the relaunch test after building a fresh state is always false |
| Session.FaceScans | main.py:101-102 | both scans are false on an empty list, both can hold at once, and "recognized" agrees with the first-recognized search |
| Session.Before | main.py:86-125 | frame count and face refresh, registration timer and wave, start wave only while recognized and not started, idle animation and status panel |
| Session.GestureStage | main.py:128-160 | the commit rule, the goodbye wave looked for only without a gesture, the hold timer and the gesture animation |
| Session.StepOn | main.py:86-151 | one loop iteration given the frame's gesture label: restart exactly on request; the session invariant is kept; a goodbye needs a started interaction past the start delay, no gesture, a wave timer at least 1.8 seconds old, and this frame's own `detect_wave` returning true |
| Session.StepCountsAndGate | main.py:94-128 | the frame is counted, faces are refreshed on every third frame, and gestures are read exactly when the interaction has started and the start delay has passed |
| Session.StepWaveTimer | main.py:136-151 | the goodbye wave is looked for exactly on gesture frames without a label; without a wave the timer is reset; a wave starts the timer or keeps a timer younger than 1.8 seconds |
| Session.StepTimer | main.py:136-151 | a wave timer a step newly sets was set by that step's own wave at its own time, and a goodbye needs the running timer to be 1.8 seconds old |
| Session.StepCommits | main.py:131-134 | a label commits exactly when gestures are read, it is not none, and it differs from the last one or the display window has passed; it then becomes the last gesture at this time, and otherwise both are kept |
| Session.StepStarts | main.py:111-114 | started stays started with the same start time; the interaction starts only with a recognized face, sets the start time to now and greets the first recognized face; a greeting happens only on the starting frame |
| Session.StepDisplayAndFlags | main.py:116-160 | idle animation exactly when not started, not registering and no gesture on show; gesture animation exactly while the last label is fresh on a gesture frame; the status panel; only the registration hand-off changes flags; start and registration or goodbye waves are never both looked for |
| Session.Step | main.py:128-151 | with the frame's own label: a goodbye frame shows no gesture and has a started interaction, and a committed label is the frame's label |
| Session.Join | app/interaction_flow.py:50-55 | a finished registration thread asks for a restart exactly when one is running, and changes nothing else |
| Session.RunOn | main.py:85-151 | a run given the labels starts with the first frame's step and stops before the end of input only at a restart or a goodbye |
| Session.RunOnNext | main.py:85-151 | each later outcome is the step from the session the previous one left, after the registration thread's check |
| Session.Labels | main.py:129 | one classifier label per frame |
| Session.Run | main.py:85-151 | a run with the frames' own labels starts with the first frame's step and stops before the end of input only at a restart or a goodbye |
| Session.HeldSinceStep | main.py:136-151 | if the rest of a run ends in a goodbye on a waving frame measured from an earlier waving frame, so does the run with one more step in front |
| Session.RunTimerChain | main.py:136-151 | every run, whatever its labels, keeps the timer discipline of each of its steps |
| Session.ChainHeldSince | main.py:136-151 | a chain of steps that keeps the timer discipline and ends in a goodbye ends on a waving frame measured from a waving frame at least 1.8 seconds earlier, or from a timer already that old |
| Session.GoodbyeHeldSince | main.py:136-151 | whatever labels the classifier gives, the goodbye frame waves, and it is preceded by a waving frame at least 1.8 seconds earlier or by a wave timer already running that long |
| Session.ClosingNeedsTwoWavingFrames | main.py:136-151 | from a new session, a goodbye frame waves and needs an earlier waving frame at least 1.8 seconds before it: two waving frames |
| Session.StepReg | main.py:86-125 | a step restarts only on a pending request or a finished running thread; a continuing step leaves no request, and a registration in progress only if one was running or the frame spawned it |
| Session.RunRegChain | main.py:85-125 | every run keeps that restart discipline at each step |
| Session.ChainRestart | main.py:85-125 | a chain of steps that keeps the restart discipline and ends in a restart ends on a finished thread that was running or was spawned by an earlier frame |
| Session.RestartNeedsRegistration | app/interaction_flow.py:36-55 | from a new session, the loop restarts only on a frame where the registration thread has finished, after an earlier frame spawned it |
| Session.SpawnedRegistrationRestarts | app/interaction_flow.py:36-55 | once a frame spawns registration, the next frame on which the thread has finished ends the loop with a restart |
| Session.CommitWindow | main.py:131-160 | a committed gesture is animated at once, and the same label recommits only after the display window |
| Text.Capitalize | app/conversation_manager.py:15 | first character upper case, the rest lower case |
| Text.Strip | app/role_identifier.py:14 | `strip()` keeps a slice with whitespace outside it and a non-space at each end |
| Text.StripUnique | app/role_identifier.py:14 | that description fixes the stripped string |
| Text.StripPadding | app/role_identifier.py:14 | surrounding whitespace never reaches the result |
| Text.StripIdempotent | app/role_identifier.py:14 | stripping twice is stripping once |
| Text.LowerStrip | app/role_identifier.py:14 | lower-casing and stripping commute |
| Roles.Lookup | app/role_identifier.py:15 | `dict.get` finds the first entry with the key, and nothing exactly when the key is absent |
| Roles.Key | app/role_identifier.py:14 | the normalised key is no longer than the name and has no upper-case letter |
| Roles.GetUserRole | app/role_identifier.py:3-15 | the stored role for the normalised key, or "Unknown role" when it is absent |
| Roles.RoleIgnoresPadding | app/role_identifier.py:14-15 | names differing only in surrounding whitespace get the same role |
| Roles.RoleIgnoresCase | app/role_identifier.py:14-15 | names differing only in letter case get the same role |
| Roles.StoredNameFound | app/role_identifier.py:14-15 | a stored key, in any case and padding, finds its stored role |
| Roles.WordKey | app/role_identifier.py:14 | a name without upper-case letters or surrounding whitespace is its own key |
| Roles.ExampleLucia | app/role_identifier.py:18-22 | "Lucia" is an elderly user in the default table |
| Roles.ExampleNurse | app/role_identifier.py:18-22 | "nurse_ana" is a caregiver in the default table |
| Roles.ExampleUnknown | app/role_identifier.py:18-22 | "random_guy" has the unknown role in the default table |
| Conversation.Period | app/conversation_manager.py:29-35 | morning exactly for hours 5 to 11, afternoon for 12 to 17, evening otherwise |
| Conversation.TwoDigits | app/conversation_manager.py:37 | two decimal digits whose value is the number |
| Conversation.Hour12 | app/conversation_manager.py:37 | `%I`: an hour from 1 to 12 congruent to the 24-hour hour modulo 12 |
| Conversation.LStripZeros | app/conversation_manager.py:37 | `lstrip("0")`: a suffix, with only zeros removed and no leading zero left |
| Conversation.TimeTextShape | app/conversation_manager.py:37-38 | the spoken time is the hour without a leading zero, a colon, two minute digits, a space and "am"/"pm" |
| Conversation.TimeTextRoundTrip | app/conversation_manager.py:37-38 | the spoken time parses back to the clock time |
| Conversation.TimeTextInjective | app/conversation_manager.py:37-38 | different clock times are spoken differently |
| Conversation.PeriodAgreesWithMeridiem | app/conversation_manager.py:29-38 | a morning visit is spoken with "am" and an afternoon visit with "pm" |
| Conversation.ShapeMeridiem | app/conversation_manager.py:29-38 | any string of the spoken-time shape ends in "am" for a morning hour and "pm" for an afternoon hour |
| Conversation.FirstElderly | app/conversation_manager.py:24-26 | the first elderly user in table order, or none exactly when there is none |
| Conversation.LastSeenSentence | app/conversation_manager.py:23-38 | the last-seen sentence appears exactly when an elderly user exists and has a last visit, and names that user, the period and the time |
| Conversation.GreetUserByRole | app/conversation_manager.py:13-51 | the visit is logged after the first-visit test; every message ends with the gesture prompt; the message per role: welcome back, first visit, last-seen sentence, or the base greeting |
| Conversation.SecondGreetingWelcomesBack | app/conversation_manager.py:17-45 | greeting an elderly user twice welcomes them back the second time |
| Subtitles.Update | app/subtitle_manager.py:8-14 | the text and the timestamp are replaced |
| Subtitles.Current | app/subtitle_manager.py:16-23 | the text exactly while younger than ten seconds, the empty string after |
| Subtitles.InitialIsBlank | app/subtitle_manager.py:4-23 | the initial state shows nothing at any time |
| Subtitles.ShownForDuration | app/subtitle_manager.py:12-23 | an update is shown exactly until ten seconds have passed |
| Subtitles.LatestUpdateWins | app/subtitle_manager.py:8-14 | a later update erases the earlier one |
| Subtitles.StaysBlank | app/subtitle_manager.py:21-23 | once expired, a subtitle stays blank at every later time |

## Left out

- Camera capture, MediaPipe hand and face-mesh inference, and insightface matching are left out. Landmarks arrive as integer points; face verdicts arrive as (name, recognized) records.
- The `int(lm.x * w)` pixel conversion is left out: points are already integer pixels.
- The floating-point rounding of `math.hypot` is not modelled. Distances are compared exactly on squared integers.
- All cv2 drawing, windows, text placement and animation blending are left out. The model records which overlays are selected.
- Speech and thread scheduling are left out. The greeting's text is returned. Spawning the registration thread is an output flag, and its return is an input flag (`registrationDone`) checked at the top of each iteration.
- `handle_new_user_registration`'s console input and image writes are left out. Only its effect on the flags is kept.
- The JSON visit log and role database are inputs: a set of names visited today, a map to last visits, and the role table.
- `get_last_visit` is imported by app/conversation_manager.py but defined in no file shown. It is an input map from lower-case name to clock time.
- Case mapping covers ASCII letters only. Python's full Unicode `lower` and `capitalize` are not modelled.
- The four durations main.py imports from its configuration are not defined in the configuration file shown. They are positive parameters (`Config`).
- Hand landmarks without a handedness list cannot be represented. Each detected hand carries its handedness.
- `detect_wave` and `detect_custom_gesture` each run their own inference on the same frame. The model gives both the same hands.
- `handle_goodbye_wave` in app/interaction_flow.py is never called by main.py, so it is left out.
- `still_counters` in app/hi_wave_detector.py is never read or written, so it is left out.
- The `q` key, a failed camera read, a camera that does not open, and the process relaunch and `sys.exit` are left out. A goodbye is a terminal outcome.
- main_dumb.py, the dumb registration and the data-analysis scripts are not part of this model.

## Findings

| source | as written | input that shows it | evidently intended | confidence | as-written member | corrected member |
|---|---|---|---|---|---|---|
| app/hi_wave.py:28-95 | `gesture` is reset once per frame, not per hand. The second hand's iteration sees the first hand's label and writes it into the banner with the second hand's handedness. | Two hands. Hand 0 is an open right hand whose fifth wrist sample completes a waving buffer. Hand 1 is a closed left hand. The banner reads "Hi (Left Hand)". | The banner names the hand that made the gesture: "Hi (Right Hand)" | not executed | HiWave.AsWrittenNamesIdleHand | HiWave.FrameBanner |
