/** The interaction helpers called once per frame by the main loop: the
    registration trigger for an unknown face, the wave that starts
    registration or an interaction, the background registration's effect on
    the flags, and which overlays the status panel selects. Time is a
    parameter (seconds, as `real`). */
module InteractionFlow {
  import opened Landmarks
  import opened WaveDetector
  import opened GestureRecognition

  /** The shared flag record `AppState`. `idleStartTime` only anchors the
      idle animation. */
  datatype AppState = AppState(showTypingPrompt: bool, registrationInProgress: bool,
                               awaitingWave: bool, requestRestart: bool, idleStartTime: real)

  function NewAppState(now: real): (st: AppState)
    ensures !st.showTypingPrompt && !st.registrationInProgress
    ensures !st.awaitingWave && !st.requestRestart
  {
    AppState(false, false, false, false, now)
  }

  /** The durations imported from the configuration module, all positive. */
  datatype Config = Config(gestureDisplay: real, gestureStartDelay: real,
                           recognitionTimeout: real, waveMessage: real)
  {
    predicate Valid()
    {
      gestureDisplay > 0.0 && gestureStartDelay > 0.0 && recognitionTimeout > 0.0 && waveMessage > 0.0
    }
  }

  /** One face as reported by the face matcher. */
  datatype FaceVerdict = FaceVerdict(name: string, recognized: bool)

  /** An unknown face is the only face kind present and no registration is
      running. */
  predicate UnknownAlone(hasUnrecognized: bool, recognized: bool, st: AppState)
  {
    hasUnrecognized && !recognized && !st.registrationInProgress
  }

  /** `check_for_registration_trigger`: returns the new unrecognized-start
      time and flag record. */
  function CheckForRegistrationTrigger(hasUnrecognized: bool, recognized: bool, st: AppState,
                                       now: real, start: Option<real>, timeout: real)
    : (r: (Option<real>, AppState))
    // Outside the condition the timer is cleared and awaiting_wave drops.
    ensures !UnknownAlone(hasUnrecognized, recognized, st) ==> r == (None, st.(awaitingWave := false))
    // First qualifying frame: start the timer, touch no flag.
    ensures UnknownAlone(hasUnrecognized, recognized, st) && start.None? ==> r == (Some(now), st)
    // Running timer: kept; awaiting_wave raised once strictly past the timeout.
    ensures UnknownAlone(hasUnrecognized, recognized, st) && start.Some? ==>
              r.0 == start &&
              r.1 == if now - start.value > timeout then st.(awaitingWave := true) else st
    // Only awaiting_wave may change.
    ensures r.1.(awaitingWave := st.awaitingWave) == st
    // awaiting_wave after the call implies an unknown face is alone in view.
    ensures r.1.awaitingWave ==> UnknownAlone(hasUnrecognized, recognized, st)
  {
    if UnknownAlone(hasUnrecognized, recognized, st) then
      if start.None? then (Some(now), st)
      else if now - start.value > timeout then (start, st.(awaitingWave := true))
      else (start, st)
    else (None, st.(awaitingWave := false))
  }

  /** Frames in which an unknown face stays alone in view, at the given
      times, starting from a cleared timer. */
  function Unrecognized(st: AppState, times: seq<real>, timeout: real): (r: (Option<real>, AppState))
    decreases |times|
  {
    if |times| == 0 then (None, st)
    else
      var (start, st') := Unrecognized(st, times[..|times| - 1], timeout);
      CheckForRegistrationTrigger(true, false, st', times[|times| - 1], start, timeout)
  }

  predicate Nondecreasing(times: seq<real>)
  {
    forall i, j :: 0 <= i <= j < |times| ==> times[i] <= times[j]
  }

  /** The registration timeout: while an unknown face stays alone, the timer
      holds the first frame's time and awaiting_wave is raised exactly when
      some later frame is strictly more than the timeout past it. */
  lemma {:induction false} AwaitingAfterTimeout(st: AppState, times: seq<real>, timeout: real)
    requires !st.registrationInProgress && !st.awaitingWave
    requires |times| > 0 && Nondecreasing(times)
    ensures Unrecognized(st, times, timeout).0 == Some(times[0])
    ensures Unrecognized(st, times, timeout).1.awaitingWave <==>
            |times| > 1 && times[|times| - 1] - times[0] > timeout
    ensures Unrecognized(st, times, timeout).1.(awaitingWave := false) == st
    decreases |times|
  {
    var n := |times|;
    if n > 1 {
      var prefix := times[..n - 1];
      assert Nondecreasing(prefix);
      AwaitingAfterTimeout(st, prefix, timeout);
      assert prefix[0] == times[0];
      if n > 2 {
        assert prefix[n - 2] - times[0] > timeout ==> times[n - 1] - times[0] > timeout;
      }
    } else {
      assert times[..0] == [];
    }
  }

  datatype Registration = Registration(state: AppState, waves: Buffers, spawned: bool)

  /** `check_wave_and_start_registration`: the wave detector runs only while
      awaiting a wave; a wave flips the three flags and spawns the
      registration task. */
  function CheckWaveAndStartRegistration(st: AppState, waves: Buffers, hands: seq<TrackedHand>)
    : (r: Registration)
    // Not awaiting: the detector is not called, so nothing changes at all.
    ensures !st.awaitingWave ==> r == Registration(st, waves, false)
    // Awaiting: the detector runs once and its buffers are kept.
    ensures st.awaitingWave ==> r.waves == DetectWave(waves, hands).1
    ensures r.spawned <==> st.awaitingWave && DetectWave(waves, hands).0
    ensures r.spawned ==> r.state == st.(showTypingPrompt := true, registrationInProgress := true,
                                         awaitingWave := false)
    ensures !r.spawned ==> r.state == st
  {
    if st.awaitingWave then
      var (waved, waves') := DetectWave(waves, hands);
      if waved then
        Registration(st.(showTypingPrompt := true, registrationInProgress := true, awaitingWave := false),
                     waves', true)
      else Registration(st, waves', false)
    else Registration(st, waves, false)
  }

  /** `run_registration_flow` after the blocking registration returns: it
      asks for a restart and clears nothing. */
  function RunRegistrationFlow(st: AppState): (r: AppState)
    ensures r.requestRestart
    ensures r.registrationInProgress == st.registrationInProgress
    ensures r.showTypingPrompt == st.showTypingPrompt
    ensures r.(requestRestart := st.requestRestart) == st
  {
    st.(requestRestart := true)
  }

  /** Name of the first recognized face in list order. */
  function FirstRecognized(faces: seq<FaceVerdict>): (r: Option<string>)
    ensures r.None? <==> forall i :: 0 <= i < |faces| ==> !faces[i].recognized
    ensures r.Some? ==> exists i :: 0 <= i < |faces| && faces[i].recognized && faces[i].name == r.value
                                    && forall j :: 0 <= j < i ==> !faces[j].recognized
  {
    if |faces| == 0 then None
    else if faces[0].recognized then Some(faces[0].name)
    else
      var r := FirstRecognized(faces[1..]);
      assert forall i :: 1 <= i < |faces| ==> faces[i] == faces[1..][i - 1];
      if r.Some? then
        var i :| 0 <= i < |faces[1..]| && faces[1..][i].recognized && faces[1..][i].name == r.value
                 && forall j :: 0 <= j < i ==> !faces[1..][j].recognized;
        assert faces[i + 1].recognized && faces[i + 1].name == r.value;
        r
      else r
  }

  datatype Start = Start(started: bool, startTime: Option<real>, greet: Option<string>, waves: Buffers)

  /** `start_interaction_if_wave`: on a wave, start now and greet the first
      recognized face; otherwise keep the flag and report no start time. */
  function StartInteractionIfWave(faces: seq<FaceVerdict>, started: bool, now: real,
                                  waves: Buffers, hands: seq<TrackedHand>): (r: Start)
    ensures r.waves == DetectWave(waves, hands).1
    ensures DetectWave(waves, hands).0 ==>
              r.started && r.startTime == Some(now) && r.greet == FirstRecognized(faces)
    ensures !DetectWave(waves, hands).0 ==>
              r.started == started && r.startTime.None? && r.greet.None?
  {
    var (waved, waves') := DetectWave(waves, hands);
    if waved then Start(true, Some(now), FirstRecognized(faces), waves')
    else Start(started, None, None, waves')
  }

  /** Which overlays `draw_interaction_status` puts on the panel. */
  datatype Status = Status(speaking: bool, idleAnimation: bool, running: bool, typingPrompt: bool)

  /** Python truthiness of the start time: `None` and `0.0` are false. */
  predicate Truthy(t: Option<real>)
  {
    t.Some? && t.value != 0.0
  }

  function DrawInteractionStatus(cfg: Config, now: real, startTime: Option<real>,
                                 lastGesture: Option<Gesture>, gestureLastTime: real, st: AppState)
    : (r: Status)
    requires cfg.Valid()
    // "Speaking" during the wave message, "Interaction Running" once gestures
    // are live, never both.
    ensures r.speaking <==> Truthy(startTime) && now - startTime.value < cfg.waveMessage
    ensures r.running <==> Truthy(startTime) && now - startTime.value >= cfg.waveMessage
                           && now - startTime.value >= cfg.gestureStartDelay
    ensures !(r.speaking && r.running)
    // The idle animation here only while running and no gesture is on show.
    ensures r.idleAnimation <==>
              r.running && (lastGesture.None? || now - gestureLastTime >= cfg.gestureDisplay)
    ensures r.typingPrompt <==> st.showTypingPrompt
  {
    if Truthy(startTime) then
      var elapsed := now - startTime.value;
      if elapsed < cfg.waveMessage then Status(true, false, false, st.showTypingPrompt)
      else if elapsed >= cfg.gestureStartDelay then
        Status(false, lastGesture.None? || now - gestureLastTime >= cfg.gestureDisplay, true,
               st.showTypingPrompt)
      else Status(false, false, false, st.showTypingPrompt)
    else Status(false, false, false, st.showTypingPrompt)
  }
}
