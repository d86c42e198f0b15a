/** The main application's per-frame step: face verdicts every third frame,
    the registration trigger, the start wave, the status panel, gesture
    commits, and the goodbye wave that ends the program. One `Session`
    holds the inner loop's local variables plus the wave detector's slot
    buffers, which outlive a restart. */
module Session {
  import opened Landmarks
  import opened WaveDetector
  import opened GestureRecognition
  import opened InteractionFlow

  /** How long a goodbye wave must be held, in seconds. */
  const RequiredWaveDuration: real := 1.8

  datatype Session = Session(
    app: AppState,
    frameCount: nat,
    faces: seq<FaceVerdict>,
    started: bool,
    startTime: Option<real>,
    unrecognizedStart: Option<real>,
    lastGesture: Option<Gesture>,
    gestureLastTime: real,
    waveStart: Option<real>,
    waves: Buffers)

  /** The interaction has a start time exactly when it has started. */
  predicate Inv(s: Session)
  {
    s.started <==> s.startTime.Some?
  }

  /** The variables set up before the inner loop, on a fresh flag record.
      The wave buffers are the detector's module state and carry over. */
  function NewSession(now: real, waves: Buffers): (s: Session)
    ensures Inv(s)
    ensures !s.app.requestRestart && !s.app.awaitingWave && !s.app.registrationInProgress
    ensures s.frameCount == 0 && s.faces == [] && !s.started
    ensures s.lastGesture.None? && s.waveStart.None? && s.unrecognizedStart.None?
    ensures s.waves == waves
  {
    Session(NewAppState(now), 0, [], false, None, None, None, 0.0, None, waves)
  }

  /** A restart leaves the inner loop and builds a fresh session; the new
      flag record never asks for a restart, so the relaunch branch right
      after it is dead. */
  lemma RelaunchBranchIsDead(now: real, waves: Buffers)
    ensures !NewSession(now, waves).app.requestRestart
    ensures NewSession(now, waves).waves == waves
  {
  }

  predicate AnyRecognized(faces: seq<FaceVerdict>)
  {
    exists i :: 0 <= i < |faces| && faces[i].recognized
  }

  predicate AnyUnrecognized(faces: seq<FaceVerdict>)
  {
    exists i :: 0 <= i < |faces| && !faces[i].recognized
  }

  /** Both scans are false on an empty list, both can hold at once, and a
      recognized face is exactly what the greeting needs. */
  lemma FaceScans(faces: seq<FaceVerdict>)
    ensures faces == [] ==> !AnyRecognized(faces) && !AnyUnrecognized(faces)
    ensures faces == [FaceVerdict("ana", true), FaceVerdict("", false)] ==>
              AnyRecognized(faces) && AnyUnrecognized(faces)
    ensures AnyRecognized(faces) <==> FirstRecognized(faces).Some?
  {
    if faces == [FaceVerdict("ana", true), FaceVerdict("", false)] {
      assert faces[0].recognized && !faces[1].recognized;
    }
  }

  /** Which `detect_wave` calls the frame made. */
  datatype WaveCalls = WaveCalls(registration: bool, start: bool, goodbye: bool)

  /** What one frame asks of the display and the speaker. */
  datatype Output = Output(
    idleAnimation: bool,
    status: Status,
    gestureAnimation: bool,
    greet: Option<string>,
    registrationSpawned: bool,
    gestureChecked: bool,
    committed: Option<Gesture>,
    calls: WaveCalls,
    goodbyeWave: bool)

  /** The inner loop either stops for a restart, goes on, or says goodbye
      and exits; the closing frame still reports what it did. */
  datatype Outcome = Restart | Continue(next: Session, out: Output) | Goodbye(out: Output)

  /** The face list in use in frame `count`. */
  function Faces(count: nat, previous: seq<FaceVerdict>, detected: seq<FaceVerdict>): seq<FaceVerdict>
  {
    if count % 3 == 0 then detected else previous
  }

  /** Everything a frame does before the gesture stage: face refresh,
      registration trigger and wave, start wave, idle animation, panel. */
  datatype Prelude = Prelude(base: Session, out: Output)

  function Before(cfg: Config, s: Session, now: real, frame: Frame, detected: seq<FaceVerdict>)
    : (p: Prelude)
    requires cfg.Valid() && Inv(s)
    ensures Inv(p.base)
    ensures p.base.frameCount == s.frameCount + 1
    ensures p.base.faces == Faces(s.frameCount + 1, s.faces, detected)
    ensures s.started ==> p.base.started && p.base.startTime == s.startTime && !p.out.calls.start
    ensures !s.started && p.base.started ==>
              p.out.calls.start && p.base.startTime == Some(now)
              && AnyRecognized(p.base.faces) && p.out.greet == FirstRecognized(p.base.faces)
              && p.out.greet.Some?
    ensures p.out.greet.Some? ==> !s.started && p.base.started
    ensures p.out.calls.start ==> AnyRecognized(p.base.faces) && !s.started
    ensures p.out.calls.registration ==> !AnyRecognized(p.base.faces)
    // The gesture and goodbye state is left for the gesture stage.
    ensures p.base.lastGesture == s.lastGesture && p.base.gestureLastTime == s.gestureLastTime
    ensures p.base.waveStart == s.waveStart
    ensures !p.out.gestureChecked && p.out.committed.None? && !p.out.gestureAnimation
    ensures !p.out.calls.goodbye && !p.out.goodbyeWave
    ensures p.out.idleAnimation <==>
              !p.base.started && !p.base.app.registrationInProgress
              && (s.lastGesture.None? || now - s.gestureLastTime >= cfg.gestureDisplay)
    ensures p.out.status == DrawInteractionStatus(cfg, now, p.base.startTime, s.lastGesture,
                                                  s.gestureLastTime, p.base.app)
    ensures !p.out.registrationSpawned ==> p.base.app.(awaitingWave := s.app.awaitingWave) == s.app
    ensures p.out.registrationSpawned ==>
              p.base.app.showTypingPrompt && p.base.app.registrationInProgress && !p.base.app.awaitingWave
              && p.out.calls.registration
  {
    var count := s.frameCount + 1;
    var faces := Faces(count, s.faces, detected);
    var recognized := AnyRecognized(faces);
    var (unrec, app1) := CheckForRegistrationTrigger(AnyUnrecognized(faces), recognized, s.app, now,
                                                     s.unrecognizedStart, cfg.recognitionTimeout);
    var reg := CheckWaveAndStartRegistration(app1, s.waves, frame.hands);
    var startCall := recognized && !s.started;
    var st := if startCall then StartInteractionIfWave(faces, s.started, now, reg.waves, frame.hands)
              else Start(s.started, s.startTime, None, reg.waves);
    var idle := !st.started && !reg.state.registrationInProgress
                && (s.lastGesture.None? || now - s.gestureLastTime >= cfg.gestureDisplay);
    var status := DrawInteractionStatus(cfg, now, st.startTime, s.lastGesture, s.gestureLastTime, reg.state);
    FaceScans(faces);
    Prelude(s.(app := reg.state, frameCount := count, faces := faces, started := st.started,
               startTime := st.startTime, unrecognizedStart := unrec, waves := st.waves),
            Output(idle, status, false, st.greet, reg.spawned, false, None,
                   WaveCalls(app1.awaitingWave, startCall, false), false))
  }

  /** What the gesture stage decides. */
  datatype GestureResult = GestureResult(
    lastGesture: Option<Gesture>,
    gestureLastTime: real,
    waveStart: Option<real>,
    waves: Buffers,
    committed: Option<Gesture>,
    animation: bool,
    goodbyeCall: bool,
    goodbyeWave: bool,
    goodbye: bool)

  /** The gesture stage, run once the interaction is older than the gesture
      start delay, given the frame's gesture label `g`: commit it, or else
      time the goodbye wave. */
  function GestureStage(cfg: Config, lastGesture: Option<Gesture>, gestureLastTime: real,
                        waveStart: Option<real>, waves: Buffers, now: real, g: Option<Gesture>,
                        hands: seq<TrackedHand>): (r: GestureResult)
    requires cfg.Valid()
    // Commit rule.
    ensures r.committed.Some? <==>
              g.Some? && (g != lastGesture || now - gestureLastTime > cfg.gestureDisplay)
    ensures r.committed.Some? ==> r.committed == g && r.lastGesture == g && r.gestureLastTime == now
    ensures r.committed.None? ==> r.lastGesture == lastGesture && r.gestureLastTime == gestureLastTime
    // The goodbye wave is looked for only when no gesture was seen.
    ensures r.goodbyeCall <==> g.None?
    ensures !r.goodbyeCall ==> !r.goodbyeWave && !r.goodbye && r.waveStart == waveStart && r.waves == waves
    ensures r.goodbyeCall ==> r.goodbyeWave == DetectWave(waves, hands).0
                              && r.waves == DetectWave(waves, hands).1
    ensures r.goodbyeCall && !r.goodbyeWave ==> r.waveStart.None? && !r.goodbye
    // A waving frame starts the timer, or closes once the hold is long enough.
    ensures r.goodbyeWave && waveStart.None? ==> r.waveStart == Some(now) && !r.goodbye
    ensures r.goodbyeWave && waveStart.Some? ==>
              r.waveStart == waveStart && (r.goodbye <==> now - waveStart.value >= RequiredWaveDuration)
    ensures r.goodbye ==> r.goodbyeWave
    ensures r.animation <==> r.lastGesture.Some? && now - r.gestureLastTime < cfg.gestureDisplay
  {
    if g.Some? && (g != lastGesture || now - gestureLastTime > cfg.gestureDisplay) then
      GestureResult(g, now, waveStart, waves, g, true, false, false, false)
    else
      var shown := lastGesture.Some? && now - gestureLastTime < cfg.gestureDisplay;
      if g.Some? then
        GestureResult(lastGesture, gestureLastTime, waveStart, waves, None, shown, false, false, false)
      else
        var (waved, waves') := DetectWave(waves, hands);
        var start := if !waved then None else if waveStart.None? then Some(now) else waveStart;
        var bye := waved && waveStart.Some? && now - waveStart.value >= RequiredWaveDuration;
        GestureResult(lastGesture, gestureLastTime, start, waves', None, shown, true, waved, bye)
  }

  /** One pass of the inner loop at time `now`, with this frame's hands and
      face, the face matcher's verdicts (used only on every third frame) and
      `g`, the label the gesture classifier gives this frame (`Step` below
      supplies it). */
  function StepOn(cfg: Config, s: Session, now: real, frame: Frame, detected: seq<FaceVerdict>,
                  g: Option<Gesture>): (o: Outcome)
    requires cfg.Valid() && Inv(s)
    ensures o.Restart? <==> s.app.requestRestart
    ensures o.Continue? ==> Inv(o.next)
    // Goodbye: this frame's own goodbye wave, held since a timer at least
    // 1.8 s old.
    ensures o.Goodbye? ==>
              s.started && s.waveStart.Some? && now - s.waveStart.value >= RequiredWaveDuration
              && now - s.startTime.value >= cfg.gestureStartDelay
              && g.None?
              && o.out.calls.goodbye && o.out.goodbyeWave
              && DetectWave(Before(cfg, s, now, frame, detected).base.waves, frame.hands).0
  {
    if s.app.requestRestart then Restart
    else
      var p := Before(cfg, s, now, frame, detected);
      if p.base.started && now - p.base.startTime.value >= cfg.gestureStartDelay then
        var b := p.base;
        var r := GestureStage(cfg, b.lastGesture, b.gestureLastTime, b.waveStart, b.waves, now,
                              g, frame.hands);
        var out := p.out.(gestureChecked := true, committed := r.committed, gestureAnimation := r.animation,
                          calls := p.out.calls.(goodbye := r.goodbyeCall), goodbyeWave := r.goodbyeWave);
        if r.goodbye then Goodbye(out)
        else
          Continue(b.(lastGesture := r.lastGesture, gestureLastTime := r.gestureLastTime,
                      waveStart := r.waveStart, waves := r.waves), out)
      else Continue(p.base, p.out)
  }

  /** Every continuing step counts the frame and refreshes the faces on
      schedule; gestures are read only once the start delay has passed. */
  lemma StepCountsAndGate(cfg: Config, s: Session, now: real, frame: Frame, detected: seq<FaceVerdict>,
                          g: Option<Gesture>)
    requires cfg.Valid() && Inv(s)
    ensures var o := StepOn(cfg, s, now, frame, detected, g);
            o.Continue? ==>
              && o.next.frameCount == s.frameCount + 1
              && o.next.faces == Faces(s.frameCount + 1, s.faces, detected)
              && (o.out.gestureChecked <==>
                    o.next.started && now - o.next.startTime.value >= cfg.gestureStartDelay)
  {
  }

  /** What one step does to the goodbye timer, on the outcome alone: a
      timer it newly sets was set by its own goodbye wave at its own time,
      and it says goodbye only once the running timer is old enough. */
  predicate TimerStep(s: Session, now: real, o: Outcome)
  {
    && (o.Continue? && o.next.waveStart.Some? && o.next.waveStart != s.waveStart ==>
          o.out.goodbyeWave && o.next.waveStart == Some(now))
    && (o.Goodbye? ==> s.waveStart.Some? && now - s.waveStart.value >= RequiredWaveDuration
                       && o.out.goodbyeWave)
  }

  lemma StepTimer(cfg: Config, s: Session, now: real, frame: Frame, detected: seq<FaceVerdict>,
                  g: Option<Gesture>)
    requires cfg.Valid() && Inv(s)
    ensures TimerStep(s, now, StepOn(cfg, s, now, frame, detected, g))
  {
    StepWaveTimer(cfg, s, now, frame, detected, g);
  }

  /** The goodbye wave is looked for only on started frames with no
      gesture; the wave timer starts on the first waving frame, is kept
      while the wave goes on, and is reset by a frame without one. */
  lemma StepWaveTimer(cfg: Config, s: Session, now: real, frame: Frame, detected: seq<FaceVerdict>,
                      g: Option<Gesture>)
    requires cfg.Valid() && Inv(s)
    ensures var o := StepOn(cfg, s, now, frame, detected, g);
            o.Continue? ==>
              && (o.out.calls.goodbye <==> o.out.gestureChecked && g.None?)
              && (!o.out.calls.goodbye ==> !o.out.goodbyeWave && o.next.waveStart == s.waveStart)
              && (o.out.calls.goodbye && !o.out.goodbyeWave ==> o.next.waveStart.None?)
              && (o.out.goodbyeWave ==>
                    (s.waveStart.None? && o.next.waveStart == Some(now))
                    || (s.waveStart.Some? && o.next.waveStart == s.waveStart
                        && now - s.waveStart.value < RequiredWaveDuration))
  {
  }

  /** The commit rule: a non-None label commits when it differs from the
      last one or comes after the display window, and becomes the last
      gesture with this frame's time. */
  lemma StepCommits(cfg: Config, s: Session, now: real, frame: Frame, detected: seq<FaceVerdict>,
                    g: Option<Gesture>)
    requires cfg.Valid() && Inv(s)
    ensures var o := StepOn(cfg, s, now, frame, detected, g);
            o.Continue? ==>
              && (o.out.committed.Some? <==>
                    o.out.gestureChecked && g.Some?
                    && (g != s.lastGesture || now - s.gestureLastTime > cfg.gestureDisplay))
              && (o.out.committed.Some? ==>
                    o.out.committed == g && o.next.lastGesture == g && o.next.gestureLastTime == now)
              && (o.out.committed.None? ==>
                    o.next.lastGesture == s.lastGesture && o.next.gestureLastTime == s.gestureLastTime)
  {
  }

  /** How a continuing step starts the interaction. */
  lemma StepStarts(cfg: Config, s: Session, now: real, frame: Frame, detected: seq<FaceVerdict>,
                   g: Option<Gesture>)
    requires cfg.Valid() && Inv(s)
    ensures var o := StepOn(cfg, s, now, frame, detected, g);
            o.Continue? ==>
              // Once started, the interaction stays started with the same start time.
              && (s.started ==> o.next.started && o.next.startTime == s.startTime)
              // It starts only on a frame with a recognized face and a start
              // wave, and then greets the first recognized face.
              && (!s.started && o.next.started ==>
                    o.out.calls.start && o.next.startTime == Some(now)
                    && AnyRecognized(o.next.faces) && o.out.greet == FirstRecognized(o.next.faces)
                    && o.out.greet.Some?)
              && (o.out.greet.Some? ==> !s.started && o.next.started)
  {
  }

  /** What a continuing step shows, and which flags it touches. */
  lemma StepDisplayAndFlags(cfg: Config, s: Session, now: real, frame: Frame, detected: seq<FaceVerdict>,
                            g: Option<Gesture>)
    requires cfg.Valid() && Inv(s)
    ensures var o := StepOn(cfg, s, now, frame, detected, g);
            o.Continue? ==>
              // Idle animation: not started, not registering, no gesture on show.
              && (o.out.idleAnimation <==>
                    !o.next.started && !o.next.app.registrationInProgress
                    && (s.lastGesture.None? || now - s.gestureLastTime >= cfg.gestureDisplay))
              // Gesture animation: on a gesture frame, while the last label is fresh.
              && (o.out.gestureAnimation <==>
                    o.out.gestureChecked && o.next.lastGesture.Some?
                    && now - o.next.gestureLastTime < cfg.gestureDisplay)
              && o.out.status == DrawInteractionStatus(cfg, now, o.next.startTime, s.lastGesture,
                                                       s.gestureLastTime, o.next.app)
              // Only the registration hand-off changes the flag record.
              && (!o.out.registrationSpawned ==> o.next.app.(awaitingWave := s.app.awaitingWave) == s.app)
              && (o.out.registrationSpawned ==>
                    o.next.app.showTypingPrompt && o.next.app.registrationInProgress
                    && !o.next.app.awaitingWave && o.out.calls.registration)
              // The registration and start waves are never both looked for,
              // and neither are the start and goodbye waves (a fresh start is
              // younger than the gesture start delay).
              && !(o.out.calls.registration && o.out.calls.start)
              && !(o.out.calls.start && o.out.calls.goodbye)
  {
  }

  /** What `detect_custom_gesture` returns for the frame. */
  function Label(frame: Frame): Option<Gesture>
  {
    DetectCustomGesture(Marks(frame.hands), frame.face)
  }

  /** One pass of the inner loop, with the frame's own gesture label. */
  function Step(cfg: Config, s: Session, now: real, frame: Frame, detected: seq<FaceVerdict>)
    : (o: Outcome)
    requires cfg.Valid() && Inv(s)
    // A frame whose hands make a gesture never closes the program.
    ensures o.Goodbye? ==> Label(frame).None? && s.started
    ensures o.Continue? && o.out.committed.Some? ==> o.out.committed == Label(frame)
  {
    StepOn(cfg, s, now, frame, detected, Label(frame))
  }

  /** One frame's inputs. `registrationDone` says that the registration
      thread, if one is running, finished before this iteration began. */
  datatype Input = Input(now: real, frame: Frame, detected: seq<FaceVerdict>, registrationDone: bool)

  /** The registration thread runs from the frame that spawns it (which
      sets `registration_in_progress`, never cleared in a session) until
      it returns; when it has returned by the top of an iteration, its
      `run_registration_flow` has asked for a restart. */
  function Join(s: Session, done: bool): (s': Session)
    ensures Inv(s') <==> Inv(s)
    ensures s'.app.requestRestart <==> s.app.requestRestart || (done && s.app.registrationInProgress)
    ensures s'.(app := s.app) == s
    ensures !s'.app.requestRestart ==> s' == s
  {
    if done && s.app.registrationInProgress then s.(app := RunRegistrationFlow(s.app)) else s
  }

  /** Successive frames until the loop stops, given each frame's gesture
      label. */
  function RunOn(cfg: Config, s: Session, inputs: seq<Input>, labels: seq<Option<Gesture>>)
    : (r: seq<Outcome>)
    requires cfg.Valid() && Inv(s) && |labels| == |inputs|
    ensures |r| <= |inputs|
    ensures forall i :: 0 <= i < |r| - 1 ==> r[i].Continue?
    // It starts with the first frame's step and stops early only at a
    // restart or a goodbye.
    ensures |inputs| > 0 ==>
              |r| > 0 && r[0] == StepOn(cfg, Join(s, inputs[0].registrationDone), inputs[0].now,
                                        inputs[0].frame, inputs[0].detected, labels[0])
    ensures |r| < |inputs| ==> |r| > 0 && !r[|r| - 1].Continue?
    decreases |inputs|
  {
    if |inputs| == 0 then []
    else
      var o := StepOn(cfg, Join(s, inputs[0].registrationDone), inputs[0].now, inputs[0].frame,
                      inputs[0].detected, labels[0]);
      if o.Continue? then [o] + RunOn(cfg, o.next, inputs[1..], labels[1..]) else [o]
  }

  /** The labels the gesture classifier gives the frames. */
  function Labels(inputs: seq<Input>): (ls: seq<Option<Gesture>>)
    ensures |ls| == |inputs|
  {
    seq(|inputs|, i requires 0 <= i < |inputs| => Label(inputs[i].frame))
  }

  /** Successive frames of the program until the loop stops. */
  function Run(cfg: Config, s: Session, inputs: seq<Input>): (r: seq<Outcome>)
    requires cfg.Valid() && Inv(s)
    ensures |r| <= |inputs|
    ensures forall i :: 0 <= i < |r| - 1 ==> r[i].Continue?
    ensures |inputs| > 0 ==>
              |r| > 0 && r[0] == Step(cfg, Join(s, inputs[0].registrationDone), inputs[0].now,
                                      inputs[0].frame, inputs[0].detected)
    ensures |r| < |inputs| ==> |r| > 0 && !r[|r| - 1].Continue?
  {
    RunOn(cfg, s, inputs, Labels(inputs))
  }

  /** The last of the outcomes `r`, if a goodbye, saw the goodbye wave
      itself, and it is measured from a waving frame: either the session's
      own running timer or an earlier outcome that saw the goodbye wave, at
      least 1.8 s before. */
  predicate HeldSince(s: Session, inputs: seq<Input>, r: seq<Outcome>)
    requires 0 < |r| <= |inputs|
  {
    var k := |r| - 1;
    && (r[k].Goodbye? ==> r[k].out.goodbyeWave)
    && ((s.waveStart.Some? && inputs[k].now - s.waveStart.value >= RequiredWaveDuration)
        || exists j :: 0 <= j < k && r[j].Continue? && r[j].out.goodbyeWave
                       && inputs[k].now - inputs[j].now >= RequiredWaveDuration)
  }

  /** Every step of the outcomes `r` treats the goodbye timer as
      `TimerStep` says, each from the session the step before left. */
  predicate TimerChain(s: Session, inputs: seq<Input>, r: seq<Outcome>)
    requires |r| <= |inputs|
    decreases |r|
  {
    |r| == 0
    || (TimerStep(s, inputs[0].now, r[0])
        && (r[0].Continue? ==> TimerChain(r[0].next, inputs[1..], r[1..])))
  }

  /** Every run keeps the timer discipline of its steps. */
  lemma {:induction false} RunTimerChain(cfg: Config, s: Session, inputs: seq<Input>,
                                         labels: seq<Option<Gesture>>)
    requires cfg.Valid() && Inv(s) && |labels| == |inputs|
    ensures TimerChain(s, inputs, RunOn(cfg, s, inputs, labels))
    decreases |inputs|
  {
    if |inputs| > 0 {
      var r := RunOn(cfg, s, inputs, labels);
      var s0 := Join(s, inputs[0].registrationDone);
      var o := StepOn(cfg, s0, inputs[0].now, inputs[0].frame, inputs[0].detected, labels[0]);
      StepTimer(cfg, s0, inputs[0].now, inputs[0].frame, inputs[0].detected, labels[0]);
      if o.Continue? {
        RunTimerChain(cfg, o.next, inputs[1..], labels[1..]);
        assert r[1..] == RunOn(cfg, o.next, inputs[1..], labels[1..]);
      }
    }
  }

  /** A chain of outcomes that ends in a goodbye is measured from a waving
      frame. */
  lemma {:induction false} ChainHeldSince(s: Session, inputs: seq<Input>, r: seq<Outcome>)
    requires 0 < |r| <= |inputs| && r[|r| - 1].Goodbye?
    requires forall i :: 0 <= i < |r| - 1 ==> r[i].Continue?
    requires TimerChain(s, inputs, r)
    ensures HeldSince(s, inputs, r)
    decreases |r|
  {
    if |r| > 1 {
      var rest := r[1..];
      assert forall i :: 0 <= i < |rest| - 1 ==> rest[i] == r[i + 1];
      ChainHeldSince(r[0].next, inputs[1..], rest);
      assert r == [r[0]] + rest;
      HeldSinceStep(s, r[0], rest, inputs);
    }
  }

  /** The inductive step of `ChainHeldSince`. */
  lemma HeldSinceStep(s: Session, o: Outcome, rest: seq<Outcome>, inputs: seq<Input>)
    requires 0 < |rest| < |inputs| && o.Continue?
    requires TimerStep(s, inputs[0].now, o)
    requires HeldSince(o.next, inputs[1..], rest)
    ensures HeldSince(s, inputs, [o] + rest)
  {
    var r := [o] + rest;
    var k := |r| - 1;
    assert inputs[1..][k - 1] == inputs[k] && rest[k - 1] == r[k];
    if o.next.waveStart.Some? && inputs[k].now - o.next.waveStart.value >= RequiredWaveDuration {
      if o.next.waveStart != s.waveStart {
        assert r[0].out.goodbyeWave && inputs[k].now - inputs[0].now >= RequiredWaveDuration;
      }
    } else {
      var j :| 0 <= j < k - 1 && rest[j].Continue? && rest[j].out.goodbyeWave
               && inputs[1..][k - 1].now - inputs[1..][j].now >= RequiredWaveDuration;
      assert r[j + 1] == rest[j] && inputs[1..][j] == inputs[j + 1];
    }
  }

  /** A goodbye is measured from a waving frame (`HeldSince`). This holds
      whatever labels the classifier gives. */
  lemma GoodbyeHeldSince(cfg: Config, s: Session, inputs: seq<Input>, labels: seq<Option<Gesture>>)
    requires cfg.Valid() && Inv(s) && |labels| == |inputs|
    requires var r := RunOn(cfg, s, inputs, labels); |r| > 0 && r[|r| - 1].Goodbye?
    ensures HeldSince(s, inputs, RunOn(cfg, s, inputs, labels))
  {
    RunTimerChain(cfg, s, inputs, labels);
    ChainHeldSince(s, inputs, RunOn(cfg, s, inputs, labels));
  }

  /** From a fresh session (no running goodbye timer), ending the program
      takes a goodbye wave on an earlier frame at least 1.8 s before the
      closing one, which itself is a waving frame: two waving frames. */
  lemma ClosingNeedsTwoWavingFrames(cfg: Config, now: real, waves: Buffers, inputs: seq<Input>)
    requires cfg.Valid()
    requires |Run(cfg, NewSession(now, waves), inputs)| > 0
    requires var r := Run(cfg, NewSession(now, waves), inputs); r[|r| - 1].Goodbye?
    ensures var r := Run(cfg, NewSession(now, waves), inputs);
            && r[|r| - 1].out.goodbyeWave
            && exists j :: 0 <= j < |r| - 1 && r[j].out.goodbyeWave
                           && inputs[|r| - 1].now - inputs[j].now >= RequiredWaveDuration
  {
    GoodbyeHeldSince(cfg, NewSession(now, waves), inputs, Labels(inputs));
  }

  /** Each later outcome of a run is the step from the session the
      previous one left, after the registration thread's check. */
  lemma {:induction false} RunOnNext(cfg: Config, s: Session, inputs: seq<Input>,
                                     labels: seq<Option<Gesture>>, i: nat)
    requires cfg.Valid() && Inv(s) && |labels| == |inputs|
    requires i + 1 < |RunOn(cfg, s, inputs, labels)|
    ensures var r := RunOn(cfg, s, inputs, labels); Inv(r[i].next)
    ensures var r := RunOn(cfg, s, inputs, labels);
            r[i + 1] == StepOn(cfg, Join(r[i].next, inputs[i + 1].registrationDone), inputs[i + 1].now,
                               inputs[i + 1].frame, inputs[i + 1].detected, labels[i + 1])
    decreases i
  {
    var r := RunOn(cfg, s, inputs, labels);
    var o := r[0];
    var rest := RunOn(cfg, o.next, inputs[1..], labels[1..]);
    assert r == [o] + rest;
    if i > 0 {
      RunOnNext(cfg, o.next, inputs[1..], labels[1..], i - 1);
      assert r[i] == rest[i - 1] && r[i + 1] == rest[i];
      assert inputs[1..][i] == inputs[i + 1] && labels[1..][i] == labels[i + 1];
    } else {
      assert inputs[1..][0] == inputs[1] && labels[1..][0] == labels[1];
    }
  }

  // ---- the registration hand-off ----------------------------------------

  /** What one step, with the thread check `done` in front, does to the
      restart request: it restarts only on a pending request or a finished
      thread, and a continuing step leaves no request and a registration in
      progress only if one was already running or this frame spawned it. */
  predicate RegStep(s: Session, done: bool, o: Outcome)
  {
    && (o.Restart? ==> s.app.requestRestart || (done && s.app.registrationInProgress))
    && (o.Continue? ==>
          && !o.next.app.requestRestart
          && (o.next.app.registrationInProgress ==>
                s.app.registrationInProgress || o.out.registrationSpawned))
  }

  lemma StepReg(cfg: Config, s: Session, done: bool, now: real, frame: Frame, detected: seq<FaceVerdict>,
                g: Option<Gesture>)
    requires cfg.Valid() && Inv(s)
    ensures RegStep(s, done, StepOn(cfg, Join(s, done), now, frame, detected, g))
  {
    StepDisplayAndFlags(cfg, Join(s, done), now, frame, detected, g);
  }

  /** Every step of the outcomes `r` follows `RegStep`. */
  predicate RegChain(s: Session, inputs: seq<Input>, r: seq<Outcome>)
    requires |r| <= |inputs|
    decreases |r|
  {
    |r| == 0
    || (RegStep(s, inputs[0].registrationDone, r[0])
        && (r[0].Continue? ==> RegChain(r[0].next, inputs[1..], r[1..])))
  }

  lemma {:induction false} RunRegChain(cfg: Config, s: Session, inputs: seq<Input>,
                                       labels: seq<Option<Gesture>>)
    requires cfg.Valid() && Inv(s) && |labels| == |inputs|
    ensures RegChain(s, inputs, RunOn(cfg, s, inputs, labels))
    decreases |inputs|
  {
    if |inputs| > 0 {
      var r := RunOn(cfg, s, inputs, labels);
      var s0 := Join(s, inputs[0].registrationDone);
      var o := StepOn(cfg, s0, inputs[0].now, inputs[0].frame, inputs[0].detected, labels[0]);
      StepReg(cfg, s, inputs[0].registrationDone, inputs[0].now, inputs[0].frame, inputs[0].detected,
              labels[0]);
      if o.Continue? {
        RunRegChain(cfg, o.next, inputs[1..], labels[1..]);
        assert r[1..] == RunOn(cfg, o.next, inputs[1..], labels[1..]);
      }
    }
  }

  /** A chain of outcomes that ends in a restart ends on a finished thread
      that was already running or that an earlier frame spawned (or on a
      request pending from the start). */
  lemma {:induction false} ChainRestart(s: Session, inputs: seq<Input>, r: seq<Outcome>)
    requires 0 < |r| <= |inputs| && r[|r| - 1].Restart?
    requires forall i :: 0 <= i < |r| - 1 ==> r[i].Continue?
    requires RegChain(s, inputs, r)
    ensures var k := |r| - 1;
            s.app.requestRestart
            || (inputs[k].registrationDone
                && (s.app.registrationInProgress
                    || exists j :: 0 <= j < k && r[j].Continue? && r[j].out.registrationSpawned))
    decreases |r|
  {
    var k := |r| - 1;
    if |r| > 1 {
      var rest := r[1..];
      assert forall i :: 0 <= i < |rest| - 1 ==> rest[i] == r[i + 1];
      ChainRestart(r[0].next, inputs[1..], rest);
      assert inputs[1..][k - 1] == inputs[k];
      if !r[0].next.app.registrationInProgress {
        var j :| 0 <= j < k - 1 && rest[j].Continue? && rest[j].out.registrationSpawned;
        assert r[j + 1] == rest[j];
      }
    }
  }

  /** From a new session, the inner loop restarts only on a frame where the
      registration thread has finished, and only after an earlier frame
      spawned that thread. */
  lemma RestartNeedsRegistration(cfg: Config, now: real, waves: Buffers, inputs: seq<Input>,
                                 labels: seq<Option<Gesture>>)
    requires cfg.Valid() && |labels| == |inputs|
    requires var r := RunOn(cfg, NewSession(now, waves), inputs, labels); |r| > 0 && r[|r| - 1].Restart?
    ensures var r := RunOn(cfg, NewSession(now, waves), inputs, labels);
            var k := |r| - 1;
            inputs[k].registrationDone
            && exists j :: 0 <= j < k && r[j].Continue? && r[j].out.registrationSpawned
  {
    var s := NewSession(now, waves);
    RunRegChain(cfg, s, inputs, labels);
    ChainRestart(s, inputs, RunOn(cfg, s, inputs, labels));
  }

  /** Conversely, once a frame spawns the registration thread, the first
      later frame on which the thread has finished ends the inner loop
      with a restart. */
  lemma SpawnedRegistrationRestarts(cfg: Config, s: Session, inputs: seq<Input>,
                                    labels: seq<Option<Gesture>>)
    requires cfg.Valid() && Inv(s) && |labels| == |inputs| && |inputs| >= 2
    requires var r := RunOn(cfg, s, inputs, labels); r[0].Continue? && r[0].out.registrationSpawned
    requires inputs[1].registrationDone
    ensures var r := RunOn(cfg, s, inputs, labels); |r| == 2 && r[1] == Restart
  {
    var r := RunOn(cfg, s, inputs, labels);
    var s0 := Join(s, inputs[0].registrationDone);
    StepDisplayAndFlags(cfg, s0, inputs[0].now, inputs[0].frame, inputs[0].detected, labels[0]);
    assert r[0].next.app.registrationInProgress;
    assert inputs[1..][0] == inputs[1];
  }

  /** A gesture just committed is on screen in the same frame, and the same
      label cannot commit again before the display window has passed. */
  lemma CommitWindow(cfg: Config, s: Session, now: real, frame: Frame, detected: seq<FaceVerdict>,
                     g: Option<Gesture>)
    requires cfg.Valid() && Inv(s)
    ensures var o := StepOn(cfg, s, now, frame, detected, g);
            o.Continue? && o.out.committed.Some? ==>
              o.out.gestureAnimation
              && (o.out.committed == s.lastGesture ==> now - s.gestureLastTime > cfg.gestureDisplay)
  {
    StepCommits(cfg, s, now, frame, detected, g);
    StepDisplayAndFlags(cfg, s, now, frame, detected, g);
  }
}
