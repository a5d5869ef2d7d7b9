/** The recording state of the view controller as a value, and one transition
    function per callback or action of the per-sample recording logic. The
    class in `Controller` is proved to follow these functions step by step. */
module Recorder {
  import opened Media
  import opened Exposure

  /** `bracketMax` and `videoSpoolerUpperTO` as initialised by the view controller;
      neither is assigned anywhere else. */
  const BRACKET_MAX: int := 2
  const SPOOL_THRESHOLD: int := 60

  /** The fields of the view controller that the recording logic reads or writes.
      `bright`/`dim` are `None` until the matching calibration button is pressed;
      `minIso`/`maxIso` are the ISO limits of the device's active format;
      `halted` records that the process has trapped (a nil implicitly unwrapped
      value or an `Int64` overflow), after which it receives no more callbacks. */
  datatype State = State(
    bracketMax: int,
    currentBracket: int,
    bright: Option<Calibration>,
    dim: Option<Calibration>,
    minIso: real,
    maxIso: real,
    videoSpoolerUpper: int,
    videoSpoolerUpperTO: int,
    weAreRecording: bool,
    isWriting: bool,
    firstSample: bool,
    flippingIso: bool,
    droppedFrameCounter: int,
    halted: bool)

  /** The external effects of the recording logic, in the order they are issued:
      exposure programming on the capture device, and the calls on the asset
      writer and its two inputs. */
  datatype Event =
    | SetExposure(duration: CMTime, iso: real)  // setExposureModeCustomWithDuration
    | WriterCreated                             // new AVAssetWriter with video and audio inputs
    | WriterStart                               // videoWriter.startWriting()
    | StartSession(at: CMTime)                  // videoWriter.startSessionAtSourceTime
    | AppendVideo(ts: CMTime)                   // assetWriterVideoInput.appendSampleBuffer
    | AppendAudio                               // assetWriterAudioInput.appendSampleBuffer
    | FinishWriting                             // markAsFinished on both inputs, finishWriting

  /** The state after a transition and the effects it issued. */
  datatype Outcome = Outcome(state: State, events: seq<Event>)

  // ---------------------------------------------------------------- invariant

  /** The bracket index is a valid bracket. */
  predicate BracketInRange(s: State) {
    s.bracketMax >= 1 && 1 <= s.currentBracket <= s.bracketMax
  }

  /** What holds of the fields between any two callbacks, before the last clause:
      counters are non-negative, `flippingISO` and `WeAreRecording` are always set
      and cleared together, and `firstSample` is only set on a writer that (unless
      the process trapped on that very frame) has not counted a video frame yet. */
  predicate FlagInv(s: State) {
    && BracketInRange(s)
    && s.videoSpoolerUpperTO >= 1
    && s.videoSpoolerUpper >= 0
    && s.droppedFrameCounter >= 0
    && s.flippingIso == s.weAreRecording
    && (s.firstSample ==> s.isWriting)
    && (s.firstSample && !s.halted ==> s.videoSpoolerUpper == 0)
  }

  /** The full invariant: in addition, a live recording always has a writer. */
  predicate Inv(s: State) {
    FlagInv(s) && (s.weAreRecording && !s.halted ==> s.isWriting)
  }

  /** Both calibrations are present and the duration arithmetic does not overflow,
      so `isoSwappOMatic` does not trap. */
  predicate Programmable(s: State) {
    && s.bright.Some? && s.dim.Some?
    && InInt64(s.dim.value.duration.value as int - s.bright.value.duration.value as int)
  }

  /** The view controller when the view has loaded: nothing calibrated, not recording. */
  function Initial(minIso: real, maxIso: real): (s: State)
    ensures Inv(s) && !s.halted && !s.isWriting && !s.weAreRecording
    ensures s.bracketMax == BRACKET_MAX && s.videoSpoolerUpperTO == SPOOL_THRESHOLD
  {
    State(BRACKET_MAX, 1, None, None, minIso, maxIso, 0, SPOOL_THRESHOLD,
          false, false, false, false, 0, false)
  }

  // ---------------------------------------------------------------- isoSwappOMatic

  /** The effects of one `isoSwappOMatic` call: nothing, or one exposure request. */
  predicate AtMostOneExposure(ev: seq<Event>) {
    ev == [] || (|ev| == 1 && ev[0].SetExposure?)
  }

  /** `isoSwappOMatic`: computes the exposure of the current bracket, programs it
      when the device could be locked for configuration, and advances the bracket.
      Traps (and changes nothing else) when a calibration is missing or the
      duration arithmetic overflows. */
  function IsoSwap(s: State, deviceLocked: bool): (o: Outcome)
    requires BracketInRange(s) && !s.halted
    ensures BracketInRange(o.state)
    ensures o.state.halted <==> !Programmable(s)
    ensures o.state.(currentBracket := s.currentBracket, halted := false) == s
    ensures !o.state.halted ==> o.state.currentBracket == s.currentBracket % s.bracketMax + 1
    ensures o.state.halted ==> o.state.currentBracket == s.currentBracket && o.events == []
    ensures !o.state.halted ==> |o.events| == (if deviceLocked then 1 else 0)
    ensures AtMostOneExposure(o.events)
    ensures !o.state.halted ==>
      var e := ProgrammedExposure(s.bright.value, s.dim.value, s.bracketMax, s.currentBracket, s.minIso, s.maxIso);
      e.Some? && o.events == (if deviceLocked then [SetExposure(e.value.duration, e.value.iso)] else [])
  {
    if s.bright.None? || s.dim.None? then
      Outcome(s.(halted := true), [])
    else
      match ProgrammedExposure(s.bright.value, s.dim.value, s.bracketMax, s.currentBracket, s.minIso, s.maxIso)
      case None =>
        Outcome(s.(halted := true), [])
      case Some(e) =>
        var programmed := if deviceLocked then [SetExposure(e.duration, e.iso)] else [];
        Outcome(s.(currentBracket := NextBracket(s.currentBracket, s.bracketMax)), programmed)
  }

  // ---------------------------------------------------------------- capture callbacks

  /** `captureOutput(_:didOutputSampleBuffer:…)` for a video sample with
      presentation time `ts`; `videoReady` is the video input's
      `readyForMoreMediaData`, `deviceLocked` whether `lockForConfiguration`
      succeeded inside `isoSwappOMatic`. */
  function VideoStep(s: State, ts: CMTime, videoReady: bool, deviceLocked: bool): (o: Outcome)
    requires Inv(s) && !s.halted
    ensures Inv(o.state)
  {
    if !s.isWriting then Outcome(s, [])
    else
      var swapped := CountAndSwap(s, deviceLocked);
      if swapped.state.halted then swapped
      else
        var t := swapped.state;
        Outcome(t.(firstSample := false), swapped.events + WriterCalls(t.firstSample, t.videoSpoolerUpper, t.videoSpoolerUpperTO, ts, videoReady))
  }

  /** The first part of a video sample while writing: the frame is counted and,
      while exposure cycling is on, `isoSwappOMatic` runs. */
  function CountAndSwap(s: State, deviceLocked: bool): Outcome
    requires BracketInRange(s) && !s.halted
  {
    var counted := s.(videoSpoolerUpper := s.videoSpoolerUpper + 1);
    if counted.flippingIso then IsoSwap(counted, deviceLocked) else Outcome(counted, [])
  }

  /** The writer calls a video sample makes once it has been counted as the `n`-th
      frame: `startWriting` on the first sample after set-up, the session anchor on
      the `to`-th frame, and the append when the input is ready from the `to`-th
      frame on. */
  function WriterCalls(first: bool, n: int, to: int, ts: CMTime, ready: bool): seq<Event> {
    (if first then [WriterStart] else [])
    + (if n == to then [StartSession(ts)] else [])
    + (if ready && n >= to then [AppendVideo(ts)] else [])
  }

  /** `captureOutput(_:didOutputSampleBuffer:…)` for an audio sample;
      `audioReady` is the audio input's `readyForMoreMediaData`. */
  function AudioStep(s: State, audioReady: bool): (o: Outcome)
    requires Inv(s) && !s.halted
    ensures Inv(o.state)
  {
    if !s.isWriting then Outcome(s, [])
    else if !s.firstSample && s.videoSpoolerUpper >= s.videoSpoolerUpperTO then
      if audioReady then Outcome(s, [AppendAudio]) else Outcome(s, [])
    else Outcome(s, [])
  }

  /** `captureOutput(_:didDropSampleBuffer:…)`. */
  function DropStep(s: State): (o: Outcome)
    requires Inv(s) && !s.halted
    ensures Inv(o.state)
  {
    Outcome(s.(droppedFrameCounter := s.droppedFrameCounter + 1), [])
  }

  // ---------------------------------------------------------------- lifecycle

  /** `startWriting` (run to completion): resets the spool counter, creates the
      writer and its inputs, and arms `isWriting` and `firstSample`. Traps when the
      writer cannot be created, since the nil writer is then dereferenced. */
  function StartWriting(s: State, writerCreated: bool): (o: Outcome)
    requires FlagInv(s) && !s.halted
    ensures Inv(o.state)
  {
    var reset := s.(videoSpoolerUpper := 0);
    if !writerCreated then Outcome(reset.(halted := true), [])
    else Outcome(reset.(isWriting := true, firstSample := true), [WriterCreated])
  }

  /** `stopRecording`: clears `WeAreRecording` and `flippingISO`, finishes the
      writer; `isWriting` stays set. */
  function StopRecording(s: State): (o: Outcome)
    requires Inv(s) && !s.halted
    ensures Inv(o.state)
  {
    Outcome(s.(weAreRecording := false, flippingIso := false), [FinishWriting])
  }

  /** `StartStopButtonPressed`: starts a recording when none is running (arming
      exposure cycling from bracket 1), and stops the running one otherwise. */
  function Press(s: State, writerCreated: bool): (o: Outcome)
    requires Inv(s) && !s.halted
    ensures Inv(o.state)
  {
    if !s.weAreRecording then
      StartWriting(s.(weAreRecording := true, flippingIso := true, currentBracket := 1), writerCreated)
    else
      StopRecording(s)
  }

  /** `setBracketBright`: records the device's current ISO and exposure duration. */
  function SetBracketBright(s: State, iso: real, duration: CMTime): (o: Outcome)
    requires Inv(s) && !s.halted
    ensures Inv(o.state)
  {
    Outcome(s.(bright := Some(Calibration(iso, duration))), [])
  }

  /** `setBracketDim`: records the device's current ISO and exposure duration. */
  function SetBracketDim(s: State, iso: real, duration: CMTime): (o: Outcome)
    requires Inv(s) && !s.halted
    ensures Inv(o.state)
  {
    Outcome(s.(dim := Some(Calibration(iso, duration))), [])
  }

  /** The process does not trap on a capture callback: exposure cycling is off,
      or both calibrations are present and the duration arithmetic fits. */
  predicate NoTrap(s: State) {
    !s.halted && (s.flippingIso ==> Programmable(s))
  }

  /** The state after a video step that does not trap. */
  lemma VideoStepShape(s: State, ts: CMTime, ready: bool, locked: bool)
    requires Inv(s) && NoTrap(s) && s.isWriting
    ensures var o := VideoStep(s, ts, ready, locked);
      && NoTrap(o.state) && o.state.isWriting && !o.state.firstSample
      && o.state.flippingIso == s.flippingIso
      && o.state.videoSpoolerUpper == s.videoSpoolerUpper + 1
      && o.state.videoSpoolerUpperTO == s.videoSpoolerUpperTO
      && o.state.droppedFrameCounter == s.droppedFrameCounter
      && o.state.currentBracket == (if s.flippingIso then NextBracket(s.currentBracket, s.bracketMax) else s.currentBracket)
      && o.events == IsoSwapEvents(s, locked) + WriterCalls(s.firstSample, s.videoSpoolerUpper + 1, s.videoSpoolerUpperTO, ts, ready)
  {
    var counted := s.(videoSpoolerUpper := s.videoSpoolerUpper + 1);
    assert Programmable(s) ==> Programmable(counted);
  }

  /** The exposure requests of the video step (programming is skipped after a stop). */
  function IsoSwapEvents(s: State, locked: bool): (ev: seq<Event>)
    requires Inv(s) && NoTrap(s) && s.isWriting
    ensures AtMostOneExposure(ev)
    ensures |ev| == (if s.flippingIso && locked then 1 else 0)
    ensures s.flippingIso && locked ==>
      var e := ProgrammedExposure(s.bright.value, s.dim.value, s.bracketMax, s.currentBracket, s.minIso, s.maxIso);
      e.Some? && ev == [SetExposure(e.value.duration, e.value.iso)]
  {
    CountAndSwap(s, locked).events
  }

  // ---------------------------------------------------------------- properties of one step

  /** The number of exposure programming requests among `events`. */
  function CountExposures(events: seq<Event>): (n: nat)
    ensures n <= |events|
  {
    if events == [] then 0
    else (if events[0].SetExposure? then 1 else 0) + CountExposures(events[1..])
  }

  lemma CountExposuresAppend(a: seq<Event>, b: seq<Event>)
    ensures CountExposures(a + b) == CountExposures(a) + CountExposures(b)
  {
    if a == [] {
      assert a + b == b;
    } else {
      assert (a + b)[1..] == a[1..] + b;
      CountExposuresAppend(a[1..], b);
    }
  }

  /** The writer calls of a video sample program no exposure. */
  lemma WriterCallsProgramNothing(first: bool, n: int, to: int, ts: CMTime, ready: bool)
    ensures CountExposures(WriterCalls(first, n, to, ts, ready)) == 0
  {
    var a := if first then [WriterStart] else [];
    var b := if n == to then [StartSession(ts)] else [];
    var c := if ready && n >= to then [AppendVideo(ts)] else [];
    assert WriterCalls(first, n, to, ts, ready) == (a + b) + c;
    CountExposuresAppend(a + b, c);
    CountExposuresAppend(a, b);
  }

  /** The sample gate is closed while `isWriting` is false: an output-sample
      callback, video or audio, changes no field and issues no call. */
  lemma GateClosed(s: State, ts: CMTime, videoReady: bool, deviceLocked: bool, audioReady: bool)
    requires Inv(s) && !s.halted && !s.isWriting
    ensures VideoStep(s, ts, videoReady, deviceLocked) == Outcome(s, [])
    ensures AudioStep(s, audioReady) == Outcome(s, [])
  {
  }

  /** While writing, every video sample is counted exactly once, and while
      `flippingISO` is set it advances the bracket once and programs exactly one
      exposure (when the device could be locked), as the first effect of the
      callback and whatever the writer's readiness. Without `flippingISO` no
      exposure is programmed and the bracket stays put. */
  lemma VideoSampleCounting(s: State, ts: CMTime, videoReady: bool, deviceLocked: bool)
    requires Inv(s) && !s.halted && s.isWriting
    ensures var o := VideoStep(s, ts, videoReady, deviceLocked);
      && o.state.videoSpoolerUpper == s.videoSpoolerUpper + 1
      && (o.state.halted <==> s.flippingIso && !Programmable(s))
      && CountExposures(o.events) == (if s.flippingIso && deviceLocked && Programmable(s) then 1 else 0)
      && (CountExposures(o.events) == 1 ==> o.events[0].SetExposure?)
      && o.state.currentBracket
         == (if s.flippingIso && Programmable(s) then NextBracket(s.currentBracket, s.bracketMax) else s.currentBracket)
      && o.state.(videoSpoolerUpper := s.videoSpoolerUpper, currentBracket := s.currentBracket,
                  firstSample := s.firstSample, halted := false) == s
  {
    var o := VideoStep(s, ts, videoReady, deviceLocked);
    var swapped := CountAndSwap(s, deviceLocked);
    if !swapped.state.halted {
      var rest := WriterCalls(s.firstSample, s.videoSpoolerUpper + 1, s.videoSpoolerUpperTO, ts, videoReady);
      assert o.events == swapped.events + rest;
      WriterCallsProgramNothing(s.firstSample, s.videoSpoolerUpper + 1, s.videoSpoolerUpperTO, ts, videoReady);
      CountExposuresAppend(swapped.events, rest);
    }
  }

  /** The exposure a video sample programs while `flippingISO` is set and the
      device locks: its first effect is one `setExposureModeCustomWithDuration`
      whose duration keeps the bright calibration's timescale and has the value
      `(dim.value / bracketMax) * currentBracket` (truncating), and whose ISO is the
      current bracket's target clamped into the device range. */
  lemma VideoExposureSetting(s: State, ts: CMTime, videoReady: bool)
    requires Inv(s) && NoTrap(s) && s.isWriting && s.flippingIso
    ensures var o := VideoStep(s, ts, videoReady, true);
            var b, d := s.bright.value, s.dim.value;
      && o.events != [] && o.events[0].SetExposure?
      && o.events[0].duration.timescale == b.duration.timescale
      && o.events[0].duration.value as int == TruncDiv(d.duration.value as int, s.bracketMax) * s.currentBracket
      && o.events[0].iso == ClampIso(IsoTarget(d.iso, b.iso, s.bracketMax, s.currentBracket), s.minIso, s.maxIso)
      && (s.minIso <= s.maxIso ==> s.minIso <= o.events[0].iso <= s.maxIso)
  {
    VideoStepShape(s, ts, videoReady, true);
    var x := IsoSwapEvents(s, true);
    assert |x| == 1;
    var w := WriterCalls(s.firstSample, s.videoSpoolerUpper + 1, s.videoSpoolerUpperTO, ts, videoReady);
    assert (x + w)[0] == x[0];
  }

  /** The writer rules for a video sample that does not trap, where `n` is the
      sample's position in the spool count: the writer's `startWriting` is called
      exactly on the first video sample after `startWriting()` set-up, after which
      `firstSample` is false; the session is anchored exactly on the sample with
      `n == videoSpoolerUpperTO`, at that sample's timestamp; the sample is
      appended exactly when the input is ready and `n >= videoSpoolerUpperTO`;
      no audio or lifecycle call is issued. */
  lemma VideoWriterRules(s: State, ts: CMTime, videoReady: bool, deviceLocked: bool)
    requires Inv(s) && NoTrap(s) && s.isWriting
    ensures var o := VideoStep(s, ts, videoReady, deviceLocked);
            var n := s.videoSpoolerUpper + 1;
      && !o.state.halted && !o.state.firstSample
      && (WriterStart in o.events <==> s.firstSample)
      && (StartSession(ts) in o.events <==> n == s.videoSpoolerUpperTO)
      && (AppendVideo(ts) in o.events <==> videoReady && n >= s.videoSpoolerUpperTO)
      && (forall e | e in o.events && e.StartSession? :: e.at == ts)
      && (forall e | e in o.events && e.AppendVideo? :: e.ts == ts)
      && AppendAudio !in o.events && WriterCreated !in o.events && FinishWriting !in o.events
  {
    VideoStepShape(s, ts, videoReady, deviceLocked);
    MembersAfterExposure(IsoSwapEvents(s, deviceLocked),
                         WriterCalls(s.firstSample, s.videoSpoolerUpper + 1, s.videoSpoolerUpperTO, ts, videoReady));
    WriterCallsMembers(s.firstSample, s.videoSpoolerUpper + 1, s.videoSpoolerUpperTO, ts, videoReady);
  }

  /** Behind at most one exposure request, the other events are those of `w`. */
  lemma MembersAfterExposure(x: seq<Event>, w: seq<Event>)
    requires AtMostOneExposure(x)
    ensures forall e: Event | !e.SetExposure? :: e in x + w <==> e in w
  {
  }

  lemma WriterCallsMembers(first: bool, n: int, to: int, ts: CMTime, ready: bool)
    ensures var w := WriterCalls(first, n, to, ts, ready);
      && (WriterStart in w <==> first)
      && (StartSession(ts) in w <==> n == to)
      && (AppendVideo(ts) in w <==> ready && n >= to)
      && (forall e | e in w && e.StartSession? :: e.at == ts)
      && (forall e | e in w && e.AppendVideo? :: e.ts == ts)
      && (forall e | e in w :: !e.SetExposure? && !e.AppendAudio? && !e.WriterCreated? && !e.FinishWriting?)
  {
  }

  /** An audio sample never changes a field, and it is appended exactly when the
      gate is open, the first video sample has been seen, the spool threshold has
      been reached and the audio input is ready; otherwise it is discarded. */
  lemma AudioRule(s: State, audioReady: bool)
    requires Inv(s) && !s.halted
    ensures AudioStep(s, audioReady).state == s
    ensures AudioStep(s, audioReady).events
         == if s.isWriting && !s.firstSample && s.videoSpoolerUpper >= s.videoSpoolerUpperTO && audioReady
            then [AppendAudio] else []
  {
  }

  /** The drop callback increments `droppedFrameCounter` by one and touches
      nothing else. */
  lemma DropOnlyCounts(s: State)
    requires Inv(s) && !s.halted
    ensures DropStep(s).state.droppedFrameCounter == s.droppedFrameCounter + 1
    ensures DropStep(s).state.(droppedFrameCounter := s.droppedFrameCounter) == s
    ensures DropStep(s).events == []
  {
  }

  /** Starting a recording arms exposure cycling from bracket 1 and sets up a fresh
      writer: the spool counter is 0 and `isWriting` and `firstSample` are set;
      calibration, ISO limits and the drop counter are kept. */
  lemma StartResets(s: State, writerCreated: bool)
    requires Inv(s) && !s.halted && !s.weAreRecording
    ensures var o := Press(s, writerCreated);
      && (writerCreated ==>
            && o.state == s.(weAreRecording := true, flippingIso := true, currentBracket := 1,
                             videoSpoolerUpper := 0, isWriting := true, firstSample := true)
            && o.events == [WriterCreated])
      && (!writerCreated ==> o.state.halted && o.events == [])
  {
  }

  /** Stopping clears `WeAreRecording` and `flippingISO` and finishes the writer,
      but leaves `isWriting` set: the gate stays open after a stop. */
  lemma StopKeepsGateOpen(s: State, writerCreated: bool)
    requires Inv(s) && !s.halted && s.weAreRecording
    ensures var o := Press(s, writerCreated);
      && o.state == s.(weAreRecording := false, flippingIso := false)
      && o.state.isWriting && !o.state.flippingIso
      && o.events == [FinishWriting]
  {
  }

  /** After a stop, video samples are still counted but no exposure is programmed
      and the bracket no longer moves. */
  lemma {:induction false} CountedAfterStop(s: State, writerCreated: bool, ts: CMTime, videoReady: bool, deviceLocked: bool)
    requires Inv(s) && !s.halted && s.weAreRecording
    ensures var stopped := Press(s, writerCreated).state;
            var o := VideoStep(stopped, ts, videoReady, deviceLocked);
      && o.state.videoSpoolerUpper == s.videoSpoolerUpper + 1
      && CountExposures(o.events) == 0
      && o.state.currentBracket == s.currentBracket
      && !o.state.halted
  {
    var stopped := Press(s, writerCreated).state;
    StopKeepsGateOpen(s, writerCreated);
    VideoSampleCounting(stopped, ts, videoReady, deviceLocked);
  }

  /** Calibrating both brackets from device readings (non-negative `Int64` values)
      always makes `isoSwappOMatic` safe to run: the subtraction cannot overflow. */
  lemma CalibrationMakesProgrammable(s: State, brightIso: real, brightDuration: CMTime,
                                     dimIso: real, dimDuration: CMTime)
    requires Inv(s) && !s.halted
    requires brightDuration.value >= 0 && dimDuration.value >= 0
    ensures var b := SetBracketBright(s, brightIso, brightDuration).state;
            var d := SetBracketDim(b, dimIso, dimDuration).state;
      && Programmable(d)
      && d.bright == Some(Calibration(brightIso, brightDuration))
      && d.dim == Some(Calibration(dimIso, dimDuration))
      && d.(bright := s.bright, dim := s.dim) == s
  {
  }
}
