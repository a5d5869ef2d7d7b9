# CineVid recording logic in Dafny

CineVid is an iOS camera app. It records video while, frame by frame, switching
the capture device's exposure between two settings derived from the user's
bright and dim calibrations. This project models
the per-sample recording logic of its `ViewController`:

- `isoSwappOMatic`: which bracket comes next, and the shutter duration and ISO
  programmed for the current one, with Swift's `Int64` overflow traps;
- the two `captureOutput` callbacks: the sample gate on `isWriting`, the spool-up
  counter `videoSpoolerUpper` and its threshold `videoSpoolerUpperTO`, the
  writer's `startWriting` on the first sample, the session anchor, the video and
  audio appends, and the dropped-frame counter;
- the start/stop lifecycle: `StartStopButtonPressed`, `stopRecording`, the
  state resets in `startWriting`, and the calibration setters
  `setBracketBright` / `setBracketDim`;
- the `AVCaptureVideoOrientation` extension.

Layout:

- `media.dfy`: Swift `Int64`/`Int32`, `CMTime` and an `Option` for the implicitly
  unwrapped `Float!`/`CMTime!` calibration fields.
- `exposure.dfy`: the arithmetic of `isoSwappOMatic`.
- `recorder.dfy`: the view controller's fields as a `State` value, one
  transition function per callback or action, the invariant they keep, and
  the one-step properties.
- `runs.dfy`: a stream of capture callbacks folded over the transitions, and
  what a whole recording does: which frames reach the writer, which frame
  anchors the session, how often exposure is programmed, and that every append
  follows the anchor.
- `scenarios.dfy`: a concrete five-frame recording.
- `orientation.dfy`: the orientation mapping.
- `controller.dfy`: the class `ViewController`. Its fields and methods update
  state in place, as the Swift code does. Each method is proved to leave the
  object in the state the matching `Recorder` function computes. Each method
  also appends that function's effects to a ghost `trace` of events.

The effects on the capture device and on the asset writer are events:

| event | Swift call |
|---|---|
| `SetExposure(duration, iso)` | `setExposureModeCustomWithDuration` |
| `WriterCreated` | `AVAssetWriter` and its inputs created |
| `WriterStart` | `videoWriter.startWriting()` |
| `StartSession(ts)` | `startSessionAtSourceTime` |
| `AppendVideo(ts)` / `AppendAudio` | `appendSampleBuffer` on the video / audio input |
| `FinishWriting` | `markAsFinished` on both inputs and `finishWritingWithCompletionHandler` |

Some results come from the hardware, so they are parameters:

- the inputs' `readyForMoreMediaData`;
- whether `lockForConfiguration` succeeded;
- whether the asset writer could be created;
- the device's ISO and exposure duration when a calibration button is pressed.

A Swift runtime trap sets the flag `halted`; a trapped process receives no
further callbacks. There are three traps:

- unwrapping a nil calibration;
- an `Int64` overflow in `dim.value - bright.value`;
- dereferencing the nil writer after its creation failed.

Behaviour of the code worth knowing:

- Audio can be appended before any video frame has been appended. The guard on
  audio asks only that `firstSample` is false and that the threshold has been
  reached. If the threshold frame finds the video input not ready, the next
  audio sample is still written (`Runs.AudioBeforeFirstVideo`).
- `droppedFrameCounter` is never reset when a recording starts.
- `stopRecording` never clears `isWriting`. After a stop, frames are still
  counted; exposure is no longer programmed (`Recorder.StopKeepsGateOpen`,
  `Runs.AfterStopTrace`).
- The programmed duration simplifies to `(dim.value / bracketMax) * currentBracket`
  with truncating division:
  - `bright.value` cancels out; its subtraction matters only through the
    overflow trap;
  - the result takes bright's timescale, and dim's timescale is ignored.
- The writer's `startWriting()` is called on the first video sample after set-up,
  not on the first sample that is appended.

## Model

| member | source | states |
|---|---|---|
| Exposure.NextBracket | CineVid/ViewController.swift:420-423 | the bracket after increment-and-wrap lies in `1..bracketMax` and is `current % bracketMax + 1` |
| Exposure.BracketCycle | CineVid/ViewController.swift:420-423 | after `n` calls the bracket is `(current - 1 + n) % bracketMax + 1`, always in range |
| Exposure.BracketReturnsToOne | CineVid/ViewController.swift:420-423 | from bracket 1, `j < bracketMax` calls reach bracket `j + 1`, and `bracketMax` calls return to 1 |
| Exposure.TruncDiv | CineVid/ViewController.swift:405 | Swift `Int64` division: the remainder has the dividend's sign and is smaller than the divisor |
| Exposure.SegmentMultipleBound | CineVid/ViewController.swift:405-406 | `currentBracket` multiples of the truncated segment stay between 0 and the dividend, so they cannot overflow |
| Exposure.DurationValue | CineVid/ViewController.swift:403-406 | traps exactly when `dim - bright` leaves `Int64`; otherwise the value is `TruncDiv(dim, bracketMax) * currentBracket`, between 0 and `dim` for a non-negative `dim` |
| Exposure.LastBracketIsDim | CineVid/ViewController.swift:403-406 | the last bracket programs the dim duration if and only if that duration is a multiple of `bracketMax` |
| Exposure.IsoTargetSpacing | CineVid/ViewController.swift:390-393 | consecutive bracket ISO targets are `(2*dim - bright)/bracketMax` apart; the last bracket targets `2*dim - bright` |
| Exposure.ClampIso | CineVid/ViewController.swift:395-401 | the clamped ISO lies in `[minISO, maxISO]` when that range is non-empty, is unchanged when already in range, is `minISO` when below it, and is `maxISO` when above it or when the range is empty |
| Exposure.ProgrammedExposure | CineVid/ViewController.swift:390-408 | the programmed setting: `None` exactly on overflow; the timescale is bright's; the duration follows the truncated formula; the ISO is the clamped target, within range |
| Recorder.Initial | CineVid/ViewController.swift:126-149 | the loaded view controller satisfies the invariant, is not writing or recording, and has `bracketMax` 2 and threshold 60 |
| Recorder.IsoSwap | CineVid/ViewController.swift:381-424 | it traps exactly when a calibration is missing or the duration overflows, and then changes nothing else; otherwise it advances the bracket (staying in range), issues exactly the `ProgrammedExposure` setting of the current bracket as one `SetExposure` when the device locked and nothing otherwise, and no other field changes |
| Recorder.VideoStep | CineVid/ViewController.swift:332-366 | a video sample preserves the invariant |
| Recorder.AudioStep | CineVid/ViewController.swift:371-377 | an audio sample preserves the invariant |
| Recorder.DropStep | CineVid/ViewController.swift:325-330 | a dropped frame preserves the invariant |
| Recorder.StartWriting | CineVid/ViewController.swift:518-565 | the writer set-up establishes the full invariant, including "recording implies writing" |
| Recorder.StopRecording | CineVid/ViewController.swift:482-491 | stopping preserves the invariant |
| Recorder.Press | CineVid/ViewController.swift:435-480 | the start/stop button preserves the invariant |
| Recorder.SetBracketBright | CineVid/ViewController.swift:571-576 | calibrating bright preserves the invariant |
| Recorder.SetBracketDim | CineVid/ViewController.swift:578-583 | calibrating dim preserves the invariant |
| Recorder.VideoStepShape | CineVid/ViewController.swift:341-366 | a non-trapping video sample counts the frame, advances the bracket only while `flippingISO` is set, clears `firstSample`, and issues its exposure request followed by its writer calls |
| Recorder.IsoSwapEvents | CineVid/ViewController.swift:343-345 | a video sample issues one exposure request exactly when `flippingISO` is set and the device locked, and none otherwise; that request is the current bracket's `ProgrammedExposure` setting |
| Recorder.VideoExposureSetting | CineVid/ViewController.swift:343-345 | under `flippingISO` with the device locked, the first effect of a video sample is `SetExposure` with bright's timescale, duration value `(dim.value / bracketMax) * currentBracket` truncated, and the clamped ISO target, inside `[minISO, maxISO]` when that range is non-empty |
| Recorder.CountExposures | CineVid/ViewController.swift:413 | the number of exposure requests in a trace is at most its length |
| Recorder.CountExposuresAppend | CineVid/ViewController.swift:413 | the exposure count of a concatenated trace is the sum of the counts of its parts |
| Recorder.WriterCallsProgramNothing | CineVid/ViewController.swift:349-366 | the writer calls of a video sample program no exposure |
| Recorder.GateClosed | CineVid/ViewController.swift:335-337 | while `isWriting` is false, neither a video nor an audio sample changes a field or issues a call |
| Recorder.VideoSampleCounting | CineVid/ViewController.swift:341-345 | every video sample while writing increments `videoSpoolerUpper` by exactly 1; under `flippingISO` it programs exactly one exposure, as its first effect, when the device locked; whatever the readiness it advances the bracket once; it traps exactly on a missing calibration or an overflow; no other field changes |
| Recorder.VideoWriterRules | CineVid/ViewController.swift:349-366 | `startWriting` is called exactly when `firstSample` was set, which is then cleared; the session is anchored exactly on the sample numbered `videoSpoolerUpperTO`, at its timestamp; the sample is appended exactly when the input is ready and the count has reached the threshold; there are no audio or lifecycle calls |
| Recorder.MembersAfterExposure | CineVid/ViewController.swift:343-345 | an exposure request issued before the writer calls adds no writer call |
| Recorder.WriterCallsMembers | CineVid/ViewController.swift:349-366 | the writer calls of one video sample, each an if-and-only-if on its guard, carrying the sample's timestamp |
| Recorder.AudioRule | CineVid/ViewController.swift:371-377 | the audio sample changes no field, and is appended exactly when writing, `firstSample` is false, the threshold is reached and the input is ready; otherwise it is discarded |
| Recorder.DropOnlyCounts | CineVid/ViewController.swift:328 | the drop callback increments `droppedFrameCounter` by 1, touches nothing else and issues no call |
| Recorder.StartResets | CineVid/ViewController.swift:439-470 | starting sets `WeAreRecording`, `flippingISO`, bracket 1, spool counter 0, `isWriting` and `firstSample`, and creates the writer; everything else is kept; a failed writer creation traps |
| Recorder.StopKeepsGateOpen | CineVid/ViewController.swift:478-486 | stopping clears exactly `WeAreRecording` and `flippingISO`, finishes the writer and leaves `isWriting` set |
| Recorder.CountedAfterStop | CineVid/ViewController.swift:341-345 | after a stop a video sample is still counted, programs no exposure and leaves the bracket in place |
| Recorder.CalibrationMakesProgrammable | CineVid/ViewController.swift:571-583 | calibrating both brackets from non-negative device durations sets exactly the two calibrations and rules out the overflow trap |
| Runs.Step | CineVid/ViewController.swift:325-379 | one callback preserves the invariant |
| Runs.Run | CineVid/ViewController.swift:325-379 | the invariant holds after any stream of callbacks, and a trapped process does nothing more |
| Runs.Frames | CineVid/ViewController.swift:341 | the video samples of a stream, all video, no more than the stream |
| Runs.ProjectionsAppend | CineVid/ViewController.swift:358-366 | anchors, appends, writer starts and exposure counts distribute over trace concatenation |
| Runs.AnchorsAppend | CineVid/ViewController.swift:358-360 | the anchors of a concatenated trace are the anchors of its parts, in order |
| Runs.AppendedAppend | CineVid/ViewController.swift:363-366 | the appended frames of a concatenated trace are those of its parts, in order |
| Runs.WriterStartsAppend | CineVid/ViewController.swift:349-355 | writer starts add up over trace concatenation |
| Runs.VideoStepProjected | CineVid/ViewController.swift:341-366 | one non-trapping video sample contributes an anchor exactly at the threshold, an append exactly when ready from the threshold on, a writer start exactly on the first sample, and one exposure per locked device under `flippingISO` |
| Runs.NonVideoStepProjected | CineVid/ViewController.swift:325-330 | an audio or drop callback contributes no anchor, video append, writer start or exposure, and moves only the drop counter |
| Runs.StepSpool | CineVid/ViewController.swift:341-366 | one callback's effect on the spool counter, `firstSample`, anchors and appends |
| Runs.StepPhase | CineVid/ViewController.swift:341-345 | one callback's effect on the exposure count, the bracket and the drop counter |
| Runs.SpoolWindow | CineVid/ViewController.swift:341-366 | over any stream while writing, with `k = videoSpoolerUpperTO - videoSpoolerUpper - 1` frames still to come before the threshold: the counter grows by the number of frames; the session is anchored at most once, at video frame `k` of the stream, the one counted as number `videoSpoolerUpperTO`; the appended frames are exactly the ready ones from that frame on |
| Runs.WriterStartOnce | CineVid/ViewController.swift:349-355 | the writer's `startWriting` is called once over a stream with a video sample if `firstSample` was set, and never otherwise |
| Runs.ExposurePhase | CineVid/ViewController.swift:341-345 | exposure is programmed once per locked frame under `flippingISO` and never without it; the bracket moves once per frame |
| Runs.ExposureCount | CineVid/ViewController.swift:341-345 | the exposure requests of a stream are its locked frames while `flippingISO` is set, and none otherwise |
| Runs.BracketPhase | CineVid/ViewController.swift:341-345 | the bracket after a stream has moved once per video frame while `flippingISO` is set |
| Runs.DropPhase | CineVid/ViewController.swift:325-330 | from any state, writing or not, the drop counter grows by exactly the number of drop callbacks |
| Runs.WritesFollowAnchor | CineVid/ViewController.swift:358-377 | from any state below the threshold, every video or audio append follows the session anchor |
| Runs.StartIsFresh | CineVid/ViewController.swift:435-470 | starting an idle, calibrated controller leaves the fresh-recording state and keeps the threshold, `bracketMax` and the drop counter |
| Runs.RecordingWindow | CineVid/ViewController.swift:358-366 | for a whole recording: one anchor at frame `videoSpoolerUpperTO` if that many frames arrive, and exactly the ready frames from that one on appended |
| Runs.RecordingWrites | CineVid/ViewController.swift:341-377 | for a whole recording: one anchor at frame `videoSpoolerUpperTO` (if it arrives); the appended frames are exactly the ready ones among frames `TO`, `TO+1`, …, so frames 1..59 never reach the writer; every append follows the anchor; one writer start on the first frame |
| Runs.RecordingExposure | CineVid/ViewController.swift:341-345 | for a whole recording: one exposure per locked frame, the bracket after `k` frames is `k % bracketMax + 1`, and only drops move the drop counter |
| Runs.AfterStopTrace | CineVid/ViewController.swift:482-486 | after a stop of any live recording, calibrated or not, every frame is still counted, but no exposure is programmed and the bracket stays put |
| Runs.WarmUp | CineVid/ViewController.swift:341-355 | after `TO - 1` frames of a fresh recording the counter is one short of the threshold and `firstSample` is clear |
| Runs.AudioBeforeFirstVideo | CineVid/ViewController.swift:363-377 | a threshold frame the video input is not ready for is anchored but not appended, and the next audio sample is appended |
| Scenarios.FramesOfFive | CineVid/ViewController.swift:341 | all five callbacks of the scenario are video frames |
| Scenarios.ReadyOfFive | CineVid/ViewController.swift:363 | the ready frames of the scenario from the third on |
| Scenarios.LockedOfFive | CineVid/ViewController.swift:411-413 | all five scenario frames locked the device, and none was dropped |
| Scenarios.FiveFrameRecording | CineVid/ViewController.swift:341-377 | with two brackets and threshold 3, five frames: frame 3 anchors; frames 3 and 5, and 4 if ready, are appended; five exposures are programmed; the rotation ends at bracket 2; the drop counter is unchanged |
| Orientation.InterfaceOf | CineVid/ViewController.swift:589-598 | each capture orientation maps to the interface orientation of the same name, never to an unknown one |
| Orientation.FromInterface | CineVid/ViewController.swift:600-608 | `init(ui:)` inverts the mapping on the four known orientations and gives `.Portrait` otherwise |
| Orientation.InterfaceOfInjective | CineVid/ViewController.swift:589-598 | distinct capture orientations have distinct interface orientations |
| Orientation.RoundTrip | CineVid/ViewController.swift:589-607 | `AVCaptureVideoOrientation(ui: o.uiInterfaceOrientation) == o` for every `o` |
| Orientation.InterfaceRoundTrip | CineVid/ViewController.swift:589-607 | an interface orientation is the image of no capture orientation exactly when it is unknown; every known one round-trips |
| Controller.ViewController.constructor | CineVid/ViewController.swift:126-149 | the new controller is `Recorder.Initial`, with an empty trace, and is valid |
| Controller.ViewController.IsoSwappOMatic | CineVid/ViewController.swift:381-424 | the fields after the call are `Recorder.IsoSwap` of the fields before, and the trace is extended by its events |
| Controller.ViewController.OnVideoSample | CineVid/ViewController.swift:332-366 | the fields and trace follow `Recorder.VideoStep`, and validity is kept |
| Controller.ViewController.CountVideoSample | CineVid/ViewController.swift:341-345 | the frame count and the exposure swap follow `Recorder.CountAndSwap` |
| Controller.ViewController.WriteVideoSample | CineVid/ViewController.swift:347-366 | clears only `firstSample` and extends the trace with the writer calls of a counted sample |
| Controller.ViewController.OnAudioSample | CineVid/ViewController.swift:371-377 | the fields and trace follow `Recorder.AudioStep`, and validity is kept |
| Controller.ViewController.OnDrop | CineVid/ViewController.swift:325-330 | the fields and trace follow `Recorder.DropStep`, and validity is kept |
| Controller.ViewController.StartStopButtonPressed | CineVid/ViewController.swift:435-480 | the fields and trace follow `Recorder.Press`, and validity is kept |
| Controller.ViewController.StartWriting | CineVid/ViewController.swift:518-565 | the fields and trace follow `Recorder.StartWriting` |
| Controller.ViewController.StopRecording | CineVid/ViewController.swift:482-491 | the fields and trace follow `Recorder.StopRecording`, and validity is kept |
| Controller.ViewController.SetBracketBright | CineVid/ViewController.swift:571-576 | the fields follow `Recorder.SetBracketBright`, and validity is kept |
| Controller.ViewController.SetBracketDim | CineVid/ViewController.swift:578-583 | the fields follow `Recorder.SetBracketDim`, and validity is kept |

## Left out

- Device and session set-up (`viewDidLoad`, `CameraSetOutputProperties` and its
  format search): these only configure AVFoundation, so there is no recording
  logic to model.
- `viewWillAppear`, which clears `WeAreRecording`: it is outside the recording
  logic. The lemmas about a recording assume the flags follow the invariant.
- The asset writer, its inputs and the capture device: these are foreign APIs.
  They appear only as trace events, and their results are parameters.
- The result of `videoWriter.startWriting()` and of the audio `appendSampleBuffer`:
  the code only prints on failure, so they have no effect on the state.
- The completion handlers of `setExposureModeCustomWithDuration` and of
  `finishWritingWithCompletionHandler`: both are foreign callbacks. The second
  also covers the photo-album export and `savingCallBack`.
- Temporary-file deletion, the output URL and path, and the photo-album export:
  these are file-system effects.
- Focus and exposure-mode changes in `StartStopButtonPressed`, and
  `unlockForConfiguration`: device configuration with no effect on the modelled
  state.
- `dispatch_async` in `startWriting`: the set-up block is modelled as running to
  completion when the button is pressed. In the app it is queued on the session
  queue behind callbacks already waiting there. After an earlier stop those
  callbacks still see `isWriting` set and `flippingISO` already true, so they can
  program exposure and move `currentBracket` off 1 before the counter reset.
  The model does not capture that interleaving.
- Recorder.IsoSwap: computes the ISO over `real`, because Swift `Float` rounding is
  not modelled.
- Exposure.IsoTarget: computes over `real`, because Swift `Float` rounding is not
  modelled.
- `minISO`/`maxISO`: they are read from the active format on every call; here they
  are constants of the controller, because the format never changes while
  recording.
- Recorder.VideoStep: `videoSpoolerUpper` and `droppedFrameCounter` are unbounded,
  because a 64-bit `Int` counter cannot overflow within a recording.
- `print` diagnostics, `lastPixelBuffer`, button titles and colours: these only
  observe; they do not change the recording state.
