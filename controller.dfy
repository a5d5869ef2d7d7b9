/** The view controller as an object whose methods update its fields in place,
    one method per callback or action of the recording logic. Each method is
    proved to leave the object in the state the matching transition function of
    `Recorder` computes, and to issue that function's effects, recorded in the
    ghost `trace`. */
module Controller {
  import opened Media
  import opened Exposure
  import opened Recorder

  class ViewController {
    /** Number of exposure brackets, fixed at 2. */
    const bracketMax: int
    var currentBracket: int
    /** `bracketBrightISO`/`bracketBrightFrameDuration`, and the dim pair;
        `None` while the implicitly unwrapped fields are still nil. */
    var bright: Option<Calibration>
    var dim: Option<Calibration>
    /** ISO range of the capture device's active format. */
    const minIso: real
    const maxIso: real
    var videoSpoolerUpper: int
    /** Spool-up threshold, fixed at 60. */
    const videoSpoolerUpperTO: int
    var weAreRecording: bool
    var isWriting: bool
    var firstSample: bool
    var flippingIso: bool
    var droppedFrameCounter: int
    /** The process has trapped; no further callback arrives. */
    var halted: bool
    /** The effects issued so far on the capture device and the asset writer. */
    ghost var trace: seq<Event>

    /** The fields as a `Recorder.State` value. */
    function Snapshot(): State
      reads this
    {
      State(bracketMax, currentBracket, bright, dim, minIso, maxIso,
            videoSpoolerUpper, videoSpoolerUpperTO, weAreRecording, isWriting,
            firstSample, flippingIso, droppedFrameCounter, halted)
    }

    predicate Valid()
      reads this
    {
      Inv(Snapshot())
    }

    /** The controller once its view has loaded, for a device format with the
        given ISO range. */
    constructor (minIso: real, maxIso: real)
      ensures Snapshot() == Initial(minIso, maxIso) && trace == []
      ensures Valid()
    {
      this.bracketMax := BRACKET_MAX;
      this.currentBracket := 1;
      this.bright := None;
      this.dim := None;
      this.minIso := minIso;
      this.maxIso := maxIso;
      this.videoSpoolerUpper := 0;
      this.videoSpoolerUpperTO := SPOOL_THRESHOLD;
      this.weAreRecording := false;
      this.isWriting := false;
      this.firstSample := false;
      this.flippingIso := false;
      this.droppedFrameCounter := 0;
      this.halted := false;
      this.trace := [];
    }

    /** `isoSwappOMatic`; `deviceLocked` is whether `lockForConfiguration`
        succeeded. */
    method IsoSwappOMatic(deviceLocked: bool)
      requires BracketInRange(Snapshot()) && !halted
      modifies this
      ensures Snapshot() == IsoSwap(old(Snapshot()), deviceLocked).state
      ensures trace == old(trace) + IsoSwap(old(Snapshot()), deviceLocked).events
    {
      if bright.None? || dim.None? {
        halted := true;
        return;
      }
      var isoVal := IsoTarget(dim.value.iso, bright.value.iso, bracketMax, currentBracket);
      if isoVal < minIso {
        isoVal := minIso;
      }
      if isoVal > maxIso {
        isoVal := maxIso;
      }
      var timeDurationVal := DurationValue(dim.value.duration.value, bright.value.duration.value,
                                           bracketMax, currentBracket);
      if timeDurationVal.None? {
        halted := true;
        return;
      }
      var frameTime := CMTime(timeDurationVal.value, bright.value.duration.timescale);
      if deviceLocked {
        trace := trace + [SetExposure(frameTime, isoVal)];
      }
      currentBracket := currentBracket + 1;
      if currentBracket > bracketMax {
        currentBracket := 1;
      }
    }

    /** `captureOutput(_:didOutputSampleBuffer:…)` for a video sample. */
    method OnVideoSample(ts: CMTime, videoReady: bool, deviceLocked: bool)
      requires Valid() && !halted
      modifies this
      ensures Snapshot() == VideoStep(old(Snapshot()), ts, videoReady, deviceLocked).state
      ensures trace == old(trace) + VideoStep(old(Snapshot()), ts, videoReady, deviceLocked).events
      ensures Valid()
    {
      if !isWriting {
        return;
      }
      CountVideoSample(deviceLocked);
      if halted {
        return;
      }
      WriteVideoSample(ts, videoReady);
    }

    /** The first part of `captureOutput(_:didOutputSampleBuffer:…)` for a video
        sample while writing: the frame is counted and, while exposure cycling is
        on, `isoSwappOMatic` runs. */
    method CountVideoSample(deviceLocked: bool)
      requires BracketInRange(Snapshot()) && !halted
      modifies this
      ensures Snapshot() == CountAndSwap(old(Snapshot()), deviceLocked).state
      ensures trace == old(trace) + CountAndSwap(old(Snapshot()), deviceLocked).events
    {
      videoSpoolerUpper := videoSpoolerUpper + 1;
      if flippingIso {
        IsoSwappOMatic(deviceLocked);
      }
    }

    /** The writer part of `captureOutput(_:didOutputSampleBuffer:…)` for a video
        sample that has been counted: starts the writer on the first sample,
        anchors the session on the `videoSpoolerUpperTO`-th frame and appends the
        sample when the input is ready from then on. */
    method WriteVideoSample(ts: CMTime, videoReady: bool)
      modifies this
      ensures Snapshot() == old(Snapshot()).(firstSample := false)
      ensures trace == old(trace) + WriterCalls(old(firstSample), videoSpoolerUpper, videoSpoolerUpperTO, ts, videoReady)
    {
      ghost var w1 := if firstSample then [WriterStart] else [];
      ghost var w2 := if videoSpoolerUpper == videoSpoolerUpperTO then [StartSession(ts)] else [];
      ghost var w3 := if videoReady && videoSpoolerUpper >= videoSpoolerUpperTO then [AppendVideo(ts)] else [];
      ghost var t0 := trace;
      if firstSample {
        trace := trace + [WriterStart];
        firstSample := false;
      }
      assert trace == t0 + w1;
      if videoSpoolerUpper == videoSpoolerUpperTO {
        trace := trace + [StartSession(ts)];
      }
      assert trace == t0 + w1 + w2;
      if videoReady && videoSpoolerUpper >= videoSpoolerUpperTO {
        trace := trace + [AppendVideo(ts)];
      }
      assert trace == t0 + (w1 + w2 + w3);
    }

    /** `captureOutput(_:didOutputSampleBuffer:…)` for an audio sample. */
    method OnAudioSample(audioReady: bool)
      requires Valid() && !halted
      modifies this
      ensures Snapshot() == AudioStep(old(Snapshot()), audioReady).state
      ensures trace == old(trace) + AudioStep(old(Snapshot()), audioReady).events
      ensures Valid()
    {
      if !isWriting {
        return;
      }
      if !firstSample && videoSpoolerUpper >= videoSpoolerUpperTO {
        if audioReady {
          trace := trace + [AppendAudio];
        }
      }
    }

    /** `captureOutput(_:didDropSampleBuffer:…)`. */
    method OnDrop()
      requires Valid() && !halted
      modifies this
      ensures Snapshot() == DropStep(old(Snapshot())).state
      ensures trace == old(trace) + DropStep(old(Snapshot())).events
      ensures Valid()
    {
      droppedFrameCounter := droppedFrameCounter + 1;
    }

    /** `StartStopButtonPressed`; `writerCreated` is whether the asset writer
        could be created in `startWriting`. */
    method StartStopButtonPressed(writerCreated: bool)
      requires Valid() && !halted
      modifies this
      ensures Snapshot() == Press(old(Snapshot()), writerCreated).state
      ensures trace == old(trace) + Press(old(Snapshot()), writerCreated).events
      ensures Valid()
    {
      if !weAreRecording {
        weAreRecording := true;
        flippingIso := true;
        currentBracket := 1;
        StartWriting(writerCreated);
      } else {
        StopRecording();
      }
    }

    /** `startWriting`, run to completion. */
    method StartWriting(writerCreated: bool)
      requires FlagInv(Snapshot()) && !halted
      modifies this
      ensures Snapshot() == Recorder.StartWriting(old(Snapshot()), writerCreated).state
      ensures trace == old(trace) + Recorder.StartWriting(old(Snapshot()), writerCreated).events
    {
      videoSpoolerUpper := 0;
      if !writerCreated {
        halted := true;
        return;
      }
      trace := trace + [WriterCreated];
      isWriting := true;
      firstSample := true;
    }

    /** `stopRecording`. */
    method StopRecording()
      requires Valid() && !halted
      modifies this
      ensures Snapshot() == Recorder.StopRecording(old(Snapshot())).state
      ensures trace == old(trace) + Recorder.StopRecording(old(Snapshot())).events
      ensures Valid()
    {
      weAreRecording := false;
      flippingIso := false;
      trace := trace + [FinishWriting];
    }

    /** `setBracketBright`, given the device's current ISO and exposure duration. */
    method SetBracketBright(iso: real, duration: CMTime)
      requires Valid() && !halted
      modifies this
      ensures Snapshot() == Recorder.SetBracketBright(old(Snapshot()), iso, duration).state
      ensures trace == old(trace) + Recorder.SetBracketBright(old(Snapshot()), iso, duration).events
      ensures Valid()
    {
      bright := Some(Calibration(iso, duration));
    }

    /** `setBracketDim`, given the device's current ISO and exposure duration. */
    method SetBracketDim(iso: real, duration: CMTime)
      requires Valid() && !halted
      modifies this
      ensures Snapshot() == Recorder.SetBracketDim(old(Snapshot()), iso, duration).state
      ensures trace == old(trace) + Recorder.SetBracketDim(old(Snapshot()), iso, duration).events
      ensures Valid()
    {
      dim := Some(Calibration(iso, duration));
    }
  }
}
