/** Sequences of capture callbacks, delivered one after the other on the serial
    capture queue, and what the recording logic does over a whole recording:
    which frames reach the writer, which frame anchors the session, how often
    exposure is programmed. */
module Runs {
  import opened Media
  import opened Exposure
  import opened Recorder

  /** One capture callback: a video sample (with its presentation time, the video
      input's readiness and whether the device could be locked for the exposure
      change), an audio sample (with the audio input's readiness), or a dropped
      video frame. */
  datatype Capture =
    | Video(ts: CMTime, ready: bool, locked: bool)
    | Audio(audioReady: bool)
    | Dropped

  function Step(s: State, c: Capture): (o: Outcome)
    requires Inv(s) && !s.halted
    ensures Inv(o.state)
  {
    match c
    case Video(ts, ready, locked) => VideoStep(s, ts, ready, locked)
    case Audio(ready) => AudioStep(s, ready)
    case Dropped => DropStep(s)
  }

  /** The callbacks `cs` delivered in order; nothing more happens once the process
      has trapped. The invariant holds after every prefix. */
  function Run(s: State, cs: seq<Capture>): (o: Outcome)
    requires Inv(s)
    ensures Inv(o.state)
    ensures s.halted ==> o == Outcome(s, [])
    decreases |cs|
  {
    if cs == [] || s.halted then Outcome(s, [])
    else
      var first := Step(s, cs[0]);
      var rest := Run(first.state, cs[1..]);
      Outcome(rest.state, first.events + rest.events)
  }

  // ---------------------------------------------------------------- projections

  /** The video samples among the callbacks, in order. */
  function Frames(cs: seq<Capture>): (fs: seq<Capture>)
    ensures |fs| <= |cs|
    ensures forall i | 0 <= i < |fs| :: fs[i].Video?
  {
    if cs == [] then []
    else (if cs[0].Video? then [cs[0]] else []) + Frames(cs[1..])
  }

  /** The timestamps of the video samples whose input was ready. */
  function ReadyStamps(fs: seq<Capture>): seq<CMTime> {
    if fs == [] then []
    else (if fs[0].Video? && fs[0].ready then [fs[0].ts] else []) + ReadyStamps(fs[1..])
  }

  /** The number of video samples for which the device could be locked. */
  function LockedFrames(fs: seq<Capture>): nat {
    if fs == [] then 0
    else (if fs[0].Video? && fs[0].locked then 1 else 0) + LockedFrames(fs[1..])
  }

  /** The number of dropped-frame callbacks. */
  function DropCount(cs: seq<Capture>): nat {
    if cs == [] then 0
    else (if cs[0].Dropped? then 1 else 0) + DropCount(cs[1..])
  }

  /** `fs` without its first `k` elements (all of `fs` when `k <= 0`). */
  function Suffix<T>(fs: seq<T>, k: int): seq<T> {
    if k <= 0 then fs else if k >= |fs| then [] else fs[k..]
  }

  /** The session anchors issued, in order. */
  function Anchors(ev: seq<Event>): seq<CMTime> {
    if ev == [] then []
    else (if ev[0].StartSession? then [ev[0].at] else []) + Anchors(ev[1..])
  }

  /** The timestamps of the appended video samples, in order. */
  function Appended(ev: seq<Event>): seq<CMTime> {
    if ev == [] then []
    else (if ev[0].AppendVideo? then [ev[0].ts] else []) + Appended(ev[1..])
  }

  /** The number of calls of the writer's `startWriting`. */
  function WriterStarts(ev: seq<Event>): nat {
    if ev == [] then 0
    else (if ev[0].WriterStart? then 1 else 0) + WriterStarts(ev[1..])
  }

  lemma ProjectionsAppend(a: seq<Event>, b: seq<Event>)
    ensures Anchors(a + b) == Anchors(a) + Anchors(b)
    ensures Appended(a + b) == Appended(a) + Appended(b)
    ensures WriterStarts(a + b) == WriterStarts(a) + WriterStarts(b)
    ensures CountExposures(a + b) == CountExposures(a) + CountExposures(b)
  {
    AnchorsAppend(a, b);
    AppendedAppend(a, b);
    WriterStartsAppend(a, b);
    CountExposuresAppend(a, b);
  }

  lemma {:induction false} AnchorsAppend(a: seq<Event>, b: seq<Event>)
    ensures Anchors(a + b) == Anchors(a) + Anchors(b)
    decreases |a|
  {
    if a == [] {
      assert a + b == b;
    } else {
      assert (a + b)[0] == a[0] && (a + b)[1..] == a[1..] + b;
      var h := if a[0].StartSession? then [a[0].at] else [];
      assert Anchors(a + b) == h + Anchors(a[1..] + b);
      assert Anchors(a) == h + Anchors(a[1..]);
      AnchorsAppend(a[1..], b);
      assert h + (Anchors(a[1..]) + Anchors(b)) == (h + Anchors(a[1..])) + Anchors(b);
    }
  }

  lemma {:induction false} AppendedAppend(a: seq<Event>, b: seq<Event>)
    ensures Appended(a + b) == Appended(a) + Appended(b)
    decreases |a|
  {
    if a == [] {
      assert a + b == b;
    } else {
      assert (a + b)[0] == a[0] && (a + b)[1..] == a[1..] + b;
      var h := if a[0].AppendVideo? then [a[0].ts] else [];
      assert Appended(a + b) == h + Appended(a[1..] + b);
      assert Appended(a) == h + Appended(a[1..]);
      AppendedAppend(a[1..], b);
      assert h + (Appended(a[1..]) + Appended(b)) == (h + Appended(a[1..])) + Appended(b);
    }
  }

  lemma {:induction false} WriterStartsAppend(a: seq<Event>, b: seq<Event>)
    ensures WriterStarts(a + b) == WriterStarts(a) + WriterStarts(b)
    decreases |a|
  {
    if a == [] {
      assert a + b == b;
    } else {
      assert (a + b)[1..] == a[1..] + b;
      WriterStartsAppend(a[1..], b);
    }
  }

  lemma ExposuresProjected(ev: seq<Event>)
    requires AtMostOneExposure(ev)
    ensures Anchors(ev) == [] && Appended(ev) == [] && WriterStarts(ev) == 0
    ensures CountExposures(ev) == |ev|
  {
    if ev != [] {
      assert ev[1..] == [];
    }
  }

  lemma SuffixTail(fs: seq<Capture>, k: int)
    requires fs != [] && k >= 1
    ensures Suffix(fs, k) == Suffix(fs[1..], k - 1)
  {
    if k < |fs| {
      assert fs[k..] == fs[1..][k - 1..];
    }
  }

  // ---------------------------------------------------------------- one step, projected

  /** What the writer calls of one video step contribute to each projection. */
  lemma WriterCallsProjected(first: bool, n: int, to: int, ts: CMTime, ready: bool)
    ensures var w := WriterCalls(first, n, to, ts, ready);
      && Anchors(w) == (if n == to then [ts] else [])
      && Appended(w) == (if ready && n >= to then [ts] else [])
      && WriterStarts(w) == (if first then 1 else 0)
      && CountExposures(w) == 0
  {
    var a := if first then [WriterStart] else [];
    var b := if n == to then [StartSession(ts)] else [];
    var c := if ready && n >= to then [AppendVideo(ts)] else [];
    assert WriterCalls(first, n, to, ts, ready) == a + (b + c);
    OneCallProjected(a);
    OneCallProjected(b);
    OneCallProjected(c);
    ProjectionsAppend(b, c);
    ProjectionsAppend(a, b + c);
  }

  /** A single event, projected. */
  lemma OneCallProjected(e: seq<Event>)
    requires |e| <= 1
    ensures Anchors(e) == (if e != [] && e[0].StartSession? then [e[0].at] else [])
    ensures Appended(e) == (if e != [] && e[0].AppendVideo? then [e[0].ts] else [])
    ensures WriterStarts(e) == (if e != [] && e[0].WriterStart? then 1 else 0)
    ensures CountExposures(e) == (if e != [] && e[0].SetExposure? then 1 else 0)
  {
    if e != [] {
      assert e[1..] == [];
    }
  }

  /** What a video step that does not trap contributes to each projection. */
  lemma VideoStepProjected(s: State, ts: CMTime, ready: bool, locked: bool)
    requires Inv(s) && NoTrap(s) && s.isWriting
    ensures var o := VideoStep(s, ts, ready, locked);
            var n := s.videoSpoolerUpper + 1;
            var to := s.videoSpoolerUpperTO;
      && Anchors(o.events) == (if n == to then [ts] else [])
      && Appended(o.events) == (if ready && n >= to then [ts] else [])
      && WriterStarts(o.events) == (if s.firstSample then 1 else 0)
      && CountExposures(o.events) == (if s.flippingIso && locked then 1 else 0)
  {
    var x := IsoSwapEvents(s, locked);
    var w := WriterCalls(s.firstSample, s.videoSpoolerUpper + 1, s.videoSpoolerUpperTO, ts, ready);
    VideoStepShape(s, ts, ready, locked);
    SplitProjected(x, w);
    WriterCallsProjected(s.firstSample, s.videoSpoolerUpper + 1, s.videoSpoolerUpperTO, ts, ready);
  }

  /** Exposure requests followed by writer calls, projected. */
  lemma SplitProjected(x: seq<Event>, w: seq<Event>)
    requires AtMostOneExposure(x)
    ensures Anchors(x + w) == Anchors(w) && Appended(x + w) == Appended(w)
    ensures WriterStarts(x + w) == WriterStarts(w)
    ensures CountExposures(x + w) == |x| + CountExposures(w)
  {
    ExposuresProjected(x);
    ProjectionsAppend(x, w);
  }

  /** What an audio or drop step contributes: no field but the drop counter
      changes, and the only possible effect is one audio append. */
  lemma NonVideoStepProjected(s: State, c: Capture)
    requires Inv(s) && NoTrap(s) && !c.Video?
    ensures var o := Step(s, c);
      && NoTrap(o.state)
      && o.state.(droppedFrameCounter := s.droppedFrameCounter) == s
      && o.state.droppedFrameCounter == s.droppedFrameCounter + (if c.Dropped? then 1 else 0)
      && (o.events == [] || o.events == [AppendAudio])
      && Anchors(o.events) == [] && Appended(o.events) == []
      && WriterStarts(o.events) == 0 && CountExposures(o.events) == 0
  {
    var o := Step(s, c);
    if o.events != [] {
      assert o.events == [AppendAudio];
      assert o.events[1..] == [];
    }
  }

  /** One callback's contribution to the spool window. */
  lemma StepSpool(s: State, c: Capture)
    requires Inv(s) && NoTrap(s) && s.isWriting
    ensures var o := Step(s, c);
            var n := s.videoSpoolerUpper + 1;
            var to := s.videoSpoolerUpperTO;
      && NoTrap(o.state) && o.state.isWriting
      && o.state.videoSpoolerUpperTO == to
      && o.state.videoSpoolerUpper == s.videoSpoolerUpper + (if c.Video? then 1 else 0)
      && o.state.firstSample == (s.firstSample && !c.Video?)
      && Anchors(o.events) == (if c.Video? && n == to then [c.ts] else [])
      && Appended(o.events) == (if c.Video? && c.ready && n >= to then [c.ts] else [])
      && WriterStarts(o.events) == (if c.Video? && s.firstSample then 1 else 0)
  {
    if c.Video? {
      VideoStepShape(s, c.ts, c.ready, c.locked);
      VideoStepProjected(s, c.ts, c.ready, c.locked);
    } else {
      NonVideoStepProjected(s, c);
    }
  }

  /** One callback's contribution to exposure cycling and to the drop counter. */
  lemma StepPhase(s: State, c: Capture)
    requires Inv(s) && NoTrap(s) && s.isWriting
    ensures var o := Step(s, c);
      && NoTrap(o.state) && o.state.isWriting
      && o.state.flippingIso == s.flippingIso
      && o.state.bracketMax == s.bracketMax
      && o.state.currentBracket
         == (if c.Video? && s.flippingIso then NextBracket(s.currentBracket, s.bracketMax) else s.currentBracket)
      && o.state.droppedFrameCounter == s.droppedFrameCounter + (if c.Dropped? then 1 else 0)
      && CountExposures(o.events) == (if c.Video? && s.flippingIso && c.locked then 1 else 0)
  {
    if c.Video? {
      VideoStepShape(s, c.ts, c.ready, c.locked);
      VideoStepProjected(s, c.ts, c.ready, c.locked);
    } else {
      NonVideoStepProjected(s, c);
    }
  }

  /** Joining the anchor of the first frame with the anchors of the remaining
      ones, where the anchor frame is the `k`-th (from 0) of `[f] + fr`. */
  lemma AnchorsCombine(k: int, f: Capture, fr: seq<Capture>)
    requires f.Video? && forall i | 0 <= i < |fr| :: fr[i].Video?
    ensures var fs := [f] + fr;
      (if k == 0 then [f.ts] else []) + (if 0 <= k - 1 < |fr| then [fr[k - 1].ts] else [])
      == (if 0 <= k < |fs| then [fs[k].ts] else [])
  {
    var fs := [f] + fr;
    if 0 <= k - 1 < |fr| {
      assert fs[k] == fr[k - 1];
    }
  }

  /** Joining the append decision of the first frame with those of the remaining
      ones, where the appends start at the `k`-th frame (from 0) of `[f] + fr`. */
  lemma AppendedCombine(k: int, f: Capture, fr: seq<Capture>)
    requires f.Video? && forall i | 0 <= i < |fr| :: fr[i].Video?
    ensures var fs := [f] + fr;
      (if f.ready && k <= 0 then [f.ts] else []) + ReadyStamps(Suffix(fr, k - 1))
      == ReadyStamps(Suffix(fs, k))
  {
    var fs := [f] + fr;
    assert fs[1..] == fr;
    if k >= 1 {
      SuffixTail(fs, k);
    } else {
      assert Suffix(fs, k) == fs;
      assert Suffix(fr, k - 1) == fr;
    }
  }

  // ---------------------------------------------------------------- whole runs

  /** Spool-up window and anchor over any stream of callbacks while writing, where
      `c` frames were already counted and `k = videoSpoolerUpperTO - c - 1` more
      arrive before the threshold frame: the counter ends at `c` plus the number
      of video samples; the session is anchored at most once, at the timestamp of
      the `videoSpoolerUpperTO`-th counted frame (video sample `k` of the stream,
      counting from 0); the appended video samples are exactly the ready ones from
      that frame on. */
  lemma {:induction false} SpoolWindow(s: State, cs: seq<Capture>, k: int)
    requires Inv(s) && NoTrap(s) && s.isWriting
    requires k == s.videoSpoolerUpperTO - s.videoSpoolerUpper - 1
    ensures var o := Run(s, cs);
            var fs := Frames(cs);
      && NoTrap(o.state) && o.state.isWriting
      && o.state.videoSpoolerUpper == s.videoSpoolerUpper + |fs|
      && Anchors(o.events) == (if 0 <= k < |fs| then [fs[k].ts] else [])
      && Appended(o.events) == ReadyStamps(Suffix(fs, k))
    decreases |cs|
  {
    if cs != [] {
      var first := Step(s, cs[0]);
      var rest := Run(first.state, cs[1..]);
      assert Run(s, cs) == Outcome(rest.state, first.events + rest.events);
      StepSpool(s, cs[0]);
      var k' := if cs[0].Video? then k - 1 else k;
      SpoolWindow(first.state, cs[1..], k');
      ProjectionsAppend(first.events, rest.events);
      var fr := Frames(cs[1..]);
      var ar := Anchors(rest.events);
      var pr := Appended(rest.events);
      assert Anchors(Run(s, cs).events) == Anchors(first.events) + ar;
      assert Appended(Run(s, cs).events) == Appended(first.events) + pr;
      if cs[0].Video? {
        assert Frames(cs) == [cs[0]] + fr;
        assert ar == (if 0 <= k - 1 < |fr| then [fr[k - 1].ts] else []);
        assert pr == ReadyStamps(Suffix(fr, k - 1));
        assert Anchors(first.events) == (if k == 0 then [cs[0].ts] else []);
        assert Appended(first.events) == (if cs[0].ready && k <= 0 then [cs[0].ts] else []);
        AnchorsCombine(k, cs[0], fr);
        AppendedCombine(k, cs[0], fr);
      } else {
        assert Frames(cs) == fr;
        assert Anchors(first.events) == [] && Appended(first.events) == [];
      }
    }
  }

  /** The writer's `startWriting` is called once over any stream of callbacks
      that contains a video sample, if `firstSample` was set, and never
      otherwise; `firstSample` is clear from the first video sample on. */
  lemma {:induction false} WriterStartOnce(s: State, cs: seq<Capture>)
    requires Inv(s) && NoTrap(s) && s.isWriting
    ensures var o := Run(s, cs);
      && o.state.firstSample == (s.firstSample && Frames(cs) == [])
      && WriterStarts(o.events) == (if s.firstSample && Frames(cs) != [] then 1 else 0)
      && o.state.videoSpoolerUpperTO == s.videoSpoolerUpperTO
    decreases |cs|
  {
    if cs != [] {
      var first := Step(s, cs[0]);
      var rest := Run(first.state, cs[1..]);
      assert Run(s, cs) == Outcome(rest.state, first.events + rest.events);
      StepSpool(s, cs[0]);
      WriterStartOnce(first.state, cs[1..]);
      ProjectionsAppend(first.events, rest.events);
      if cs[0].Video? {
        assert Frames(cs) == [cs[0]] + Frames(cs[1..]);
      } else {
        assert Frames(cs) == Frames(cs[1..]);
      }
    }
  }

  /** Exposure cycling follows the real frame cadence: over any stream of callbacks
      while writing, exposure is programmed once per video sample whose device
      lock succeeded (never after a stop), and the bracket moves once per video
      sample whatever the writer's readiness. */
  lemma {:induction false} ExposurePhase(s: State, cs: seq<Capture>)
    requires Inv(s) && NoTrap(s) && s.isWriting
    ensures var o := Run(s, cs);
            var fs := Frames(cs);
      && CountExposures(o.events) == (if s.flippingIso then LockedFrames(fs) else 0)
      && o.state.currentBracket
         == (if s.flippingIso then BracketAfter(s.currentBracket, s.bracketMax, |fs|) else s.currentBracket)
  {
    ExposureCount(s, cs);
    BracketPhase(s, cs);
  }

  lemma {:induction false} ExposureCount(s: State, cs: seq<Capture>)
    requires Inv(s) && NoTrap(s) && s.isWriting
    ensures CountExposures(Run(s, cs).events) == (if s.flippingIso then LockedFrames(Frames(cs)) else 0)
    decreases |cs|
  {
    if cs != [] {
      var first := Step(s, cs[0]);
      var rest := Run(first.state, cs[1..]);
      assert Run(s, cs).events == first.events + rest.events;
      StepPhase(s, cs[0]);
      ExposureCount(first.state, cs[1..]);
      CountExposuresAppend(first.events, rest.events);
      var fs, fr := Frames(cs), Frames(cs[1..]);
      if cs[0].Video? {
        assert fs == [cs[0]] + fr;
        assert fs[1..] == fr;
        assert LockedFrames(fs) == (if cs[0].locked then 1 else 0) + LockedFrames(fr);
      } else {
        assert fs == fr;
      }
    }
  }

  lemma {:induction false} BracketPhase(s: State, cs: seq<Capture>)
    requires Inv(s) && NoTrap(s) && s.isWriting
    ensures Run(s, cs).state.currentBracket
         == (if s.flippingIso then BracketAfter(s.currentBracket, s.bracketMax, |Frames(cs)|) else s.currentBracket)
    decreases |cs|
  {
    if cs != [] {
      var first := Step(s, cs[0]);
      assert Run(s, cs).state == Run(first.state, cs[1..]).state;
      StepPhase(s, cs[0]);
      BracketPhase(first.state, cs[1..]);
      var fs, fr := Frames(cs), Frames(cs[1..]);
      if cs[0].Video? {
        assert fs == [cs[0]] + fr;
        if s.flippingIso {
          assert BracketAfter(s.currentBracket, s.bracketMax, |fs|)
              == BracketAfter(NextBracket(s.currentBracket, s.bracketMax), s.bracketMax, |fr|);
        }
      } else {
        assert fs == fr;
      }
    }
  }

  /** The drop counter counts exactly the drop callbacks, and nothing else moves
      it: a sample the writer is not ready for is not counted as dropped. The drop
      callback is not gated, so this holds whether or not a writer is set up. */
  lemma {:induction false} DropPhase(s: State, cs: seq<Capture>)
    requires Inv(s) && NoTrap(s)
    ensures Run(s, cs).state.droppedFrameCounter == s.droppedFrameCounter + DropCount(cs)
    decreases |cs|
  {
    if cs != [] {
      var first := Step(s, cs[0]);
      assert Run(s, cs).state == Run(first.state, cs[1..]).state;
      if s.isWriting {
        StepPhase(s, cs[0]);
      } else if cs[0].Dropped? {
        assert first.state == s.(droppedFrameCounter := s.droppedFrameCounter + 1);
      } else if cs[0].Video? {
        GateClosed(s, cs[0].ts, cs[0].ready, cs[0].locked, true);
      } else {
        GateClosed(s, CMTime(0, 1), true, true, cs[0].audioReady);
      }
      DropPhase(first.state, cs[1..]);
    }
  }

  // ---------------------------------------------------------------- appends follow the anchor

  predicate IsWrite(e: Event) {
    e.AppendVideo? || e.AppendAudio?
  }

  predicate NoWrites(ev: seq<Event>) {
    forall i | 0 <= i < |ev| :: !IsWrite(ev[i])
  }

  predicate HasAnchor(ev: seq<Event>) {
    exists j | 0 <= j < |ev| :: ev[j].StartSession?
  }

  /** Every append in `ev`, video or audio, comes after a session anchor. */
  predicate WritesAnchored(ev: seq<Event>) {
    forall i | 0 <= i < |ev| && IsWrite(ev[i]) :: exists j | 0 <= j < i :: ev[j].StartSession?
  }

  lemma NoWritesThen(a: seq<Event>, b: seq<Event>)
    requires NoWrites(a) && WritesAnchored(b)
    ensures WritesAnchored(a + b)
  {
    var ev := a + b;
    forall i | 0 <= i < |ev| && IsWrite(ev[i]) ensures exists j | 0 <= j < i :: ev[j].StartSession? {
      assert i >= |a| && ev[i] == b[i - |a|];
      var j :| 0 <= j < i - |a| && b[j].StartSession?;
      assert ev[|a| + j] == b[j];
    }
  }

  lemma AnchoredThen(a: seq<Event>, b: seq<Event>)
    requires WritesAnchored(a) && HasAnchor(a)
    ensures WritesAnchored(a + b) && HasAnchor(a + b)
  {
    var ev := a + b;
    var k :| 0 <= k < |a| && a[k].StartSession?;
    assert ev[k] == a[k];
    forall i | 0 <= i < |ev| && IsWrite(ev[i]) ensures exists j | 0 <= j < i :: ev[j].StartSession? {
      if i < |a| {
        assert ev[i] == a[i];
        var j :| 0 <= j < i && a[j].StartSession?;
        assert ev[j] == a[j];
      } else {
        assert ev[k].StartSession? && k < i;
      }
    }
  }

  /** The writer calls of a video step, after its exposure requests: below the
      threshold they contain no append; on the threshold frame the anchor comes
      before the append. */
  lemma WriterCallsAnchored(first: bool, n: int, to: int, ts: CMTime, ready: bool, x: seq<Event>)
    requires AtMostOneExposure(x)
    ensures var ev := x + WriterCalls(first, n, to, ts, ready);
      && (n < to ==> NoWrites(ev))
      && (n == to ==> WritesAnchored(ev) && HasAnchor(ev))
  {
    var a := if first then [WriterStart] else [];
    var b := if n == to then [StartSession(ts)] else [];
    var c := if ready && n >= to then [AppendVideo(ts)] else [];
    var ev := x + WriterCalls(first, n, to, ts, ready);
    assert ev == x + a + b + c;
    if n == to {
      var k := |x| + |a|;
      assert ev[k] == StartSession(ts);
      forall i | 0 <= i < |ev| && IsWrite(ev[i]) ensures exists j | 0 <= j < i :: ev[j].StartSession? {
        assert i > k;
      }
    }
  }

  /** One callback issued before the threshold frame: either it issues no append
      and the threshold is still ahead, or it is the threshold frame and its
      appends come after its anchor. */
  lemma StepAnchored(s: State, c: Capture)
    requires Inv(s) && NoTrap(s) && s.isWriting && s.videoSpoolerUpper < s.videoSpoolerUpperTO
    ensures var o := Step(s, c);
      || (o.state.videoSpoolerUpper < o.state.videoSpoolerUpperTO && NoWrites(o.events))
      || (WritesAnchored(o.events) && HasAnchor(o.events))
  {
    StepSpool(s, c);
    if c.Video? {
      VideoStepShape(s, c.ts, c.ready, c.locked);
      WriterCallsAnchored(s.firstSample, s.videoSpoolerUpper + 1, s.videoSpoolerUpperTO, c.ts, c.ready,
                          IsoSwapEvents(s, c.locked));
    } else {
      NonVideoStepProjected(s, c);
    }
  }

  /** Nothing reaches the writer ahead of the session anchor: from any state whose
      spool counter has not reached the threshold (in particular every freshly
      started recording), every video or audio append is preceded by the
      `startSessionAtSourceTime` call. */
  lemma {:induction false} WritesFollowAnchor(s: State, cs: seq<Capture>)
    requires Inv(s) && NoTrap(s) && s.isWriting && s.videoSpoolerUpper < s.videoSpoolerUpperTO
    ensures WritesAnchored(Run(s, cs).events)
    decreases |cs|
  {
    if cs != [] {
      var first := Step(s, cs[0]);
      var rest := Run(first.state, cs[1..]);
      assert Run(s, cs) == Outcome(rest.state, first.events + rest.events);
      StepSpool(s, cs[0]);
      StepAnchored(s, cs[0]);
      if first.state.videoSpoolerUpper < first.state.videoSpoolerUpperTO && NoWrites(first.events) {
        WritesFollowAnchor(first.state, cs[1..]);
        NoWritesThen(first.events, rest.events);
      } else {
        AnchoredThen(first.events, rest.events);
      }
    }
  }

  // ---------------------------------------------------------------- whole recordings

  /** The state `startWriting` leaves for the first frame of a recording. */
  predicate JustStarted(s: State) {
    && Inv(s) && NoTrap(s)
    && s.isWriting && s.firstSample && s.flippingIso && s.weAreRecording
    && s.videoSpoolerUpper == 0 && s.currentBracket == 1
  }

  /** Pressing the button on an idle, calibrated controller whose writer can be
      created prepares the first frame of a recording. */
  lemma StartIsFresh(s: State)
    requires Inv(s) && !s.halted && !s.weAreRecording && Programmable(s)
    ensures JustStarted(Press(s, true).state)
    ensures Press(s, true).state.videoSpoolerUpperTO == s.videoSpoolerUpperTO
    ensures Press(s, true).state.bracketMax == s.bracketMax
    ensures Press(s, true).state.droppedFrameCounter == s.droppedFrameCounter
  {
  }

  /** The spool window of a whole recording, from the state `startWriting`
      leaves: one anchor at the `videoSpoolerUpperTO`-th video frame, if that many
      arrive, and the ready frames from that one on appended. */
  lemma RecordingWindow(s: State, cs: seq<Capture>)
    requires JustStarted(s)
    ensures var o := Run(s, cs);
            var fs := Frames(cs);
            var to := s.videoSpoolerUpperTO;
      && Anchors(o.events) == (if to <= |fs| then [fs[to - 1].ts] else [])
      && Appended(o.events) == ReadyStamps(Suffix(fs, to - 1))
  {
    SpoolWindow(s, cs, s.videoSpoolerUpperTO - 1);
  }

  /** What reaches the writer in a whole recording, from the state `startWriting`
      leaves (see `StartIsFresh`), over any stream of callbacks, with
      `to = videoSpoolerUpperTO` (60 in the view controller): the session is
      anchored once, at the `to`-th video frame, if that many arrive; the
      appended video frames are exactly the ready ones among frames `to`,
      `to + 1`, … (frames 1 to `to - 1` never reach the writer); every append
      comes after the anchor; the writer's `startWriting` is called once, on the
      first frame. */
  lemma RecordingWrites(s: State, cs: seq<Capture>)
    requires JustStarted(s)
    ensures var o := Run(s, cs);
            var fs := Frames(cs);
            var to := s.videoSpoolerUpperTO;
      && Anchors(o.events) == (if to <= |fs| then [fs[to - 1].ts] else [])
      && Appended(o.events) == ReadyStamps(Suffix(fs, to - 1))
      && WritesAnchored(o.events)
      && WriterStarts(o.events) == (if fs != [] then 1 else 0)
  {
    RecordingWindow(s, cs);
    WriterStartOnce(s, cs);
    WritesFollowAnchor(s, cs);
  }

  /** Exposure in a whole recording: programmed once per frame whose device lock
      succeeded; after `k` frames the rotation is at bracket `k % bracketMax + 1`;
      the drop counter counts only drop callbacks. */
  lemma RecordingExposure(s: State, cs: seq<Capture>)
    requires JustStarted(s)
    ensures var o := Run(s, cs);
            var fs := Frames(cs);
      && CountExposures(o.events) == LockedFrames(fs)
      && o.state.currentBracket == |fs| % s.bracketMax + 1
      && o.state.droppedFrameCounter == s.droppedFrameCounter + DropCount(cs)
  {
    ExposurePhase(s, cs);
    DropPhase(s, cs);
    BracketCycle(1, s.bracketMax, |Frames(cs)|);
  }

  /** After a stop the gate stays open: every video frame is still counted, but no
      exposure is programmed and the bracket stays where it was. */
  lemma AfterStopTrace(s: State, writerCreated: bool, cs: seq<Capture>)
    requires Inv(s) && !s.halted && s.weAreRecording
    ensures var stopped := Press(s, writerCreated);
            var o := Run(stopped.state, cs);
      && stopped.events == [FinishWriting]
      && o.state.videoSpoolerUpper == s.videoSpoolerUpper + |Frames(cs)|
      && CountExposures(o.events) == 0
      && o.state.currentBracket == s.currentBracket
  {
    var stopped := Press(s, writerCreated).state;
    StopKeepsGateOpen(s, writerCreated);
    SpoolWindow(stopped, cs, stopped.videoSpoolerUpperTO - stopped.videoSpoolerUpper - 1);
    ExposurePhase(stopped, cs);
  }

  /** The warm-up of a recording with threshold `to >= 2`: after `to - 1` video
      frames the counter is one short of the threshold and `firstSample` is clear. */
  lemma WarmUp(s: State, cs: seq<Capture>)
    requires JustStarted(s) && s.videoSpoolerUpperTO >= 2 && |Frames(cs)| == s.videoSpoolerUpperTO - 1
    ensures var o := Run(s, cs).state;
      && Inv(o) && NoTrap(o) && o.isWriting && !o.firstSample
      && o.videoSpoolerUpper + 1 == o.videoSpoolerUpperTO
  {
    SpoolWindow(s, cs, s.videoSpoolerUpperTO - 1);
    WriterStartOnce(s, cs);
  }

  /** Audio can reach the writer before any video frame does: the audio rule asks
      only that the first video sample has been seen and that the threshold has
      been reached, so when the threshold frame finds the video input not ready,
      the next audio sample is appended although no video has been. Any state
      left by `WarmUp` meets the requirements. */
  lemma AudioBeforeFirstVideo(s: State, t: CMTime)
    requires Inv(s) && NoTrap(s) && s.isWriting && !s.firstSample
    requires s.videoSpoolerUpper + 1 == s.videoSpoolerUpperTO
    ensures var ev := Run(s, [Video(t, false, true), Audio(true)]).events;
      && Anchors(ev) == [t] && Appended(ev) == []
      && AppendAudio in ev
  {
    var cs := [Video(t, false, true), Audio(true)];
    var first := Step(s, cs[0]);
    assert NoTrap(first.state) && first.state.isWriting && !first.state.firstSample
        && first.state.videoSpoolerUpper == first.state.videoSpoolerUpperTO
        && Anchors(first.events) == [t] && Appended(first.events) == [] by {
      StepSpool(s, cs[0]);
    }
    var second := Step(first.state, cs[1]);
    assert second.events == [AppendAudio];
    assert Run(s, cs).events == first.events + second.events by {
      assert cs[1..] == [Audio(true)] && cs[1..][1..] == [];
      assert Run(first.state, cs[1..]) == Outcome(second.state, second.events + []);
    }
    AnchorsAppend(first.events, second.events);
    AppendedAppend(first.events, second.events);
    assert (first.events + second.events)[|first.events|] == AppendAudio;
  }
}
