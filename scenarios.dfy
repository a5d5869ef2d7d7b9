/** Two concrete recordings: two brackets, a spool-up threshold of 3 and five
    video frames, each frame's device lock succeeding. */
module Scenarios {
  import opened Media
  import opened Recorder
  import opened Runs

  /** Five video frames whose device lock succeeded; the video input is ready
      for every frame except possibly the fourth. */
  predicate FiveFrames(cs: seq<Capture>) {
    && |cs| == 5
    && cs[0].Video? && cs[1].Video? && cs[2].Video? && cs[3].Video? && cs[4].Video?
    && cs[0].locked && cs[1].locked && cs[2].locked && cs[3].locked && cs[4].locked
    && cs[0].ready && cs[1].ready && cs[2].ready && cs[4].ready
  }

  /** All five callbacks are video frames. */
  lemma FramesOfFive(cs: seq<Capture>)
    requires FiveFrames(cs)
    ensures Frames(cs) == cs
  {
    assert cs[4..][1..] == [] && cs[3..][1..] == cs[4..] && cs[2..][1..] == cs[3..] && cs[1..][1..] == cs[2..];
    assert Frames(cs[4..]) == cs[4..];
    assert Frames(cs[3..]) == cs[3..];
    assert Frames(cs[2..]) == cs[2..];
    assert Frames(cs[1..]) == cs[1..];
    assert Frames(cs) == [cs[0]] + cs[1..];
  }

  /** The ready frames from the third on. */
  lemma ReadyOfFive(cs: seq<Capture>)
    requires FiveFrames(cs)
    ensures ReadyStamps(Suffix(cs, 2)) == [cs[2].ts] + (if cs[3].ready then [cs[3].ts] else []) + [cs[4].ts]
  {
    assert cs[4..][1..] == [] && cs[3..][1..] == cs[4..] && cs[2..][1..] == cs[3..];
    assert ReadyStamps(cs[4..]) == [cs[4].ts];
    assert ReadyStamps(cs[3..]) == (if cs[3].ready then [cs[3].ts] else []) + [cs[4].ts];
    assert ReadyStamps(cs[2..]) == [cs[2].ts] + ((if cs[3].ready then [cs[3].ts] else []) + [cs[4].ts]);
    assert Suffix(cs, 2) == cs[2..];
  }

  /** Every frame was locked, and nothing was dropped. */
  lemma LockedOfFive(cs: seq<Capture>)
    requires FiveFrames(cs)
    ensures LockedFrames(cs) == 5 && DropCount(cs) == 0
  {
    assert cs[4..][1..] == [] && cs[3..][1..] == cs[4..] && cs[2..][1..] == cs[3..] && cs[1..][1..] == cs[2..];
    assert LockedFrames(cs[4..]) == 1 && DropCount(cs[4..]) == 0;
    assert LockedFrames(cs[3..]) == 2 && DropCount(cs[3..]) == 0;
    assert LockedFrames(cs[2..]) == 3 && DropCount(cs[2..]) == 0;
    assert LockedFrames(cs[1..]) == 4 && DropCount(cs[1..]) == 0;
  }

  /** Five frames arrive with a threshold of 3: frames 1 and 2 are only counted;
      frame 3 is the anchor and the first frame written; frames 4 and 5 are
      written too, except that frame 4 is silently left out when the video input
      is not ready for it; the exposure is programmed on all five frames, and
      the rotation ends at bracket 2. The capture drop counter does not move:
      a frame the writer rejects is not a frame the capture stage dropped. */
  lemma FiveFrameRecording(s: State, cs: seq<Capture>)
    requires JustStarted(s) && s.bracketMax == 2 && s.videoSpoolerUpperTO == 3
    requires FiveFrames(cs)
    ensures var o := Run(s, cs);
      && Anchors(o.events) == [cs[2].ts]
      && Appended(o.events) == [cs[2].ts] + (if cs[3].ready then [cs[3].ts] else []) + [cs[4].ts]
      && CountExposures(o.events) == 5
      && o.state.currentBracket == 2
      && o.state.droppedFrameCounter == s.droppedFrameCounter
  {
    FramesOfFive(cs);
    ReadyOfFive(cs);
    LockedOfFive(cs);
    RecordingWrites(s, cs);
    RecordingExposure(s, cs);
    assert 5 % 2 == 1;
  }
}
