/** The driver machine and the gallery together: what a whole enrollment leaves behind, and that matching against
    it is never an error. */
module Enrollment {
  import opened Bytes
  import opened DriverModel
  import opened DriverInvariant
  import opened DriverTheorems
  import opened DriverRelease
  import Gallery
  import FeatureCodec
  import ImageFrame
  import MatchDecision

  /** The event delivers an image of a live enrollment. */
  predicate DeliversSample(s: Machine, e: Event) {
    AcceptedFrame(e) && s.fw.live && s.fw.action == Enroll
  }

  /** In every event of an activation the stage is counted exactly when an image of a live enrollment is extracted
      and appended. */
  lemma StageCountedExactly(b: Blobs, s: Machine, e: Event)
    requires Reachable(b, s) && Enabled(s, e) && !e.Activate?
    ensures var t := Step(s, e);
      && t.fw.action == s.fw.action && t.fw.stages == s.fw.stages
      && t.fw.enrollStage
         == s.fw.enrollStage + (if DeliversSample(s, e) && e.reply.extracted && e.reply.appended then 1 else 0)
  {
    hide Reachable, DriverModel.Step, ImageFrame.DriverAccepts;
    ReachableInv(b, s);
    if AcceptedFrame(e) {
      NeverDeactivating(s, b);
      FrameCounted(s, e);
    } else {
      EventUndisturbed(s, b, e);
    }
    hide Inv;
  }

  lemma FrameCounted(s: Machine, e: Event)
    requires AcceptedFrame(e) && Enabled(s, e) && !s.deactivating
    ensures var t := Step(s, e);
      && t.fw.action == s.fw.action && t.fw.stages == s.fw.stages
      && t.fw.enrollStage
         == s.fw.enrollStage + (if DeliversSample(s, e) && e.reply.extracted && e.reply.appended then 1 else 0)
  {
    hide DriverModel.FinishCapture, ImageFrame.DriverAccepts;
    FinishSays(Take(s, CaptureRead), RasterOf(e.result.data), e.reply, SessionError);
  }

  // ---------------------------------------------------------------- touches and samples

  ghost predicate Detections(touches: seq<Gallery.Detection>) {
    forall i :: 0 <= i < |touches| ==> Gallery.DetectorContract(touches[i]) && Gallery.AllFinite(touches[i])
  }

  /** The framework's side of one delivery does what `dev_extract_print` and `dev_append_print` do with what the
      detector finds in the image: a usable touch is extracted, and an extracted scan is appended. */
  predicate Answers(reply: Reply, touch: Gallery.Detection)
    requires Gallery.DetectorContract(touch)
  {
    reply.extracted == Gallery.Extracted(touch).Features? && (reply.extracted ==> reply.appended)
  }

  /** The images of the run, in order, are those of the touches. */
  ghost predicate Fed(s: Machine, es: seq<Event>, touches: seq<Gallery.Detection>)
    requires Legal(s, es) && Detections(touches)
    decreases |es|
  {
    if es == [] then touches == []
    else if DeliversSample(s, es[0]) then
      touches != [] && Answers(es[0].reply, touches[0]) && Fed(Step(s, es[0]), es[1..], touches[1..])
    else Fed(Step(s, es[0]), es[1..], touches)
  }

  lemma {:induction false} SamplesFromFront(x: Gallery.Detection, ys: seq<Gallery.Detection>)
    requires Gallery.DetectorContract(x) && forall i :: 0 <= i < |ys| ==> Gallery.DetectorContract(ys[i])
    ensures |Gallery.Enrolled([x] + ys)|
         == (if Gallery.Extracted(x).Features? then 1 else 0) + |Gallery.Enrolled(ys)|
  {
    hide Gallery.Extracted;
    var all := [x] + ys;
    if ys == [] {
      assert all[..0] == [];
      assert all == [x];
    } else {
      var front := ys[..|ys| - 1];
      SamplesFromFront(x, front);
      assert all[..|all| - 1] == [x] + front;
      assert all[|all| - 1] == ys[|ys| - 1];
    }
  }

  /** The stage counter is the number of samples in the gallery: at every point of an enrollment it counts exactly
      the records that extract and append have put there. */
  lemma {:induction false} StagesAreSamples(b: Blobs, s: Machine, es: seq<Event>, touches: seq<Gallery.Detection>)
    requires Reachable(b, s) && Legal(s, es) && forall n :: 0 <= n < |es| ==> !es[n].Activate?
    requires Detections(touches) && Fed(s, es, touches)
    ensures Run(s, es).fw.stages == s.fw.stages && Run(s, es).fw.action == s.fw.action
    ensures Run(s, es).fw.enrollStage == s.fw.enrollStage + |Gallery.Enrolled(touches)|
    decreases |es|
  {
    hide Reachable, DeliversSample, DriverModel.Step, DriverModel.Enabled, Gallery.Extracted, Gallery.AllFinite;
    if es == [] {
    } else {
      StageCountedExactly(b, s, es[0]);
      ReachableStep(b, s, es[0]);
      if DeliversSample(s, es[0]) {
        StagesAreSamples(b, Step(s, es[0]), es[1..], touches[1..]);
        SamplesFromFront(touches[0], touches[1..]);
        assert touches == [touches[0]] + touches[1..];
      } else {
        StagesAreSamples(b, Step(s, es[0]), es[1..], touches);
      }
    }
  }

  /** The framework hands out a print when its stage counter reaches the number of stages. Such a print holds one
      sample per stage, and matching an extracted probe with it is never an error. */
  lemma CompletedEnrollmentNeverErrs(b: Blobs, s: Machine, es: seq<Event>, stages: nat,
                                     touches: seq<Gallery.Detection>, probe: Gallery.Detection,
                                     scorer: (seq<FeatureCodec.Row>, seq<FeatureCodec.Row>) -> MatchDecision.Score)
    requires Reachable(b, s) && Enabled(s, Activate(Enroll, stages)) && stages > 0
    requires Legal(Step(s, Activate(Enroll, stages)), es) && forall n :: 0 <= n < |es| ==> !es[n].Activate?
    requires Detections(touches) && Fed(Step(s, Activate(Enroll, stages)), es, touches)
    requires Run(Step(s, Activate(Enroll, stages)), es).fw.enrollStage == stages
    requires Gallery.DetectorContract(probe) && Gallery.AllFinite(probe) && Gallery.Extracted(probe).Features?
    ensures Gallery.Template(touches).Samples? && |Gallery.Template(touches).records| == stages
    ensures Gallery.PrintsMatch(Gallery.Template(touches), Gallery.Scan(Gallery.Extracted(probe).record), scorer)
            != Gallery.MatchError
  {
    var t := Step(s, Activate(Enroll, stages));
    ReachableStep(b, s, Activate(Enroll, stages));
    assert t.fw.enrollStage == 0;
    hide Reachable, Legal, Run, Fed, DriverModel.Step;
    StagesAreSamples(b, t, es, touches);
    Gallery.EnrolledErrsExactly(touches, probe, scorer);
    Gallery.SomeUsable(touches);
    hide Gallery.Extracted, Gallery.Enrolled;
  }
}
