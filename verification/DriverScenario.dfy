/** Concrete runs of the driver, and when two of its transfers overlap. */
module DriverScenario {
  import opened Bytes
  import opened DriverModel
  import opened DriverInvariant
  import opened DriverTheorems
  import ImageFrame

  /** An enrollment of two stages, at one point of the run. */
  ghost predicate Scene(b: Blobs, s: Machine, p: multiset<Op>, captures: nat, live: bool, due: bool) {
    && Reachable(b, s) && s.pending == p && !s.deactivating
    && s.captureCount == captures && !s.awaitingRelease
    && s.fw == Framework(live, due, Enroll, 2, 0)
  }

  function Zeros(n: nat): Message {
    seq(n, i => 0)
  }

  function Frame(): seq<byte> {
    [0, 0, 0x8c, 0x1f, 0, 0, 56, 0, 144, 0] + Zeros(8072)
  }

  lemma FrameIsAccepted()
    ensures ImageFrame.DriverAccepts(Frame())
  {
  }

  lemma Complete(b: Blobs, s: Machine, op: Op, data: Message, reply: Reply) returns (t: Machine)
    requires Reachable(b, s) && op in s.pending && op != WakeTimer && Possible(op, Done(data))
    ensures t == Dispatch(Take(s, op), op, Done(data), reply) && Reachable(b, t)
    ensures Enabled(s, Completed(op, Done(data), reply)) && t == Step(s, Completed(op, Done(data), reply))
  {
    t := Step(s, Completed(op, Done(data), reply));
    ReachableStep(b, s, Completed(op, Done(data), reply));
  }

  lemma Fail(b: Blobs, s: Machine, op: Op, result: UsbResult) returns (t: Machine)
    requires Reachable(b, s) && op in s.pending && op != WakeTimer && Possible(op, result)
    ensures t == Dispatch(Take(s, op), op, result, SILENT) && Reachable(b, t)
  {
    t := Step(s, Completed(op, result, SILENT));
    ReachableStep(b, s, Completed(op, result, SILENT));
  }

  // ---------------------------------------------------------------- activations

  lemma StageWritten(b: Blobs, s: Machine, live: bool) returns (t: Machine)
    requires Scene(b, s, multiset{InitWrite}, 0, live, false) && s.initStage < INIT_STAGES
    ensures t.initStage == s.initStage && t.h.reports == s.h.reports && t.h.calls == s.h.calls
    ensures Scene(b, t, multiset{InitRead(RESPONSE_LENGTHS[s.initStage])}, 0, live, false)
  {
    hide Reachable;
    t := Complete(b, s, InitWrite, [], SILENT);
    assert t.pending == multiset{InitRead(RESPONSE_LENGTHS[s.initStage])};
  }

  lemma StageRead(b: Blobs, s: Machine, live: bool) returns (t: Machine)
    requires s.initStage < INIT_STAGES && Scene(b, s, multiset{InitRead(RESPONSE_LENGTHS[s.initStage])}, 0, live, false)
    ensures t.initStage == s.initStage + 1 && t.h.calls == s.h.calls
    ensures t.initStage < INIT_STAGES ==> Scene(b, t, multiset{InitWrite}, 0, live, false) && t.h.reports == s.h.reports
    ensures t.initStage == INIT_STAGES ==> Scene(b, t, multiset{}, 0, live, true) && t.h.reports == s.h.reports + [true]
  {
    hide Reachable;
    var length := RESPONSE_LENGTHS[s.initStage];
    t := Complete(b, s, InitRead(length), Zeros(length), SILENT);
    assert t.pending == if t.initStage < INIT_STAGES then multiset{InitWrite} else multiset{};
  }

  lemma Begin(b: Blobs) returns (s: Machine)
    requires WellFramed(b)
    ensures Scene(b, s, multiset{Control}, 0, true, false)
    ensures s.initStage == 0 && s.h.reports == [] && s.h.calls == [] && !s.wakeRetryUsed
  {
    var o := Opened(b.config06, b.scan);
    assert Legal(o, []) && Run(o, []) == o;
    s := Step(o, Activate(Enroll, 2));
    ReachableStep(b, o, Activate(Enroll, 2));
    assert s.pending == multiset{Control};
  }

  /** The handshake without a disturbance, from its control transfer to its report. */
  lemma Handshakes(b: Blobs, o: Machine, live: bool) returns (s: Machine)
    requires Scene(b, o, multiset{Control}, 0, live, false) && o.initStage == 0 && o.h.reports == []
    ensures Scene(b, s, multiset{}, 0, live, true) && s.h.reports == [true] && s.h.calls == o.h.calls
  {
    s := Complete(b, o, Control, [0, 0], SILENT);
    assert s.pending == multiset{InitWrite};
    hide Scene;
    while s.initStage < INIT_STAGES
      invariant s.h.calls == o.h.calls && s.initStage <= INIT_STAGES
      invariant s.initStage < INIT_STAGES ==> Scene(b, s, multiset{InitWrite}, 0, live, false) && s.h.reports == []
      invariant s.initStage == INIT_STAGES ==> Scene(b, s, multiset{}, 0, live, true) && s.h.reports == [true]
      decreases INIT_STAGES - s.initStage
    {
      var t := StageWritten(b, s, live);
      s := StageRead(b, t, live);
    }
  }

  /** An undisturbed activation reaches the state in which the framework waits for a finger. */
  lemma ActivationSucceeds(b: Blobs) returns (s: Machine)
    requires WellFramed(b)
    ensures Scene(b, s, multiset{}, 0, true, true) && s.h.reports == [true]
  {
    s := Begin(b);
    s := Handshakes(b, s, true);
  }

  /** The device disconnects, the driver waits for it to wake, and the framework deactivates it meanwhile. */
  lemma DeactivatedWakeWait(b: Blobs) returns (s: Machine)
    requires WellFramed(b)
    ensures Scene(b, s, multiset{WakeTimer}, 0, false, false)
    ensures s.h.reports == [] && s.h.calls == [DeactivateComplete]
  {
    var t := Begin(b);
    t := Fail(b, t, Control, NoDevice);
    assert t.pending == multiset{WakeTimer};
    s := Step(t, Deactivated);
    ReachableStep(b, t, Deactivated);
  }

  /** The wake timer fires all the same, the whole handshake is run, and the success of an activation is
      reported to a framework that was told before that the device is deactivated. */
  lemma ReportedAfterDeactivation(b: Blobs) returns (s: Machine)
    requires WellFramed(b)
    ensures Scene(b, s, multiset{}, 0, false, true)
    ensures s.h.reports == [true] && s.h.calls == [DeactivateComplete]
  {
    var t := DeactivatedWakeWait(b);
    s := Step(t, TimerFired);
    ReachableStep(b, t, TimerFired);
    assert s.pending == multiset{Control};
    s := Handshakes(b, s, false);
  }

  // ---------------------------------------------------------------- an enrollment with a rejected capture

  lemma FirstAnnounce(b: Blobs, s: Machine) returns (t: Machine)
    requires Scene(b, s, multiset{}, 0, true, true)
    ensures Scene(b, t, multiset{Interrupt(0)}, 0, true, false)
  {
    t := Step(s, Notified(AwaitFingerOn));
    ReachableStep(b, s, Notified(AwaitFingerOn));
    hide Reachable;
  }

  lemma NextAnnounce(b: Blobs, s: Machine, captures: nat) returns (t: Machine)
    requires Scene(b, s, multiset{}, captures, true, true) && captures > 0
    ensures Scene(b, t, multiset{RearmWrite}, captures, true, false) && t.rearmStage == 0
  {
    t := Step(s, Notified(AwaitFingerOn));
    ReachableStep(b, s, Notified(AwaitFingerOn));
    hide Reachable;
  }

  lemma FingerDown(b: Blobs, s: Machine, captures: nat) returns (t: Machine)
    requires Scene(b, s, multiset{Interrupt(0)}, captures, true, false)
    ensures Scene(b, t, multiset{CaptureRead, CaptureWrite}, captures, true, false)
  {
    hide Reachable;
    t := Complete(b, s, Interrupt(0), [0x03, 0x42, 0x04, 0, 0], SILENT);
    assert t.pending == multiset{CaptureRead, CaptureWrite};
  }

  lemma CaptureSent(b: Blobs, s: Machine, captures: nat) returns (t: Machine)
    requires Scene(b, s, multiset{CaptureRead, CaptureWrite}, captures, true, false)
    ensures Scene(b, t, multiset{CaptureRead}, captures, true, false)
  {
    hide Reachable;
    t := Complete(b, s, CaptureWrite, [], SILENT);
    assert t.pending == multiset{CaptureRead};
  }

  lemma Rejected(b: Blobs, s: Machine) returns (t: Machine)
    requires Scene(b, s, multiset{CaptureRead}, 0, true, false)
    ensures Reachable(b, t) && t.pending == multiset{Interrupt(RELEASE_QUIET_MS)}
    ensures t.captureCount == 1 && t.awaitingRelease && !t.deactivating
    ensures t.fw == Framework(true, true, Enroll, 2, 0)
  {
    hide Reachable;
    FrameIsAccepted();
    hide Frame, ImageFrame.DriverAccepts;
    t := Complete(b, s, CaptureRead, Frame(), SILENT);
    assert t.pending == multiset{Interrupt(RELEASE_QUIET_MS)};
  }

  lemma FingerUp(b: Blobs, s: Machine) returns (t: Machine)
    requires Reachable(b, s) && s.pending == multiset{Interrupt(RELEASE_QUIET_MS)}
    requires s.captureCount == 1 && s.awaitingRelease && !s.deactivating
    requires s.fw == Framework(true, true, Enroll, 2, 0)
    ensures Scene(b, t, multiset{}, 1, true, true)
  {
    hide Reachable;
    t := Fail(b, s, Interrupt(RELEASE_QUIET_MS), TimedOut);
    assert t.pending == multiset{};
  }

  /** Nothing but the outstanding transfers and the re-arm stage differs. */
  predicate Rearming(s: Machine, t: Machine) {
    && t.fw == s.fw && t.captureCount == s.captureCount && t.awaitingRelease == s.awaitingRelease
    && t.deactivating == s.deactivating && t.h.calls == s.h.calls
  }

  function RearmWritten(): Event {
    Completed(RearmWrite, Done([]), SILENT)
  }

  function RearmAnswered(length: nat): Event {
    Completed(RearmRead(length), Done(Zeros(length)), SILENT)
  }

  lemma RearmSent(b: Blobs, s: Machine, rest: multiset<Op>) returns (t: Machine)
    requires Reachable(b, s) && s.pending == multiset{RearmWrite} + rest
    ensures Enabled(s, RearmWritten()) && t == Step(s, RearmWritten())
    ensures Reachable(b, t) && Rearming(s, t) && t.rearmStage == s.rearmStage
    ensures t.pending == multiset{RearmRead(if s.rearmStage == 0 then 2 else SCAN_RESPONSE_LENGTH)} + rest
  {
    hide Reachable;
    t := Complete(b, s, RearmWrite, [], SILENT);
    assert s.pending - multiset{RearmWrite} == rest;
  }

  lemma FirstRearmRead(b: Blobs, s: Machine, rest: multiset<Op>) returns (t: Machine)
    requires Reachable(b, s) && s.pending == multiset{RearmRead(2)} + rest && s.rearmStage == 0
    ensures Enabled(s, RearmAnswered(2)) && t == Step(s, RearmAnswered(2))
    ensures Reachable(b, t) && Rearming(s, t) && t.rearmStage == 1 && t.pending == multiset{RearmWrite} + rest
  {
    hide Reachable, DriverModel.PatchMode;
    t := Complete(b, s, RearmRead(2), Zeros(2), SILENT);
    assert s.pending - multiset{RearmRead(2)} == rest;
  }

  lemma LastRearmRead(b: Blobs, s: Machine, rest: multiset<Op>) returns (t: Machine)
    requires Reachable(b, s) && s.pending == multiset{RearmRead(SCAN_RESPONSE_LENGTH)} + rest && s.rearmStage == 1
    requires !s.deactivating
    ensures Enabled(s, RearmAnswered(SCAN_RESPONSE_LENGTH)) && t == Step(s, RearmAnswered(SCAN_RESPONSE_LENGTH))
    ensures Reachable(b, t) && Rearming(s, t)
    ensures t.pending == multiset{Interrupt(if s.awaitingRelease then RELEASE_QUIET_MS else 0)} + rest
  {
    hide Reachable;
    t := Complete(b, s, RearmRead(SCAN_RESPONSE_LENGTH), Zeros(SCAN_RESPONSE_LENGTH), SILENT);
    assert s.pending - multiset{RearmRead(SCAN_RESPONSE_LENGTH)} == rest;
  }

  function RearmEvents(): seq<Event> {
    [RearmWritten()] + [RearmAnswered(2)] + [RearmWritten()] + [RearmAnswered(SCAN_RESPONSE_LENGTH)]
  }

  /** The whole re-arm, beside whatever else is outstanding: its interrupt has the timeout of the moment. */
  lemma Rearm(b: Blobs, s: Machine, rest: multiset<Op>) returns (t: Machine)
    requires Reachable(b, s) && s.pending == multiset{RearmWrite} + rest && s.rearmStage == 0 && !s.deactivating
    ensures Legal(s, RearmEvents()) && t == Run(s, RearmEvents())
    ensures Reachable(b, t) && Rearming(s, t)
    ensures t.pending == multiset{Interrupt(if s.awaitingRelease then RELEASE_QUIET_MS else 0)} + rest
  {
    assert Legal(s, []) && Run(s, []) == s;
    hide Reachable, Legal, Run, Step, Enabled, RearmWritten, RearmAnswered;
    t := RearmSent(b, s, rest);
    RunOneMore(s, [], RearmWritten());
    assert [] + [RearmWritten()] == [RearmWritten()];
    t := FirstRearmRead(b, t, rest);
    RunOneMore(s, [RearmWritten()], RearmAnswered(2));
    t := RearmSent(b, t, rest);
    RunOneMore(s, [RearmWritten()] + [RearmAnswered(2)], RearmWritten());
    t := LastRearmRead(b, t, rest);
    RunOneMore(s, [RearmWritten()] + [RearmAnswered(2)] + [RearmWritten()], RearmAnswered(SCAN_RESPONSE_LENGTH));
  }

  /** Two stages, the first capture rejected, the second accepted: finger-off is reported on a stage that is
      not the last, and when the framework goes on to the next stage from inside that call, the re-arm and
      the release interrupt are outstanding together. */
  lemma RejectedCaptureOverlaps(b: Blobs) returns (s: Machine, t: Machine)
    requires WellFramed(b)
    ensures Reachable(b, s) && Reachable(b, t) && CaptureRead in s.pending && s.fw.enrollStage == 0
    ensures t.fw == Framework(true, false, Enroll, 2, 1) && t.captureCount == 2
    ensures t == Step(s, Completed(CaptureRead, Done(Frame()), Reply(true, true, Nothing, AnnounceAwaitFingerOn)))
    ensures Count(t, FingerStatus(false)) == Count(s, FingerStatus(false)) + 1
    ensures t.pending == multiset{RearmWrite} + multiset{Interrupt(RELEASE_QUIET_MS)}
    ensures t.awaitingRelease && t.rearmStage == 0 && !t.deactivating
  {
    s := ActivationSucceeds(b);
    s := FirstAnnounce(b, s);
    s := FingerDown(b, s, 0);
    s := CaptureSent(b, s, 0);
    s := Rejected(b, s);
    s := FingerUp(b, s);
    s := NextAnnounce(b, s, 1);
    s := Rearm(b, s, multiset{});
    assert s.pending == multiset{Interrupt(0)};
    s := FingerDown(b, s, 1);
    s := CaptureSent(b, s, 1);
    t := AcceptAndAnnounce(b, s);
  }

  lemma AcceptAndAnnounce(b: Blobs, s: Machine) returns (t: Machine)
    requires Scene(b, s, multiset{CaptureRead}, 1, true, false)
    ensures Reachable(b, t) && t.fw == Framework(true, false, Enroll, 2, 1) && t.captureCount == 2
    ensures t == Step(s, Completed(CaptureRead, Done(Frame()), Reply(true, true, Nothing, AnnounceAwaitFingerOn)))
    ensures Count(t, FingerStatus(false)) == Count(s, FingerStatus(false)) + 1
    ensures t.pending == multiset{RearmWrite} + multiset{Interrupt(RELEASE_QUIET_MS)}
    ensures t.awaitingRelease && t.rearmStage == 0 && !t.deactivating
  {
    hide Reachable;
    FrameIsAccepted();
    hide Frame, ImageFrame.DriverAccepts, DriverModel.FinishCapture;
    t := Complete(b, s, CaptureRead, Frame(), Reply(true, true, Nothing, AnnounceAwaitFingerOn));
    assert s.pending - multiset{CaptureRead} == multiset{};
    AnnouncedAtOnce(Take(s, CaptureRead), RasterOf(Frame()));
  }

  /** The second capture of two stages, the first of which was rejected: taken for the last, counted as the first,
      and followed by AWAIT_FINGER_ON. */
  lemma AnnouncedAtOnce(s: Machine, raster: seq<byte>)
    requires s.pending == multiset{} && s.captureCount == 1 && !s.deactivating
    requires s.fw == Framework(true, false, Enroll, 2, 0)
    ensures var t := FinishCapture(s, raster, Reply(true, true, Nothing, AnnounceAwaitFingerOn));
      && t.fw == Framework(true, false, Enroll, 2, 1) && t.captureCount == 2
      && t.pending == multiset{RearmWrite} + multiset{Interrupt(RELEASE_QUIET_MS)}
      && Count(t, FingerStatus(false)) == Count(s, FingerStatus(false)) + 1
      && t.awaitingRelease && t.rearmStage == 0 && !t.deactivating
  {
    var t := CountImage(s.(captureCount := s.captureCount + 1), raster);
    var u := t.(fw := t.fw.(due := true));
    AnnouncedHandover(u);
    hide DriverModel.Config39, DriverModel.Handover;
  }

  lemma AnnouncedHandover(s: Machine)
    requires s.pending == multiset{} && s.captureCount == 2 && !s.deactivating
    requires s.fw == Framework(true, true, Enroll, 2, 0)
    ensures Handover(s, Reply(true, true, Nothing, AnnounceAwaitFingerOn))
         == RearmSendStage(Say(s, FingerStatus(false)).(fw := Framework(true, false, Enroll, 2, 1), rearmStage := 0))
  {
    hide DriverModel.Config39, DriverModel.RearmSendStage;
    var t := Say(s, FingerStatus(false));
    assert ExtractPrint(s, Nothing) == t;
    var u := t.(fw := t.fw.(enrollStage := 1));
    assert ProcessPrint(t, Reply(true, true, Nothing, AnnounceAwaitFingerOn)) == React(u, AnnounceAwaitFingerOn);
  }

  /** One interrupt after the other times out: the first is the release, the second an error. */
  lemma SecondTimeout(b: Blobs, s: Machine) returns (t: Machine, u: Machine)
    requires Reachable(b, s) && s.awaitingRelease && s.fw.live
    requires s.pending == multiset{Interrupt(RELEASE_QUIET_MS)} + multiset{Interrupt(RELEASE_QUIET_MS)}
    ensures Reachable(b, t) && t == Step(s, Completed(Interrupt(RELEASE_QUIET_MS), TimedOut, SILENT))
    ensures Enabled(t, Completed(Interrupt(RELEASE_QUIET_MS), TimedOut, SILENT))
    ensures Reachable(b, u) && u == Step(t, Completed(Interrupt(RELEASE_QUIET_MS), TimedOut, SILENT))
    ensures Count(t, SessionError) == Count(s, SessionError)
    ensures Count(u, SessionError) == Count(t, SessionError) + 1 && u.fw.live && u.pending == multiset{}
  {
    hide Reachable;
    ReachableInv(b, s);
    hide Inv;
    t := Fail(b, s, Interrupt(RELEASE_QUIET_MS), TimedOut);
    assert s.pending - multiset{Interrupt(RELEASE_QUIET_MS)} == multiset{Interrupt(RELEASE_QUIET_MS)};
    u := Fail(b, t, Interrupt(RELEASE_QUIET_MS), TimedOut);
    assert t.pending - multiset{Interrupt(RELEASE_QUIET_MS)} == multiset{};
  }

  /** What the overlap leads to: the interrupt of the re-arm gets the release timeout too, because the release
      is still awaited, and after a quiet finger its timeout ends the enrollment in a session error. */
  lemma OverlapEndsSession(b: Blobs) returns (s: Machine, t: Machine)
    requires WellFramed(b)
    ensures Reachable(b, s) && s.fw.live && s.fw.enrollStage == 1 && s.fw.stages == 2
    ensures s.pending == multiset{Interrupt(RELEASE_QUIET_MS), Interrupt(RELEASE_QUIET_MS)}
    ensures Reachable(b, t) && t.fw.live && t.pending == multiset{}
    ensures Count(t, SessionError) == Count(s, SessionError) + 1
  {
    var c, o := RejectedCaptureOverlaps(b);
    s := Rearm(b, o, multiset{Interrupt(RELEASE_QUIET_MS)});
    var u;
    u, t := SecondTimeout(b, s);
  }

  // ---------------------------------------------------------------- when transfers overlap

  lemma ReactionChain(s: Machine, r: Reaction)
    requires Chain(s.pending) <= 1
    ensures Chain(React(s, r).pending) <= 1
    ensures r != AnnounceAwaitFingerOn ==> React(s, r).pending == s.pending
  {
    hide DriverModel.Config39, DriverModel.PatchMode;
  }

  lemma TakenChain(p: multiset<Op>, op: Op)
    requires op in p
    ensures Chain(p - multiset{op}) == Chain(p) - (if Leads(op) then 1 else 0)
  {
    var q := p - multiset{op};
    forall x: Op
      ensures q[x] == p[x] - (if x == op then 1 else 0)
    {
    }
    hide Leads;
    if op.Interrupt? || op.RearmRead? {
      LeadsByLength(op);
    }
    LeadsByKind(op);
  }

  lemma LeadsByKind(op: Op)
    ensures op.CaptureRead? || op.RearmWrite? ==> Leads(op)
    ensures Leads(op) ==> op.CaptureRead? || op.RearmWrite? || op.Interrupt? || op.RearmRead?
  {
  }

  lemma LeadsByLength(op: Op)
    ensures op.Interrupt? ==> (Leads(op) <==> op.timeout == 0 || op.timeout == RELEASE_QUIET_MS)
    ensures op.RearmRead? ==> (Leads(op) <==> op.length == 2 || op.length == SCAN_RESPONSE_LENGTH)
  {
  }

  lemma TakeChain(s: Machine, op: Op)
    requires op in s.pending
    ensures Chain(Take(s, op).pending) == Chain(s.pending) - (if Leads(op) then 1 else 0)
  {
    TakenChain(s.pending, op);
  }

  predicate Leads(op: Op) {
    || op == Interrupt(0) || op == Interrupt(RELEASE_QUIET_MS) || op.CaptureRead?
    || op.RearmWrite? || op == RearmRead(2) || op == RearmRead(SCAN_RESPONSE_LENGTH)
  }

  lemma FailureChain(s: Machine, r: Reaction)
    requires Chain(s.pending) <= 1 && !s.deactivating
    ensures Chain(FailSessionOrDeactivate(s, r).pending) <= 1
  {
    hide DriverModel.React;
    ReactionChain(Say(s, SessionError), r);
  }

  lemma InterruptChain(s: Machine, result: UsbResult, r: Reaction)
    requires Chain(s.pending) == 0 && !s.deactivating && (!s.awaitingRelease ==> !s.fw.due)
    ensures Chain(InterruptCb(s, result, r).pending) <= 1
  {
    hide DriverModel.React, DriverModel.FailSessionOrDeactivate;
    FailureChain(s, r);
    ReactionChain(Released(s), r);
    FingerOnReactionChain(Say(s, FingerStatus(true)), r);
  }

  lemma FingerOnReactionChain(s: Machine, r: Reaction)
    requires !s.deactivating
    ensures !s.fw.due ==> React(s, r).pending == s.pending
  {
  }

  lemma RearmChain(s: Machine, op: Op, result: UsbResult, reply: Reply)
    requires op.RearmWrite? || op.RearmRead? || op.CaptureWrite?
    requires Chain(s.pending) <= (if op.CaptureWrite? then 1 else 0) && !s.deactivating
    ensures Chain(Dispatch(s, op, result, reply).pending) <= 1
  {
    hide DriverModel.FailSessionOrDeactivate;
    FailureChain(s, reply.last);
  }

  lemma ReportChain(s: Machine, ok: bool, r: Reaction)
    requires Chain(s.pending) == 0
    ensures Chain(ActivateComplete(s, ok, r).pending) <= 1
  {
    hide DriverModel.React;
    ReactionChain(s.(h := s.h.(reports := s.h.reports + [ok]), fw := s.fw.(live := s.fw.live && ok, due := ok)), r);
  }

  lemma HandshakeChain(s: Machine, op: Op, result: UsbResult, reply: Reply)
    requires HandshakeOp(op) && op != WakeTimer
    requires Chain(s.pending) == 0 && !s.deactivating
    ensures Chain(Dispatch(s, op, result, reply).pending) <= 1
  {
    hide DriverModel.ActivateComplete;
    ReportChain(s, false, reply.last);
    ReportChain(Succeeded(s, op).(initStage := s.initStage + 1), true, reply.last);
  }

  /** The framework announces AWAIT_FINGER_ON from inside the delivery of the image that is being read. */
  predicate AnnouncesInside(s: Machine, reply: Reply) {
    var forLast := s.fw.action == Enroll && reply.extracted && s.h.images + 1 == s.fw.stages;
    var stage := s.fw.enrollStage + (if reply.extracted && reply.appended then 1 else 0);
    s.fw.live
    && ((forLast && reply.early == AnnounceAwaitFingerOn)
        || (reply.last == AnnounceAwaitFingerOn
            && !(forLast && reply.early == DeactivateDevice)
            && (s.fw.action == Enroll ==> stage != s.fw.stages)))
  }

  /** After its captures were counted. */
  predicate AnnouncesHere(s: Machine, reply: Reply) {
    var forLast := TakenForLast(s, reply);
    s.fw.live
    && ((forLast && reply.early == AnnounceAwaitFingerOn && s.fw.action != Capture)
        || (reply.last == AnnounceAwaitFingerOn
            && !(forLast && reply.early == DeactivateDevice)
            && (s.fw.action == Enroll ==> CountStage(s, reply).fw.enrollStage != s.fw.stages)))
  }

  lemma ReactionAnnounces(s: Machine, r: Reaction)
    requires Chain(s.pending) <= 1 && !s.deactivating && (s.fw.due ==> Chain(s.pending) == 0) && s.captureCount > 0
    ensures var t, announced := React(s, r), r == AnnounceAwaitFingerOn && s.fw.live && s.fw.due;
      && t.pending == (if announced then s.pending + multiset{RearmWrite} else s.pending)
      && t.fw.due == (s.fw.due && !announced) && t.fw.live == (s.fw.live && r != DeactivateDevice)
      && SameStages(s, t)
  {
  }

  lemma ExtractAnnounces(s: Machine, reply: Reply)
    requires Chain(s.pending) == 0 && !s.deactivating && s.fw.due && s.fw.live && s.captureCount > 0
    ensures var t := if reply.extracted then ExtractPrint(s, reply.early) else s;
      var announced := TakenForLast(s, reply) && reply.early == AnnounceAwaitFingerOn;
      && t.pending == (if announced then s.pending + multiset{RearmWrite} else s.pending)
      && t.fw.due == !announced && t.fw.live == !(TakenForLast(s, reply) && reply.early == DeactivateDevice)
      && SameStages(s, t)
  {
    hide DriverModel.React, DriverModel.Chain;
    ReactionAnnounces(Say(s, FingerStatus(false)), reply.early);
  }

  lemma ProcessAnnounces(s: Machine, reply: Reply)
    requires Chain(s.pending) <= 1 && !s.deactivating && (s.fw.due ==> Chain(s.pending) == 0) && s.captureCount > 0
    ensures ProcessPrint(s, reply).pending ==
            if s.fw.live && s.fw.due && reply.last == AnnounceAwaitFingerOn
               && (s.fw.action == Enroll ==> CountStage(s, reply).fw.enrollStage != s.fw.stages)
            then s.pending + multiset{RearmWrite} else s.pending
    ensures !ProcessPrint(s, reply).deactivating
  {
    hide DriverModel.React, DriverModel.Chain;
    var t := CountStage(s, reply);
    ReactionAnnounces(t, Verdict(t, reply));
  }

  lemma OneRearm(p: multiset<Op>)
    ensures Chain(p + multiset{RearmWrite}) == Chain(p) + 1
    ensures Chain(p + multiset{Interrupt(RELEASE_QUIET_MS)}) == Chain(p) + 1
  {
  }

  lemma HandoverAnnounces(s: Machine, reply: Reply)
    requires Chain(s.pending) == 0 && !s.deactivating && s.fw.due && s.fw.live && s.captureCount > 0
    ensures Handover(s, reply).pending ==
            if AnnouncesHere(s, reply) then s.pending + multiset{RearmWrite} else s.pending
    ensures !Handover(s, reply).deactivating
  {
    OneRearm(s.pending);
    hide DriverModel.React, DriverModel.ExtractPrint, DriverModel.ProcessPrint, DriverModel.Chain;
    if s.fw.action == Capture {
      ReactionAnnounces(s, reply.last);
    } else {
      ExtractAnnounces(s, reply);
      ProcessAnnounces(if reply.extracted then ExtractPrint(s, reply.early) else s, reply);
    }
  }

  lemma FinishPending(s: Machine, raster: seq<byte>, reply: Reply)
    requires !DeliverImage(s.(captureCount := s.captureCount + 1), raster, reply).deactivating
    ensures FinishCapture(s, raster, reply).pending
         == DeliverImage(s.(captureCount := s.captureCount + 1), raster, reply).pending
            + multiset{Interrupt(RELEASE_QUIET_MS)}
  {
    hide DriverModel.DeliverImage;
  }

  lemma CountedForLast(s: Machine, raster: seq<byte>, reply: Reply)
    requires s.captureCount == s.h.images && s.fw.live
    ensures var t := CountImage(s.(captureCount := s.captureCount + 1), raster);
      AnnouncesHere(t.(fw := t.fw.(due := true)), reply) <==> AnnouncesInside(s, reply)
  {
  }

  lemma DeliveryAnnounces(s: Machine, raster: seq<byte>, reply: Reply)
    requires Chain(s.pending) == 0 && !s.deactivating && s.captureCount == s.h.images
    ensures Chain(FinishCapture(s, raster, reply).pending) == if AnnouncesInside(s, reply) then 2 else 1
  {
    OneRearm(s.pending);
    OneRearm(s.pending + multiset{RearmWrite});
    DeliveredPending(s, raster, reply);
    hide DriverModel.FinishCapture, DriverModel.DeliverImage, DriverModel.Chain, AnnouncesInside;
    FinishPending(s, raster, reply);
  }

  lemma DeliveredPending(s: Machine, raster: seq<byte>, reply: Reply)
    requires Chain(s.pending) == 0 && !s.deactivating && s.captureCount == s.h.images
    ensures var t := DeliverImage(s.(captureCount := s.captureCount + 1), raster, reply);
      && !t.deactivating
      && t.pending == if AnnouncesInside(s, reply) then s.pending + multiset{RearmWrite} else s.pending
  {
    var t := CountImage(s.(captureCount := s.captureCount + 1), raster);
    hide DriverModel.Handover, DriverModel.Chain, AnnouncesHere;
    if s.fw.live {
      CountedForLast(s, raster, reply);
      hide AnnouncesInside;
      HandoverAnnounces(t.(fw := t.fw.(due := true)), reply);
    }
  }

  lemma CaptureReadChain(s: Machine, result: UsbResult, reply: Reply)
    requires Chain(s.pending) == 0 && !s.deactivating && s.captureCount == s.h.images
    ensures Chain(CaptureReadCb(s, result, reply).pending) > 1
            <==> (result.Done? && ImageFrame.DriverAccepts(result.data) && AnnouncesInside(s, reply))
  {
    hide DriverModel.FailSessionOrDeactivate, DriverModel.FinishCapture, DriverModel.Chain;
    FailureChain(s, reply.last);
    if result.Done? && ImageFrame.DriverAccepts(result.data) {
      DeliveryAnnounces(s, RasterOf(result.data), reply);
    }
  }

  /** The event is an accepted frame during whose delivery the framework announces AWAIT_FINGER_ON. */
  predicate Overlaps(s: Machine, e: Event) {
    && e.Completed? && e.op == CaptureRead
    && e.result.Done? && ImageFrame.DriverAccepts(e.result.data) && AnnouncesInside(s, e.reply)
  }

  /** Two transfers that lead on come to be outstanding together exactly when AWAIT_FINGER_ON is announced
      from inside the delivery of an image. */
  lemma OverlapExactly(b: Blobs, s: Machine, e: Event)
    requires Reachable(b, s) && Enabled(s, e) && Chain(s.pending) <= 1
    ensures Chain(Step(s, e).pending) > 1 <==> Overlaps(s, e)
  {
    hide Reachable;
    hide DriverModel.Dispatch;
    ReachableInv(b, s);
    if e.Completed? {
      if HandshakeOp(e.op) {
        HandshakeCompletionChain(s, b, e);
      } else {
        ActiveTransfer(s, b, e.op);
        ActiveCompletionChain(s, b, e);
      }
    } else {
      OtherEventChain(s, b, e);
    }
  }

  lemma OtherEventChain(s: Machine, b: Blobs, e: Event)
    requires Common(s, b) && Enabled(s, e) && !e.Completed? && Chain(s.pending) <= 1
    ensures Chain(Step(s, e).pending) <= 1
  {
    hide DriverModel.Announce;
    if e.TimerFired? {
      TakeChain(s, WakeTimer);
    } else if e.Notified? && e.state == AwaitFingerOn {
      AnnounceChain(s);
    }
  }

  lemma AnnounceChain(s: Machine)
    requires Chain(s.pending) == 0 && !s.deactivating
    ensures Chain(Announce(s).pending) <= 1
  {
  }

  lemma HandshakeCompletionChain(s: Machine, b: Blobs, e: Event)
    requires Inv(s, b) && e.Completed? && e.op in s.pending && HandshakeOp(e.op) && e.op != WakeTimer
    ensures Chain(Dispatch(Take(s, e.op), e.op, e.result, e.reply).pending) <= 1
  {
    hide DriverModel.Dispatch;
    HandshakeAlone(s, b, e.op);
    TakeChain(s, e.op);
    HandshakeChain(Take(s, e.op), e.op, e.result, e.reply);
  }

  lemma ActiveCompletionChain(s: Machine, b: Blobs, e: Event)
    requires Loose(s, b) && e.Completed? && e.op in s.pending && ActiveOp(e.op)
    requires Chain(s.pending) <= 1
    ensures Chain(Dispatch(Take(s, e.op), e.op, e.result, e.reply).pending) > 1 <==> Overlaps(s, e)
  {
    hide DriverModel.InterruptCb, DriverModel.CaptureReadCb, DriverModel.FailSessionOrDeactivate;
    var t := Take(s, e.op);
    TakeChain(s, e.op);
    if e.op.Interrupt? {
      InterruptChain(t, e.result, e.reply.last);
    } else if e.op.CaptureRead? {
      CaptureReadChain(t, e.result, e.reply);
    } else {
      RearmChain(t, e.op, e.result, e.reply);
    }
  }

  // ---------------------------------------------------------------- without an overlap

  /** A release interrupt is outstanding only while a release is awaited. */
  predicate Settled(s: Machine) {
    Interrupt(RELEASE_QUIET_MS) in s.pending ==> s.awaitingRelease
  }

  lemma ReactionSettled(s: Machine, r: Reaction)
    requires Settled(s) && !s.deactivating
    ensures Settled(React(s, r)) && React(s, r).awaitingRelease == s.awaitingRelease && !React(s, r).deactivating
    ensures Interrupt(RELEASE_QUIET_MS) in React(s, r).pending ==> s.awaitingRelease
  {
    hide DriverModel.Config39, DriverModel.PatchMode;
  }

  lemma InterruptSettled(s: Machine, result: UsbResult, r: Reaction)
    requires Chain(s.pending) == 0 && !s.deactivating
    ensures Settled(InterruptCb(s, result, r))
  {
    assert Settled(s);
    hide DriverModel.React, DriverModel.Chain;
    ReactionSettled(Say(s, SessionError), r);
    ReactionSettled(Released(s), r);
    ReactionSettled(Say(s, FingerStatus(true)), r);
  }

  lemma RearmSettled(s: Machine, op: Op, result: UsbResult, reply: Reply)
    requires op.RearmWrite? || op.RearmRead? || op.CaptureWrite?
    requires Settled(s) && !s.deactivating
    ensures Settled(Dispatch(s, op, result, reply))
  {
    hide DriverModel.React;
    ReactionSettled(Say(s, SessionError), reply.last);
  }

  lemma CaptureSettled(s: Machine, result: UsbResult, reply: Reply)
    requires Settled(s) && !s.deactivating
    ensures Settled(CaptureReadCb(s, result, reply))
  {
    hide DriverModel.React, DriverModel.DeliverImage;
    ReactionSettled(Say(s, SessionError), reply.last);
    if result.Done? && ImageFrame.DriverAccepts(result.data) {
      DeliverySays(s.(captureCount := s.captureCount + 1), RasterOf(result.data), reply, SessionError);
    }
  }

  lemma HandshakeSettled(s: Machine, b: Blobs, op: Op, result: UsbResult, reply: Reply)
    requires Between(s, b) && HandshakeOp(op) && op != WakeTimer
    ensures Settled(Dispatch(s, op, result, reply))
  {
    forall ok: bool, u: Machine | Settled(u) && !u.deactivating
      ensures Settled(ActivateComplete(u, ok, reply.last))
    {
      ReactionSettled(u.(h := u.h.(reports := u.h.reports + [ok]), fw := u.fw.(live := u.fw.live && ok, due := ok)),
                      reply.last);
    }
    hide DriverModel.ActivateComplete;
  }

  lemma CompletionSettled(s: Machine, b: Blobs, op: Op, result: UsbResult, reply: Reply)
    requires Inv(s, b) && op in s.pending && op != WakeTimer && Chain(s.pending) <= 1 && Settled(s)
    ensures Settled(Dispatch(Take(s, op), op, result, reply))
  {
    hide DriverModel.Dispatch;
    var t := Take(s, op);
    TakeChain(s, op);
    assert Settled(t);
    if HandshakeOp(op) {
      HandshakeAlone(s, b, op);
      TakeHandshake(s, b, op);
      HandshakeSettled(t, b, op, result, reply);
    } else {
      ActiveTransfer(s, b, op);
      ActiveSettled(t, op, result, reply);
    }
  }

  lemma ActiveSettled(s: Machine, op: Op, result: UsbResult, reply: Reply)
    requires ActiveOp(op) && !s.deactivating && Settled(s) && (op.Interrupt? ==> Chain(s.pending) == 0)
    ensures Settled(Dispatch(s, op, result, reply))
  {
    hide DriverModel.InterruptCb, DriverModel.CaptureReadCb;
    if op.Interrupt? {
      InterruptSettled(s, result, reply.last);
    } else if op.CaptureRead? {
      CaptureSettled(s, result, reply);
    } else {
      RearmSettled(s, op, result, reply);
    }
  }

  lemma StepSettled(s: Machine, b: Blobs, e: Event)
    requires Inv(s, b) && Enabled(s, e) && Chain(s.pending) <= 1 && Settled(s)
    ensures Settled(Step(s, e))
  {
    if e.Completed? {
      CompletionSettled(s, b, e.op, e.result, e.reply);
      hide DriverModel.Dispatch, DriverModel.Take, Inv, Settled;
    } else {
      OtherEventSettled(s, b, e);
      hide DriverModel.Step, Inv;
    }
  }

  lemma OtherEventSettled(s: Machine, b: Blobs, e: Event)
    requires Common(s, b) && Enabled(s, e) && !e.Completed? && Settled(s)
    ensures Settled(Step(s, e))
  {
    hide DriverModel.Config39, DriverModel.PatchMode, Written;
  }

  /** A run in which no event overlaps. */
  ghost predicate Plain(s: Machine, es: seq<Event>)
    requires Legal(s, es)
    decreases |es|
  {
    es == [] || (!Overlaps(s, es[0]) && Plain(Step(s, es[0]), es[1..]))
  }

  lemma {:induction false} PlainRun(b: Blobs, s: Machine, es: seq<Event>)
    requires Reachable(b, s) && Legal(s, es) && Plain(s, es) && Chain(s.pending) <= 1 && Settled(s)
    ensures Chain(Run(s, es).pending) <= 1 && Settled(Run(s, es))
    decreases |es|
  {
    hide Reachable, Overlaps, Settled, DriverModel.Chain, DriverModel.Enabled, DriverModel.Step;
    if es == [] {
    } else {
      OverlapExactly(b, s, es[0]);
      ReachableInv(b, s);
      StepSettled(s, b, es[0]);
      ReachableStep(b, s, es[0]);
      PlainRun(b, Step(s, es[0]), es[1..]);
    }
  }

  /** As long as the framework never announces AWAIT_FINGER_ON from inside a delivery, at most one transfer
      that leads on is outstanding, and every interrupt that times out is the release of the finger. */
  lemma TimeoutsAreReleases(b: Blobs, es: seq<Event>, reply: Reply)
    requires WellFramed(b)
    requires Legal(Opened(b.config06, b.scan), es) && Plain(Opened(b.config06, b.scan), es)
    ensures var s := Run(Opened(b.config06, b.scan), es);
      && Chain(s.pending) <= 1
      && forall timeout: nat :: Enabled(s, Completed(Interrupt(timeout), TimedOut, reply)) ==>
           s.awaitingRelease && !Fails(s, Interrupt(timeout), TimedOut)
  {
    var o := Opened(b.config06, b.scan);
    StartReachable(b);
    assert Chain(o.pending) <= 1 && Settled(o);
    RunReachable(b, es);
    hide Reachable, Settled, Plain, DriverModel.Legal, DriverModel.Run, DriverModel.Chain;
    PlainRun(b, o, es);
    var s := Run(o, es);
    forall timeout: nat | Enabled(s, Completed(Interrupt(timeout), TimedOut, reply))
      ensures s.awaitingRelease
    {
      SettledTimeout(b, s, timeout);
    }
  }

  lemma StartReachable(b: Blobs)
    requires WellFramed(b)
    ensures Reachable(b, Opened(b.config06, b.scan))
  {
    var o := Opened(b.config06, b.scan);
    assert Legal(o, []) && Run(o, []) == o;
  }

  lemma RunReachable(b: Blobs, es: seq<Event>)
    requires WellFramed(b) && Legal(Opened(b.config06, b.scan), es)
    ensures Reachable(b, Run(Opened(b.config06, b.scan), es))
  {
  }

  lemma SettledTimeout(b: Blobs, s: Machine, timeout: nat)
    requires Reachable(b, s) && Settled(s)
    requires Interrupt(timeout) in s.pending && timeout != 0
    ensures s.awaitingRelease
  {
    hide Reachable;
    ReachableInv(b, s);
    ActiveTransfer(s, b, Interrupt(timeout));
    hide Inv, Loose;
  }
}
