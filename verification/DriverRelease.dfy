/** The release of the finger over whole runs: what a quiet interval is, when two images always have one between
    them, and what happens when two interrupts are outstanding. */
module DriverRelease {
  import opened Bytes
  import opened DriverModel
  import opened DriverInvariant
  import opened DriverTheorems
  import opened DriverScenario
  import ImageFrame

  // ---------------------------------------------------------------- the states of a run

  /** The state before each event of a run, and the last one. */
  ghost function States(s: Machine, es: seq<Event>): (r: seq<Machine>)
    requires Legal(s, es)
    ensures |r| == |es| + 1 && r[0] == s
    decreases |es|
  {
    if es == [] then [s] else [s] + States(Step(s, es[0]), es[1..])
  }

  lemma {:induction false} StatesStep(b: Blobs, s: Machine, es: seq<Event>, n: nat)
    requires Reachable(b, s) && Legal(s, es) && n < |es|
    ensures var r := States(s, es);
      Reachable(b, r[n]) && Enabled(r[n], es[n]) && r[n + 1] == Step(r[n], es[n]) && Reachable(b, r[n + 1])
    decreases |es|
  {
    hide Reachable, DriverModel.Step, DriverModel.Enabled;
    ReachableStep(b, s, es[0]);
    if n == 0 {
      assert States(s, es)[1] == States(Step(s, es[0]), es[1..])[0];
    } else {
      StatesStep(b, Step(s, es[0]), es[1..], n - 1);
    }
  }

  lemma {:induction false} StatesPlain(b: Blobs, s: Machine, es: seq<Event>, n: nat)
    requires Reachable(b, s) && Legal(s, es) && n <= |es|
    requires Plain(s, es) && Chain(s.pending) <= 1 && Settled(s)
    ensures Chain(States(s, es)[n].pending) <= 1
    decreases |es|
  {
    hide Reachable, Overlaps, Settled, DriverModel.Chain, DriverModel.Enabled, DriverModel.Step;
    if n == 0 {
    } else {
      OverlapExactly(b, s, es[0]);
      ReachableInv(b, s);
      StepSettled(s, b, es[0]);
      ReachableStep(b, s, es[0]);
      StatesPlain(b, Step(s, es[0]), es[1..], n - 1);
    }
  }

  // ---------------------------------------------------------------- the gate and the stages

  /** What only an image changes, and what only an image or a release timeout changes. */
  predicate SameEnrollment(s: Machine, t: Machine) {
    t.fw.action == s.fw.action && t.fw.stages == s.fw.stages && t.fw.enrollStage == s.fw.enrollStage
  }

  predicate Undisturbed(s: Machine, t: Machine) {
    SameEnrollment(s, t) && t.awaitingRelease == s.awaitingRelease
  }

  lemma FailureUndisturbed(s: Machine, r: Reaction)
    requires !s.deactivating
    ensures Undisturbed(s, FailSessionOrDeactivate(s, r))
  {
    hide DriverModel.React;
    ReactSays(Say(s, SessionError), r, SessionError);
  }

  lemma InterruptUndisturbed(s: Machine, result: UsbResult, r: Reaction)
    requires !s.deactivating
    ensures SameEnrollment(s, InterruptCb(s, result, r))
    ensures !result.TimedOut? ==> Undisturbed(s, InterruptCb(s, result, r))
  {
    hide DriverModel.React, DriverModel.FailSessionOrDeactivate;
    FailureUndisturbed(s, r);
    ReactSays(Released(s), r, SessionError);
    ReactSays(Say(s, FingerStatus(true)), r, SessionError);
  }

  lemma ReportUndisturbed(s: Machine, ok: bool, r: Reaction)
    requires !s.deactivating
    ensures Undisturbed(s, ActivateComplete(s, ok, r))
  {
    hide DriverModel.React;
    ReactSays(s.(h := s.h.(reports := s.h.reports + [ok]), fw := s.fw.(live := s.fw.live && ok, due := ok)),
              r, SessionError);
  }

  lemma HandshakeUndisturbed(s: Machine, op: Op, result: UsbResult, reply: Reply)
    requires HandshakeOp(op) && op != WakeTimer && !s.deactivating
    ensures Undisturbed(s, Dispatch(s, op, result, reply))
  {
    hide DriverModel.ActivateComplete;
    ReportUndisturbed(s, false, reply.last);
    ReportUndisturbed(Succeeded(s, op).(initStage := s.initStage + 1), true, reply.last);
  }

  lemma TransferUndisturbed(s: Machine, op: Op, result: UsbResult, reply: Reply)
    requires (op.CaptureWrite? || op.RearmWrite? || op.RearmRead?) && !s.deactivating
    ensures Undisturbed(s, Dispatch(s, op, result, reply))
  {
    hide DriverModel.FailSessionOrDeactivate, DriverModel.PatchMode, DriverModel.Config39;
    FailureUndisturbed(s, reply.last);
  }

  predicate AcceptedFrame(e: Event) {
    e.Completed? && e.op == CaptureRead && e.result.Done? && ImageFrame.DriverAccepts(e.result.data)
  }

  predicate InterruptTimeout(e: Event) {
    e.Completed? && e.op.Interrupt? && e.result.TimedOut?
  }

  lemma CompletionUndisturbed(s: Machine, op: Op, result: UsbResult, reply: Reply)
    requires op != WakeTimer && !s.deactivating && !AcceptedFrame(Completed(op, result, reply))
    ensures SameEnrollment(s, Dispatch(s, op, result, reply))
    ensures !InterruptTimeout(Completed(op, result, reply)) ==> Undisturbed(s, Dispatch(s, op, result, reply))
  {
    hide ImageFrame.DriverAccepts;
    if op.CaptureRead? {
      hide DriverModel.FailSessionOrDeactivate, DriverModel.FinishCapture;
      FailureUndisturbed(s, reply.last);
    } else if op.Interrupt? {
      hide DriverModel.InterruptCb;
      InterruptUndisturbed(s, result, reply.last);
    } else if HandshakeOp(op) {
      HandshakeUndisturbed(s, op, result, reply);
    } else {
      TransferUndisturbed(s, op, result, reply);
    }
  }

  lemma OtherEventUndisturbed(s: Machine, b: Blobs, e: Event)
    requires Inv(s, b) && Enabled(s, e) && !e.Activate? && !e.Completed?
    ensures Undisturbed(s, Step(s, e))
  {
    hide DriverModel.PatchMode, DriverModel.Config39;
  }

  /** Only an accepted frame counts a stage, and only such a frame or an interrupt timeout moves the gate. */
  lemma EventUndisturbed(s: Machine, b: Blobs, e: Event)
    requires Inv(s, b) && Enabled(s, e) && !e.Activate? && !AcceptedFrame(e)
    ensures SameEnrollment(s, Step(s, e))
    ensures !InterruptTimeout(e) ==> Undisturbed(s, Step(s, e))
  {
    hide DriverModel.Dispatch, ImageFrame.DriverAccepts;
    if e.Completed? {
      NeverDeactivating(s, b);
      hide Inv;
      CompletionUndisturbed(Take(s, e.op), e.op, e.result, e.reply);
    } else {
      OtherEventUndisturbed(s, b, e);
    }
  }

  // ---------------------------------------------------------------- quiet intervals

  predicate CompletesInterrupt(e: Event) {
    e.Completed? && e.op.Interrupt?
  }

  /** What is outstanding while e is handled, before its callback submits anything. */
  function LeftOver(s: Machine, e: Event): multiset<Op> {
    if e.Completed? then s.pending - multiset{e.op} else s.pending
  }

  /** The j-th event submits a release interrupt, the only one outstanding from then on, and the device reports
      nothing until the m-th event is its timeout: the device was silent for a whole release interval. */
  ghost predicate QuietInterval(r: seq<Machine>, es: seq<Event>, j: int, m: int)
    requires |r| == |es| + 1
  {
    && 0 <= j < m < |es|
    && InterruptTimeout(es[m]) && es[m].op == Interrupt(RELEASE_QUIET_MS) && r[m].awaitingRelease
    && Interrupts(LeftOver(r[j], es[j])) == 0
    && (forall n :: j < n <= m ==> r[n].pending[Interrupt(RELEASE_QUIET_MS)] == 1 && Interrupts(r[n].pending) == 1)
    && (forall n :: j < n < m ==> !CompletesInterrupt(es[n]))
  }

  lemma GateClosed(s: Machine, b: Blobs)
    requires Inv(s, b) && s.awaitingRelease
    ensures Interrupts(s.pending) == s.pending[Interrupt(RELEASE_QUIET_MS)]
    ensures CaptureRead !in s.pending
  {
  }

  lemma CaptureAlone(s: Machine, b: Blobs)
    requires Inv(s, b) && CaptureRead in s.pending
    ensures Interrupts(s.pending) == 0 && !s.awaitingRelease
  {
    ActiveTransfer(s, b, CaptureRead);
  }

  lemma NoneLeftOver(s: Machine, b: Blobs, e: Event)
    requires Inv(s, b) && Enabled(s, e) && Interrupts(s.pending) <= 1 && CompletesInterrupt(e)
    ensures Interrupts(LeftOver(s, e)) == 0
  {
    ActiveTransfer(s, b, e.op);
    TakeCounts(s.pending, e.op);
  }

  /** The gate opens through a release timeout only. */
  lemma GateOpens(b: Blobs, s: Machine, e: Event)
    requires Reachable(b, s) && Enabled(s, e) && !e.Activate?
    requires s.awaitingRelease && !Step(s, e).awaitingRelease
    ensures InterruptTimeout(e) && e.op == Interrupt(RELEASE_QUIET_MS)
  {
    hide Reachable, DriverModel.Step;
    ReachableInv(b, s);
    GateClosed(s, b);
    hide Interrupts;
    if !AcceptedFrame(e) {
      EventUndisturbed(s, b, e);
      ActiveTransfer(s, b, e.op);
      hide Inv, Loose;
    }
  }

  /** The first event between two images that opens the gate. */
  lemma FindRelease(b: Blobs, o: Machine, es: seq<Event>, i: nat, k: nat) returns (m: nat)
    requires Reachable(b, o) && Legal(o, es) && i < k < |es|
    requires AcceptedFrame(es[i]) && AcceptedFrame(es[k]) && forall n :: i < n < k ==> !es[n].Activate?
    ensures i < m < k && InterruptTimeout(es[m]) && es[m].op == Interrupt(RELEASE_QUIET_MS)
    ensures forall n :: i < n <= m ==> States(o, es)[n].awaitingRelease
  {
    hide Reachable, DriverModel.Step, DriverModel.Legal, States, ImageFrame.DriverAccepts;
    var r := States(o, es);
    StatesStep(b, o, es, i);
    CaptureLeavesInterrupt(b, r[i], es[i].result, es[i].reply);
    assert r[i + 1].awaitingRelease;
    StatesStep(b, o, es, k);
    HeldFinger(b, r[k]);
    assert !r[k].awaitingRelease;
    m := i + 1;
    StatesStep(b, o, es, m);
    while r[m + 1].awaitingRelease
      invariant i < m < k
      invariant forall n :: i < n <= m ==> r[n].awaitingRelease
      decreases k - m
    {
      m := m + 1;
    }
    StatesStep(b, o, es, m);
    GateOpens(b, r[m], es[m]);
  }

  /** One release interrupt, alone, in every state from a on, and no interrupt completed after the first. */
  ghost predicate Lone(r: seq<Machine>, es: seq<Event>, a: int, m: int)
    requires |r| == |es| + 1 && 0 <= a && m < |es|
  {
    && (forall n :: a <= n <= m ==> r[n].pending[Interrupt(RELEASE_QUIET_MS)] == 1 && Interrupts(r[n].pending) == 1)
    && (forall n :: a <= n < m ==> !CompletesInterrupt(es[n]))
  }

  lemma LoneOneMore(r: seq<Machine>, es: seq<Event>, a: int, m: int)
    requires |r| == |es| + 1 && 0 <= a <= m < |es| && Lone(r, es, a + 1, m) && (a < m ==> !CompletesInterrupt(es[a]))
    requires r[a].pending[Interrupt(RELEASE_QUIET_MS)] == 1 && Interrupts(r[a].pending) == 1
    ensures Lone(r, es, a, m)
  {
    hide Interrupts, CompletesInterrupt;
  }

  /** The event that submitted the interrupt that is outstanding at m. */
  lemma FindSubmission(b: Blobs, o: Machine, es: seq<Event>, i: nat, m: nat) returns (j: nat)
    requires Reachable(b, o) && Legal(o, es) && i < m < |es| && AcceptedFrame(es[i])
    requires InterruptTimeout(es[m]) && es[m].op == Interrupt(RELEASE_QUIET_MS)
    requires forall n :: i < n <= m ==> States(o, es)[n].awaitingRelease && Interrupts(States(o, es)[n].pending) <= 1
    ensures i <= j < m && QuietInterval(States(o, es), es, j, m)
  {
    var r := States(o, es);
    NoneAtCapture(b, o, es, i);
    assert CompletesInterrupt(es[m]);
    hide Reachable, DriverModel.Legal, States, Interrupts, Lone, AcceptedFrame, InterruptTimeout, CompletesInterrupt;
    LoneInterrupt(b, o, es, m);
    j := m;
    assert Lone(r, es, m + 1, m) by { LoneNowhere(r, es, m); }
    LoneOneMore(r, es, m, m);
    j := m - 1;
    while !CompletesInterrupt(es[j]) && Interrupts(r[j].pending) != 0
      invariant i <= j < m && Lone(r, es, j + 1, m)
      decreases j
    {
      LoneInterrupt(b, o, es, j);
      LoneOneMore(r, es, j, m);
      j := j - 1;
    }
    FreshSubmission(b, o, es, j);
    QuietFrom(r, es, j, m);
  }

  lemma LoneNowhere(r: seq<Machine>, es: seq<Event>, m: nat)
    requires |r| == |es| + 1 && m < |es|
    ensures Lone(r, es, m + 1, m)
  {
  }

  lemma QuietFrom(r: seq<Machine>, es: seq<Event>, j: nat, m: nat)
    requires |r| == |es| + 1 && j < m < |es| && Lone(r, es, j + 1, m)
    requires InterruptTimeout(es[m]) && es[m].op == Interrupt(RELEASE_QUIET_MS) && r[m].awaitingRelease
    requires Interrupts(LeftOver(r[j], es[j])) == 0
    ensures QuietInterval(r, es, j, m)
  {
    hide Interrupts;
  }

  lemma NoneAtCapture(b: Blobs, o: Machine, es: seq<Event>, i: nat)
    requires Reachable(b, o) && Legal(o, es) && i < |es| && AcceptedFrame(es[i])
    ensures Interrupts(States(o, es)[i].pending) == 0
  {
    hide Reachable, DriverModel.Step, DriverModel.Legal, States, ImageFrame.DriverAccepts, Interrupts;
    StatesStep(b, o, es, i);
    ReachableInv(b, States(o, es)[i]);
    CaptureAlone(States(o, es)[i], b);
  }

  lemma FreshSubmission(b: Blobs, o: Machine, es: seq<Event>, j: nat)
    requires Reachable(b, o) && Legal(o, es) && j < |es|
    requires var s := States(o, es)[j];
      Interrupts(s.pending) <= 1 && (CompletesInterrupt(es[j]) || Interrupts(s.pending) == 0)
    ensures Interrupts(LeftOver(States(o, es)[j], es[j])) == 0
  {
    hide Reachable, DriverModel.Step, DriverModel.Legal, States, Interrupts;
    StatesStep(b, o, es, j);
    ReachableInv(b, States(o, es)[j]);
    if CompletesInterrupt(es[j]) {
      NoneLeftOver(States(o, es)[j], b, es[j]);
    } else {
      LeftOverFewer(States(o, es)[j], es[j]);
    }
    hide Inv;
  }

  lemma LeftOverFewer(s: Machine, e: Event)
    requires Interrupts(s.pending) == 0
    ensures Interrupts(LeftOver(s, e)) == 0
  {
  }

  lemma LoneInterrupt(b: Blobs, o: Machine, es: seq<Event>, n: nat)
    requires Reachable(b, o) && Legal(o, es) && n < |es|
    requires States(o, es)[n].awaitingRelease && Interrupts(States(o, es)[n].pending) <= 1
    ensures var s := States(o, es)[n];
      && (Interrupts(s.pending) != 0 || CompletesInterrupt(es[n]) ==>
            s.pending[Interrupt(RELEASE_QUIET_MS)] == 1 && Interrupts(s.pending) == 1)
  {
    hide Reachable, DriverModel.Step, DriverModel.Legal, States, Interrupts;
    var s := States(o, es)[n];
    StatesStep(b, o, es, n);
    ReachableInv(b, s);
    GateClosed(s, b);
    if CompletesInterrupt(es[n]) {
      OneOutstanding(s, b, es[n].op);
    }
  }

  lemma OneOutstanding(s: Machine, b: Blobs, op: Op)
    requires Inv(s, b) && op in s.pending && op.Interrupt?
    ensures Interrupts(s.pending) >= 1
  {
    ActiveTransfer(s, b, op);
  }

  /** A held finger cannot satisfy two stages as long as no two interrupts are outstanding together: between any
      two images of an activation there is a quiet interval. */
  lemma HeldFingerLaw(b: Blobs, es: seq<Event>, i: nat, k: nat) returns (j: nat, m: nat)
    requires WellFramed(b) && Legal(Opened(b.config06, b.scan), es) && i < k < |es|
    requires AcceptedFrame(es[i]) && AcceptedFrame(es[k]) && forall n :: i < n < k ==> !es[n].Activate?
    requires forall n :: i < n < k ==> Interrupts(States(Opened(b.config06, b.scan), es)[n].pending) <= 1
    ensures i <= j < m < k && QuietInterval(States(Opened(b.config06, b.scan), es), es, j, m)
  {
    hide DriverModel.Legal, States, ImageFrame.DriverAccepts, Interrupts;
    StartReachable(b);
    m := FindRelease(b, Opened(b.config06, b.scan), es, i, k);
    j := FindSubmission(b, Opened(b.config06, b.scan), es, i, m);
  }

  /** The framework can see to that: it holds in every run in which AWAIT_FINGER_ON is never announced from inside
      the delivery of an image. When an interrupt completes there, no older one is left outstanding. */
  lemma HeldFingerInPlainRuns(b: Blobs, es: seq<Event>, i: nat, k: nat) returns (j: nat, m: nat)
    requires WellFramed(b) && Legal(Opened(b.config06, b.scan), es) && Plain(Opened(b.config06, b.scan), es)
    requires i < k < |es|
    requires AcceptedFrame(es[i]) && AcceptedFrame(es[k]) && forall n :: i < n < k ==> !es[n].Activate?
    ensures i <= j < m < k && QuietInterval(States(Opened(b.config06, b.scan), es), es, j, m)
    ensures forall n :: 0 <= n < |es| && CompletesInterrupt(es[n]) ==>
              Interrupts(LeftOver(States(Opened(b.config06, b.scan), es)[n], es[n])) == 0
  {
    var o := Opened(b.config06, b.scan);
    StartReachable(b);
    assert Chain(o.pending) <= 1 && Settled(o);
    hide Reachable, DriverModel.Legal, States, Plain, ImageFrame.DriverAccepts, QuietInterval;
    forall n | 0 <= n < |es|
      ensures Interrupts(States(o, es)[n].pending) <= 1
      ensures CompletesInterrupt(es[n]) ==> Interrupts(LeftOver(States(o, es)[n], es[n])) == 0
    {
      StatesPlain(b, o, es, n);
      StatesStep(b, o, es, n);
      ReachableInv(b, States(o, es)[n]);
      if CompletesInterrupt(es[n]) {
        NoneLeftOver(States(o, es)[n], b, es[n]);
      }
    }
    j, m := HeldFingerLaw(b, es, i, k);
  }

  // ---------------------------------------------------------------- two interrupts

  const FINGER_ON: Event := Completed(Interrupt(RELEASE_QUIET_MS), Done([0x03, 0x42, 0x04, 0, 0]), SILENT)
  const TIMEOUT: Event := Completed(Interrupt(RELEASE_QUIET_MS), TimedOut, SILENT)

  lemma TwoReleases(s: Machine, b: Blobs)
    requires Inv(s, b) && s.awaitingRelease && Interrupts(s.pending) >= 2
    ensures s.pending[Interrupt(RELEASE_QUIET_MS)] == 2 && !s.deactivating
  {
  }

  /** While a release is awaited, a report of the finger only starts the interrupt anew. */
  lemma ReportAwaiting(s: Machine)
    requires s.awaitingRelease && !s.deactivating && Interrupt(RELEASE_QUIET_MS) in s.pending
    ensures Enabled(s, FINGER_ON) && Step(s, FINGER_ON) == s
  {
    var op := Interrupt(RELEASE_QUIET_MS);
    assert s.pending - multiset{op} + multiset{op} == s.pending;
  }

  lemma TimeoutAwaiting(s: Machine)
    requires s.awaitingRelease && Interrupt(RELEASE_QUIET_MS) in s.pending
    ensures Enabled(s, TIMEOUT) && Step(s, TIMEOUT) == Released(Take(s, Interrupt(RELEASE_QUIET_MS)))
  {
  }

  lemma ReportAfterwards(s: Machine)
    requires !s.awaitingRelease && Interrupt(RELEASE_QUIET_MS) in s.pending
    ensures Enabled(s, FINGER_ON)
    ensures Step(s, FINGER_ON) == StartCapture(Say(Take(s, Interrupt(RELEASE_QUIET_MS)), FingerStatus(true)))
  {
  }

  /** The condition is exact: from every state in which a second interrupt is outstanding while a release is
      awaited, the finger can be reported, the older interrupt can time out all the same, and the next report of
      the finger that never left starts a capture. */
  lemma TwoInterruptsOpenTheGate(b: Blobs, s: Machine) returns (u: Machine, v: Machine)
    requires Reachable(b, s) && s.awaitingRelease && Interrupts(s.pending) >= 2
    ensures Enabled(s, FINGER_ON) && Step(s, FINGER_ON) == s && Interrupts(LeftOver(s, FINGER_ON)) >= 1
    ensures Enabled(s, TIMEOUT) && u == Step(s, TIMEOUT) && !u.awaitingRelease
    ensures Enabled(u, FINGER_ON) && v == Step(u, FINGER_ON) && Reachable(b, v)
    ensures v.pending == s.pending - multiset{Interrupt(RELEASE_QUIET_MS), Interrupt(RELEASE_QUIET_MS)}
                         + multiset{CaptureRead, CaptureWrite}
    ensures v.fw == s.fw && v.captureCount == s.captureCount && !v.awaitingRelease && !v.deactivating
  {
    var op := Interrupt(RELEASE_QUIET_MS);
    hide Reachable;
    ReachableInv(b, s);
    TwoReleases(s, b);
    hide Inv;
    ReportAwaiting(s);
    TimeoutAwaiting(s);
    u := Step(s, TIMEOUT);
    ReachableStep(b, s, TIMEOUT);
    assert u.pending == s.pending - multiset{op};
    ReportAfterwards(u);
    v := Step(u, FINGER_ON);
    ReachableStep(b, u, FINGER_ON);
    hide DriverModel.Step, DriverModel.Enabled;
    assert s.pending - multiset{op} - multiset{op} == s.pending - multiset{op, op};
    assert v.pending == s.pending - multiset{op} - multiset{op} + multiset{CaptureRead} + multiset{CaptureWrite};
  }

  // ---------------------------------------------------------------- a held finger that counts twice

  lemma {:induction false} StatesOneMore(s: Machine, es: seq<Event>, e: Event)
    requires Legal(s, es) && Enabled(Run(s, es), e)
    ensures Legal(s, es + [e]) && Run(s, es + [e]) == Step(Run(s, es), e)
    ensures States(s, es + [e]) == States(s, es) + [Step(Run(s, es), e)]
    decreases |es|
  {
    RunOneMore(s, es, e);
    hide DriverModel.Step, DriverModel.Enabled;
    if es == [] {
      assert es + [e] == [e] && [e][1..] == [];
    } else {
      StatesOneMore(Step(s, es[0]), es[1..], e);
      assert (es + [e])[1..] == es[1..] + [e];
    }
  }

  const WRITTEN: Event := Completed(CaptureWrite, Done([]), SILENT)

  function Kept(): Event {
    Completed(CaptureRead, Done(Frame()), Reply(true, true, Nothing, Nothing))
  }

  lemma CaptureSentAgain(b: Blobs, s: Machine) returns (t: Machine)
    requires Reachable(b, s) && s.pending == multiset{CaptureRead, CaptureWrite}
    ensures Enabled(s, WRITTEN) && t == Step(s, WRITTEN) && Reachable(b, t)
    ensures t.fw == s.fw && t.pending == multiset{CaptureRead} && t.deactivating == s.deactivating
  {
    hide Reachable;
    t := Complete(b, s, CaptureWrite, [], SILENT);
    assert t.pending == multiset{CaptureRead};
  }

  lemma SecondStageCounted(b: Blobs, s: Machine) returns (t: Machine)
    requires Reachable(b, s) && s.pending == multiset{CaptureRead} && !s.deactivating
    requires s.fw == Framework(true, false, Enroll, 2, 1)
    ensures Enabled(s, Kept()) && t == Step(s, Kept()) && Reachable(b, t)
    ensures t.fw.enrollStage == 2 && t.fw.stages == 2 && !t.fw.live
  {
    hide Reachable;
    FrameIsAccepted();
    hide Frame, ImageFrame.DriverAccepts, DriverModel.FinishCapture;
    t := Step(s, Kept());
    ReachableStep(b, s, Kept());
    FinishSays(Take(s, CaptureRead), RasterOf(Frame()), Kept().reply, SessionError);
  }

  /** The events of a finger that stays where it is while two interrupts are outstanding. */
  function HeldEvents(r: seq<Event>): seq<Event> {
    r + [FINGER_ON] + [TIMEOUT] + [FINGER_ON] + [WRITTEN] + [Kept()]
  }

  lemma HeldEventsRun(s: Machine, r: seq<Event>, t: Machine, u: Machine, v: Machine, x: Machine, w: Machine)
    requires Legal(s, r) && Run(s, r) == t
    requires Enabled(t, FINGER_ON) && Step(t, FINGER_ON) == t && Enabled(t, TIMEOUT) && Step(t, TIMEOUT) == u
    requires Enabled(u, FINGER_ON) && Step(u, FINGER_ON) == v && Enabled(v, WRITTEN) && Step(v, WRITTEN) == x
    requires Enabled(x, Kept()) && Step(x, Kept()) == w
    ensures Legal(s, HeldEvents(r)) && Run(s, HeldEvents(r)) == w && States(s, HeldEvents(r))[|r| + 1] == t
  {
    hide *;
    StatesOneMore(s, r, FINGER_ON);
    ghost var a := States(s, r + [FINGER_ON]);
    assert a == States(s, r) + [t];
    StatesOneMore(s, r + [FINGER_ON], TIMEOUT);
    StatesOneMore(s, r + [FINGER_ON] + [TIMEOUT], FINGER_ON);
    StatesOneMore(s, r + [FINGER_ON] + [TIMEOUT] + [FINGER_ON], WRITTEN);
    StatesOneMore(s, r + [FINGER_ON] + [TIMEOUT] + [FINGER_ON] + [WRITTEN], Kept());
    HeldEventsAre(r);
    assert States(s, HeldEvents(r)) == a + [u] + [v] + [x] + [w];
    assert |States(s, r)| == |r| + 1;
  }

  lemma HeldEventsAre(r: seq<Event>)
    ensures HeldEvents(r) == r + [FINGER_ON] + [TIMEOUT] + [FINGER_ON] + [WRITTEN] + [Kept()]
  {
  }

  /** Nothing but the finger is reported, and the fifth event after the re-arm's four is the only timeout. */
  lemma OneTimeout(es: seq<Event>)
    requires es == HeldEvents(RearmEvents())
    ensures forall n :: 0 <= n < |es| && CompletesInterrupt(es[n]) ==>
              es[n].result.TimedOut? || (es[n].result.Done? && FingerOnEvent(es[n].result.data))
    ensures forall n :: 0 <= n < |es| && InterruptTimeout(es[n]) ==> n == 5
    ensures |RearmEvents()| == 4
  {
    hide Frame;
  }

  lemma NoQuietInterval(r: seq<Machine>, es: seq<Event>)
    requires |r| == |es| + 1 && |es| > 5 && Interrupts(r[5].pending) == 2
    requires forall n :: 0 <= n < |es| && InterruptTimeout(es[n]) ==> n == 5
    ensures forall j, m :: !QuietInterval(r, es, j, m)
  {
    hide Interrupts;
  }

  /** The image that counts stage 1, and the re-arm beside its release interrupt. */
  lemma RearmedBeside(b: Blobs) returns (c: Machine, s: Machine, t: Machine)
    requires WellFramed(b)
    ensures Reachable(b, c) && CaptureRead in c.pending && c.fw.enrollStage == 0
    ensures s == Step(c, Completed(CaptureRead, Done(Frame()), Reply(true, true, Nothing, AnnounceAwaitFingerOn)))
    ensures s.fw == Framework(true, false, Enroll, 2, 1)
    ensures Legal(s, RearmEvents()) && t == Run(s, RearmEvents()) && Reachable(b, t)
    ensures t.pending == multiset{Interrupt(RELEASE_QUIET_MS), Interrupt(RELEASE_QUIET_MS)}
    ensures Interrupts(t.pending) == 2
    ensures t.awaitingRelease && t.fw == s.fw
  {
    c, s := RejectedCaptureOverlaps(b);
    t := Rearm(b, s, multiset{Interrupt(RELEASE_QUIET_MS)});
    hide Reachable, Legal, Run, Step, Frame, RearmEvents;
  }

  /** The run of the rejected capture with a finger that is never lifted. Right after the image that counts stage 1,
      the re-arm is completed beside the release interrupt; from then on the device reports nothing but the finger,
      the older of the two interrupts times out between two reports, and the second stage is counted: without a
      quiet interval between the two stages. */
  lemma HeldFingerCountsTwice(b: Blobs) returns (c: Machine, s: Machine, es: seq<Event>)
    requires WellFramed(b)
    ensures Reachable(b, c) && CaptureRead in c.pending && c.fw.enrollStage == 0
    ensures s == Step(c, Completed(CaptureRead, Done(Frame()), Reply(true, true, Nothing, AnnounceAwaitFingerOn)))
    ensures s.fw.enrollStage == 1 && s.fw.stages == 2 && s.fw.live
    ensures Legal(s, es) && Run(s, es).fw.enrollStage == 2
    ensures forall n :: 0 <= n < |es| && CompletesInterrupt(es[n]) ==>
              es[n].result.TimedOut? || (es[n].result.Done? && FingerOnEvent(es[n].result.data))
    ensures forall j, m :: !QuietInterval(States(s, es), es, j, m)
  {
    var t;
    c, s, t := RearmedBeside(b);
    es := HeldEvents(RearmEvents());
    OneTimeout(es);
    hide *;
    var u, v := TwoInterruptsOpenTheGate(b, t);
    assert v.pending == multiset{CaptureRead, CaptureWrite};
    var x := CaptureSentAgain(b, v);
    var w := SecondStageCounted(b, x);
    HeldEventsRun(s, RearmEvents(), t, u, v, x, w);
    NoQuietInterval(States(s, es), es);
  }

  // ---------------------------------------------------------------- an activation outside the contract

  /** What the contract excludes by letting an activation start only when nothing is outstanding: `dev_activate`
      clears `awaiting_release` and leaves the release interrupt of the session before, so its timeout is a session
      error of the new activation, before that has reported anything. */
  lemma EarlyActivationFails(b: Blobs, s: Machine, action: Action, stages: nat, reply: Reply)
    requires Reachable(b, s) && Interrupt(RELEASE_QUIET_MS) in s.pending
    ensures var t := DevActivate(s, action, stages);
      var u := Dispatch(Take(t, Interrupt(RELEASE_QUIET_MS)), Interrupt(RELEASE_QUIET_MS), TimedOut, reply);
      && Control in t.pending && Interrupt(RELEASE_QUIET_MS) in t.pending && !Enabled(s, Activate(action, stages))
      && Count(u, SessionError) == 1 && u.h.reports == []
  {
    hide Reachable;
    var t := Take(DevActivate(s, action, stages), Interrupt(RELEASE_QUIET_MS));
    FailureSays(t, reply.last);
    ReactionsReportNothing(Say(t, SessionError), reply.last);
    hide DriverModel.React;
  }

  /** Such a state comes about whenever a session ends between an image and its release: here the framework
      deactivates the device after the first image. */
  lemma ReleaseOutlivesSession(b: Blobs) returns (s: Machine)
    requires WellFramed(b)
    ensures Reachable(b, s) && !s.fw.live && s.pending == multiset{Interrupt(RELEASE_QUIET_MS)}
  {
    var t := ActivationSucceeds(b);
    t := FirstAnnounce(b, t);
    t := FingerDown(b, t, 0);
    t := CaptureSent(b, t, 0);
    t := Rejected(b, t);
    hide Reachable;
    s := Step(t, Deactivated);
    ReachableStep(b, t, Deactivated);
  }
}
