/** What every run of the driver keeps, stated without the invariant that proves it. */
module DriverTheorems {
  import opened Bytes
  import opened DriverModel
  import opened DriverInvariant

  ghost predicate Reachable(b: Blobs, s: Machine) {
    WellFramed(b) && exists es :: Legal(Opened(b.config06, b.scan), es) && Run(Opened(b.config06, b.scan), es) == s
  }

  lemma ReachableInv(b: Blobs, s: Machine)
    requires Reachable(b, s)
    ensures Inv(s, b)
  {
    var es :| Legal(Opened(b.config06, b.scan), es) && Run(Opened(b.config06, b.scan), es) == s;
    OpenedInv(b);
    RunKeepsInv(Opened(b.config06, b.scan), b, es);
  }

  lemma {:induction false} RunOneMore(s: Machine, es: seq<Event>, e: Event)
    requires Legal(s, es) && Enabled(Run(s, es), e)
    ensures Legal(s, es + [e]) && Run(s, es + [e]) == Step(Run(s, es), e)
    decreases |es|
  {
    if es == [] {
      assert [e][1..] == [];
      assert es + [e] == [e];
    } else {
      RunOneMore(Step(s, es[0]), es[1..], e);
      assert (es + [e])[1..] == es[1..] + [e];
    }
  }

  lemma ReachableStep(b: Blobs, s: Machine, e: Event)
    requires Reachable(b, s) && Enabled(s, e)
    ensures Reachable(b, Step(s, e))
  {
    var es :| Legal(Opened(b.config06, b.scan), es) && Run(Opened(b.config06, b.scan), es) == s;
    RunOneMore(Opened(b.config06, b.scan), es, e);
  }

  // ---------------------------------------------------------------- the writes of an activation

  /** The first n writes of an undisturbed activation: the seven init requests, then 51 and the two re-arm
      messages over and over. */
  function Protocol(n: nat, config06: Message, start: Message): seq<Message> {
    seq(n, i requires 0 <= i < n => NthWrite(i, config06, start))
  }

  /** At most one abandoned prefix of the init requests, then a prefix of the undisturbed protocol. */
  ghost predicate FollowsProtocol(out: seq<Message>, config06: Message, start: Message, retried: bool) {
    exists k: nat, n: nat :: k <= INIT_STAGES && (k > 0 ==> retried)
      && out == Protocol(k, config06, start) + Protocol(n, config06, start)
  }

  lemma SplitAtRestart(out: seq<Message>, mark: nat, start: Message, config06: Message)
    requires Written(out, mark, start, config06)
    ensures out[..mark] == Protocol(mark, config06, start)
    ensures out[mark..] == Protocol(|out| - mark, config06, start)
  {
  }

  lemma WrittenFollows(out: seq<Message>, mark: nat, start: Message, config06: Message, retried: bool)
    requires Written(out, mark, start, config06) && (mark > 0 ==> retried)
    ensures FollowsProtocol(out, config06, start, retried)
  {
    SplitAtRestart(out, mark, start, config06);
    assert out == out[..mark] + out[mark..];
    assert out == Protocol(mark, config06, start) + Protocol(|out| - mark, config06, start);
  }

  lemma WritesFollowProtocol(b: Blobs, s: Machine)
    requires Reachable(b, s)
    ensures s.h.startScan == b.scan || s.h.startScan == PatchMode(b.scan)
    ensures FollowsProtocol(s.h.out, b.config06, s.h.startScan, s.wakeRetryUsed)
  {
    hide Reachable, FollowsProtocol;
    ReachableInv(b, s);
    WrittenFollows(s.h.out, s.h.mark, s.h.startScan, b.config06, s.wakeRetryUsed);
  }

  lemma {:induction false} CapturesInProtocol(n: nat, b: Blobs, start: Message)
    requires WellFramed(b) && |start| == USB_SCAN_LENGTH
    ensures multiset(Protocol(n, b.config06, start))[COMMAND_51] == CaptureCommands(n)
  {
    if n == 0 {
    } else {
      CapturesInProtocol(n - 1, b, start);
      assert Protocol(n, b.config06, start)
          == Protocol(n - 1, b.config06, start) + [NthWrite(n - 1, b.config06, start)];
      assert |PatchMode(start)| == USB_SCAN_LENGTH;
    }
  }

  lemma CapturesWritten(out: seq<Message>, mark: nat, start: Message, b: Blobs)
    requires WellFramed(b) && |start| == USB_SCAN_LENGTH && Written(out, mark, start, b.config06)
    ensures multiset(out)[COMMAND_51] == CaptureCommands(|out| - mark)
  {
    SplitAtRestart(out, mark, start, b.config06);
    CapturesInProtocol(mark, b, start);
    CapturesInProtocol(|out| - mark, b, start);
    hide Written, Protocol;
    assert out == out[..mark] + out[mark..];
  }

  /** In every activation there is one capture command for each finger-on report. */
  lemma OneCapturePerFingerOn(b: Blobs, s: Machine)
    requires Reachable(b, s)
    ensures multiset(s.h.out)[COMMAND_51] == multiset(s.h.calls)[FingerStatus(true)]
  {
    hide Reachable;
    ReachableInv(b, s);
    ReportsMatchWrites(b, s);
    hide Inv;
    CapturesWritten(s.h.out, s.h.mark, s.h.startScan, b);
  }

  lemma ReportsMatchWrites(b: Blobs, s: Machine)
    requires Inv(s, b)
    ensures OnReports(s.h.calls) == CaptureCommands(Since(s.h))
    ensures s.h.mark <= |s.h.out| && s.h.mark <= INIT_STAGES && (s.h.mark > 0 ==> s.wakeRetryUsed)
    ensures Written(s.h.out, s.h.mark, s.h.startScan, b.config06)
    ensures WellFramed(b) && |s.h.startScan| == USB_SCAN_LENGTH
    ensures s.h.startScan == b.scan || s.h.startScan == PatchMode(b.scan)
  {
  }

  /** Over the whole open session scan_02 is the loaded blob, except that byte 1749 may have become 0x23. */
  lemma ScanChangesOnlyItsMode(b: Blobs, s: Machine)
    requires Reachable(b, s)
    ensures |s.scan02| == |b.scan|
    ensures forall i :: 0 <= i < |b.scan| && i != MODE_OFFSET ==> s.scan02[i] == b.scan[i]
    ensures s.scan02[MODE_OFFSET] == b.scan[MODE_OFFSET] || s.scan02[MODE_OFFSET] == REARM_MODE
  {
    hide Reachable;
    ReachableInv(b, s);
    assert s.scan02 == b.scan || s.scan02 == PatchMode(b.scan);
  }

  /** The reply length that belongs to a request, by its command byte. */
  function ReplyLength(request: Message): nat {
    if request == [] then 0
    else if request[0] == 0x01 then 38
    else if request[0] == 0x19 then 68
    else if request[0] == 0x75 then 10
    else if request[0] == 0x02 then SCAN_RESPONSE_LENGTH
    else 2
  }

  lemma InitReadMatches(b: Blobs, s: Machine, length: nat)
    requires Inv(s, b) && InitRead(length) in s.pending
    ensures s.h.out != [] && length == ReplyLength(s.h.out[|s.h.out| - 1])
  {
    HandshakeAlone(s, b, InitRead(length));
    PositionOf(s, InitRead(length));
    assert s.h.out[|s.h.out| - 1] == NthWrite(s.initStage, b.config06, s.h.startScan);
  }

  lemma RearmReadMatches(b: Blobs, s: Machine, length: nat)
    requires Loose(s, b) && RearmRead(length) in s.pending
    ensures s.h.out != [] && length == ReplyLength(s.h.out[|s.h.out| - 1])
  {
    assert ActiveOp(RearmRead(length));
    CycleWrites(s.h.images - 1, b.config06, s.h.startScan);
    assert s.h.out[|s.h.out| - 1] == NthWrite(Since(s.h) - 1, b.config06, s.h.startScan);
    assert Since(s.h) - 1 == 3 * (s.h.images - 1) + 8 + s.rearmStage;
  }

  /** Every command read asks for the length that belongs to the request written last. */
  lemma ReadsMatchLastWrite(b: Blobs, s: Machine, length: nat)
    requires Reachable(b, s)
    requires InitRead(length) in s.pending || RearmRead(length) in s.pending
    ensures s.h.out != [] && length == ReplyLength(s.h.out[|s.h.out| - 1])
  {
    hide Reachable;
    ReachableInv(b, s);
    if InitRead(length) in s.pending {
      InitReadMatches(b, s, length);
    } else {
      ActiveTransfer(s, b, RearmRead(length));
      RearmReadMatches(b, s, length);
    }
  }

  // ---------------------------------------------------------------- the handshake

  /** During an activation attempt exactly one handshake transfer or wake timer is outstanding, alone, until
      activate_complete is called; it is called once; at most one wake wait and 30 transfers are spent; success is
      reported only after a valid control response and all seven write/read pairs since the last restart; and
      response_lengths is never read out of bounds. All of it with or without deactivation. */
  lemma HandshakeLaw(b: Blobs, s: Machine)
    requires Reachable(b, s)
    ensures |s.h.reports| <= 1
    ensures s.h.reports == [] ==> |s.pending| <= 1
    ensures forall op :: op in s.pending ==> (HandshakeOp(op) <==> s.h.reports == [])
    ensures s.h.reports == [] && s.fw.live ==> |s.pending| == 1
    ensures s.h.waits <= 1 && s.h.transfers <= 30
    ensures s.h.reports == [true] ==> s.h.done == Handshake()
    ensures !s.h.outOfTable && !s.deactivating
  {
    hide Reachable;
    ReachableInv(b, s);
    if s.h.reports == [] {
      BeforeReport(b, s);
    } else {
      AfterReport(b, s);
    }
    hide Inv, Handshake;
  }

  lemma BeforeReport(b: Blobs, s: Machine)
    requires Inv(s, b) && s.h.reports == []
    ensures |s.pending| <= 1 && (s.fw.live ==> |s.pending| == 1)
    ensures forall op :: op in s.pending ==> HandshakeOp(op)
    ensures s.h.waits <= 1 && s.h.transfers <= 30 && !s.h.outOfTable && !s.deactivating
  {
    assert NotStarted(s) || Handshaking(s);
    assert Handshaking(s) ==> |s.h.done| <= HANDSHAKE_TRANSFERS;
    hide Written, Successes, Untouched, NthSuccess, NthWrite, Gated;
  }

  lemma AfterReport(b: Blobs, s: Machine)
    requires Inv(s, b) && s.h.reports != []
    ensures |s.h.reports| == 1 && (s.h.reports == [true] ==> s.h.done == Handshake())
    ensures forall op :: op in s.pending ==> !HandshakeOp(op)
    ensures s.h.waits <= 1 && s.h.transfers <= 30 && !s.h.outOfTable && !s.deactivating
  {
    assert ActivationFailed(s) || Active(s);
    hide Written, NthWrite, NthSuccess, Untouched, Gated, ChainShape, WriteCount, CaptureCommands;
  }

  function Handshake(): seq<Op> {
    seq(HANDSHAKE_TRANSFERS, i requires 0 <= i < HANDSHAKE_TRANSFERS => NthSuccess(i))
  }

  /** How many completions and timers the handshake can still take. */
  function Rank(s: Machine): nat {
    (if s.wakeRetryUsed then 0 else HANDSHAKE_TRANSFERS + 2)
    + (if s.h.reports != [] then 0
       else if WakeTimer in s.pending then HANDSHAKE_TRANSFERS + 1
       else if |s.h.done| <= HANDSHAKE_TRANSFERS then HANDSHAKE_TRANSFERS - |s.h.done| else 0)
  }

  /** Something of the handshake is outstanding and nothing was reported yet. */
  predicate UnderWay(s: Machine) {
    s.h.reports == [] && s.pending != multiset{}
  }

  /** Every completion and every timer brings the report nearer, and nothing else moves it away: while the
      handshake is under way, it stays so until activate_complete is called, deactivated or not. */
  lemma HandshakeProgress(b: Blobs, s: Machine, e: Event)
    requires Reachable(b, s) && UnderWay(s) && Enabled(s, e)
    ensures e.Completed? || e.TimerFired? ==> Rank(Step(s, e)) < Rank(s)
    ensures !e.Completed? && !e.TimerFired? ==> Rank(Step(s, e)) == Rank(s)
    ensures UnderWay(Step(s, e)) || |Step(s, e).h.reports| == 1
  {
    hide Reachable;
    ReachableInv(b, s);
    OneUnderWay(s, b);
    hide Inv, Between, Rank, DriverModel.Dispatch, DriverModel.Take;
    if e.Completed? {
      ProgressOf(s, b, e.op, e.result, e.reply);
      StaysOrReports(Take(s, e.op), b, e.op, e.result, e.reply);
    } else if e.TimerFired? {
      TimerRank(s, b);
      hide DriverModel.Step;
    } else {
      OtherEventRank(s, e);
      hide DriverModel.Step;
    }
  }

  lemma OtherEventRank(s: Machine, e: Event)
    requires UnderWay(s) && Enabled(s, e) && !e.Completed? && !e.TimerFired?
    requires Chain(s.pending) == 0 && !s.fw.due && !s.deactivating
    ensures Rank(Step(s, e)) == Rank(s) && UnderWay(Step(s, e))
  {
  }

  lemma OneUnderWay(s: Machine, b: Blobs)
    requires Inv(s, b) && UnderWay(s)
    ensures forall op :: op in s.pending ==> HandshakeOp(op) && s.pending == multiset{op}
    ensures Chain(s.pending) == 0 && !s.fw.due && !s.deactivating
  {
    assert Handshaking(s);
  }

  lemma TimerRank(s: Machine, b: Blobs)
    requires Inv(s, b) && WakeTimer in s.pending
    ensures Rank(Step(s, TimerFired)) < Rank(s) && UnderWay(Step(s, TimerFired))
  {
    HandshakeAlone(s, b, WakeTimer);
    PositionOf(s, WakeTimer);
    assert s.pending - multiset{WakeTimer} == multiset{};
    assert Step(s, TimerFired).pending == multiset{Control};
  }

  lemma ProgressOf(s: Machine, b: Blobs, op: Op, result: UsbResult, reply: Reply)
    requires Inv(s, b) && op in s.pending && HandshakeOp(op) && op != WakeTimer
    ensures Between(Take(s, op), b)
    ensures Rank(Dispatch(Take(s, op), op, result, reply)) < Rank(s)
  {
    HandshakeAlone(s, b, op);
    PositionOf(s, op);
    TakeHandshake(s, b, op);
    CompletionRank(Take(s, op), b, op, result, reply);
  }

  lemma StaysOrReports(s: Machine, b: Blobs, op: Op, result: UsbResult, reply: Reply)
    requires Between(s, b) && HandshakeOp(op) && op != WakeTimer
    ensures var t := Dispatch(s, op, result, reply); UnderWay(t) || |t.h.reports| == 1
  {
    forall ok: bool, u: Machine
      ensures ActivateComplete(u, ok, reply.last).h.reports == u.h.reports + [ok]
    {
      ReactionsReportNothing(u.(h := u.h.(reports := u.h.reports + [ok]),
                                fw := u.fw.(live := u.fw.live && ok, due := ok)), reply.last);
    }
    hide DriverModel.ActivateComplete;
  }

  lemma ReactionsReportNothing(s: Machine, r: Reaction)
    ensures React(s, r).h.reports == s.h.reports && React(s, r).wakeRetryUsed == s.wakeRetryUsed
  {
    hide DriverModel.Config39, DriverModel.PatchMode;
  }

  ghost predicate StaysUnderWay(s: Machine, es: seq<Event>)
    requires Legal(s, es)
    decreases |es|
  {
    UnderWay(s) && (es == [] || StaysUnderWay(Step(s, es[0]), es[1..]))
  }

  /** The completions and timers of a run. */
  function Ticks(es: seq<Event>): nat {
    if es == [] then 0 else (if es[0].Completed? || es[0].TimerFired? then 1 else 0) + Ticks(es[1..])
  }

  lemma RankBound(b: Blobs, s: Machine)
    requires Reachable(b, s) && UnderWay(s)
    ensures Rank(s) <= 2 * HANDSHAKE_TRANSFERS + 2
  {
    hide Reachable;
    ReachableInv(b, s);
    OneUnderWay(s, b);
    if WakeTimer in s.pending {
      HandshakeAlone(s, b, WakeTimer);
      PositionOf(s, WakeTimer);
    }
  }

  /** However the transfers end and whenever the device is deactivated, no run stays in the handshake for
      more than 32 completions and timers. */
  lemma {:induction false} HandshakeEnds(b: Blobs, s: Machine, es: seq<Event>)
    requires Reachable(b, s) && Legal(s, es) && StaysUnderWay(s, es)
    ensures Ticks(es) + Rank(Run(s, es)) <= Rank(s) <= 2 * HANDSHAKE_TRANSFERS + 2
    decreases |es|
  {
    hide Reachable, DriverModel.Step, DriverModel.Enabled, Rank;
    RankBound(b, s);
    if es == [] {
    } else {
      HandshakeProgress(b, s, es[0]);
      ReachableStep(b, s, es[0]);
      HandshakeEnds(b, Step(s, es[0]), es[1..]);
    }
  }

  lemma ErrorRank(s: Machine, b: Blobs, result: UsbResult, r: Reaction)
    requires Between(s, b) && |s.h.done| < HANDSHAKE_TRANSFERS
    ensures Rank(HandshakeError(s, result, r)) < Rank(s)
    ensures Rank(ActivateComplete(s, false, r)) < Rank(s)
  {
  }

  lemma SuccessRank(s: Machine, t: Machine, op: Op)
    requires s.h.reports == [] && |s.h.done| < HANDSHAKE_TRANSFERS && WakeTimer !in s.pending
    requires t.wakeRetryUsed == s.wakeRetryUsed
    requires t.h.reports != [] || (t.h.done == s.h.done + [op] && WakeTimer !in t.pending)
    ensures Rank(t) < Rank(s)
  {
  }

  lemma CompletionRank(s: Machine, b: Blobs, op: Op, result: UsbResult, reply: Reply)
    requires Between(s, b) && HandshakeOp(op) && op != WakeTimer
    requires |s.h.done| < HANDSHAKE_TRANSFERS
    ensures Rank(Dispatch(s, op, result, reply)) < Rank(s)
  {
    ErrorRank(s, b, result, reply.last);
    if result.Done? && (op.Control? ==> result.data == [0, 0]) {
      AdvanceRank(s, b, op, result, reply);
    }
    hide Rank, Between, DriverModel.HandshakeError, DriverModel.ActivateComplete, DriverModel.InitSendStage;
  }

  lemma AdvanceRank(s: Machine, b: Blobs, op: Op, result: UsbResult, reply: Reply)
    requires Between(s, b) && HandshakeOp(op) && op != WakeTimer && |s.h.done| < HANDSHAKE_TRANSFERS
    requires result.Done? && (op.Control? ==> result.data == [0, 0])
    ensures Rank(Dispatch(s, op, result, reply)) < Rank(s)
  {
    ReportedTrue(Succeeded(s, op).(initStage := s.initStage + 1), reply.last);
    hide DriverModel.ActivateComplete;
    SuccessRank(s, Dispatch(s, op, result, reply), op);
  }

  lemma ReportedTrue(s: Machine, r: Reaction)
    ensures ActivateComplete(s, true, r).h.reports == s.h.reports + [true]
    ensures ActivateComplete(s, true, r).wakeRetryUsed == s.wakeRetryUsed
  {
    ReactionsReportNothing(s.(h := s.h.(reports := s.h.reports + [true]),
                              fw := s.fw.(live := s.fw.live && true, due := true)), r);
    hide DriverModel.React;
  }

  // ---------------------------------------------------------------- stages, images and release timeouts

  /** The count behind the release gate, in every run: no more stages than images, at most one image more than
      release timeouts, and a capture outstanding only while no release is awaited. (When a release timeout means
      that the device was silent is the subject of DriverRelease.) */
  lemma HeldFinger(b: Blobs, s: Machine)
    requires Reachable(b, s)
    ensures s.fw.enrollStage <= s.h.images <= s.h.quiet + 1
    ensures CaptureRead in s.pending ==> !s.awaitingRelease && s.h.images <= s.h.quiet
  {
    hide Reachable;
    ReachableInv(b, s);
    if CaptureRead in s.pending {
      ActiveTransfer(s, b, CaptureRead);
    }
  }

  /** No framework reaction starts a capture or takes a release timeout. */
  lemma ReactionsStartNoCapture(s: Machine, r: Reaction)
    ensures React(s, r).pending[CaptureRead] == s.pending[CaptureRead]
    ensures React(s, r).h.quiet == s.h.quiet
  {
    hide DriverModel.Config39, DriverModel.PatchMode;
  }

  lemma HandoverStartsNoCapture(s: Machine, reply: Reply)
    ensures Handover(s, reply).pending[CaptureRead] == s.pending[CaptureRead]
    ensures Handover(s, reply).h.quiet == s.h.quiet
  {
    hide DriverModel.React;
    var w := if reply.extracted then ExtractPrint(s, reply.early) else s;
    var x := CountStage(w, reply);
    ReactionsStartNoCapture(s, reply.last);
    ReactionsStartNoCapture(Say(s, FingerStatus(false)), reply.early);
    ReactionsStartNoCapture(x, Verdict(x, reply));
  }

  lemma ImagesStartNoCapture(s: Machine, raster: seq<byte>, reply: Reply)
    ensures FinishCapture(s, raster, reply).pending[CaptureRead] == s.pending[CaptureRead]
    ensures FinishCapture(s, raster, reply).h.quiet == s.h.quiet
  {
    hide DriverModel.Handover;
    var t := CountImage(s.(captureCount := s.captureCount + 1), raster);
    HandoverStartsNoCapture(t.(fw := t.fw.(due := true)), reply);
  }

  /** A capture starts only on a finger-on event seen while no release is awaited. */
  lemma CapturesStartReleased(b: Blobs, s: Machine, e: Event)
    requires Reachable(b, s) && Enabled(s, e)
    requires Step(s, e).pending[CaptureRead] > s.pending[CaptureRead]
    ensures !s.awaitingRelease && s.h.images <= s.h.quiet
    ensures e.Completed? && e.op.Interrupt? && e.result.Done? && FingerOnEvent(e.result.data)
  {
    hide Reachable;
    ReachableInv(b, s);
    EventEffects(s, e);
  }

  /** What is counted as quiet is the timeout of a release interrupt. */
  lemma QuietMeansReleaseTimeout(b: Blobs, s: Machine, e: Event)
    requires Reachable(b, s) && Enabled(s, e)
    requires Step(s, e).h.quiet > s.h.quiet && !e.Activate?
    ensures e.Completed? && e.op == Interrupt(RELEASE_QUIET_MS) && e.result == TimedOut
  {
    hide Reachable;
    ReachableInv(b, s);
    EventEffects(s, e);
    ActiveTransfer(s, b, e.op);
  }

  predicate StartsCapture(s: Machine, e: Event) {
    e.Completed? && e.op.Interrupt? && e.result.Done? && FingerOnEvent(e.result.data) && !s.awaitingRelease
  }

  predicate TakesQuiet(s: Machine, e: Event) {
    e.Completed? && e.op.Interrupt? && e.result.TimedOut? && s.awaitingRelease
  }

  lemma InterruptEffects(s: Machine, result: UsbResult, r: Reaction)
    ensures var t := InterruptCb(s, result, r);
      && (t.pending[CaptureRead] > s.pending[CaptureRead] ==>
            result.Done? && FingerOnEvent(result.data) && !s.awaitingRelease)
      && (t.h.quiet > s.h.quiet ==> result.TimedOut? && s.awaitingRelease)
  {
    hide DriverModel.Config39, DriverModel.PatchMode;
    hide DriverModel.React;
    ReactionsStartNoCapture(Say(s, SessionError), r);
    ReactionsStartNoCapture(Released(s), r);
    ReactionsStartNoCapture(Say(s, FingerStatus(true)), r);
  }

  lemma RearmStartsNoCapture(s: Machine, op: Op, result: UsbResult, reply: Reply)
    requires op.CaptureWrite? || op.RearmWrite? || op.RearmRead?
    ensures var t := Dispatch(s, op, result, reply);
      t.pending[CaptureRead] == s.pending[CaptureRead] && t.h.quiet == s.h.quiet
  {
    hide DriverModel.Config39, DriverModel.PatchMode;
    hide DriverModel.React;
    ReactionsStartNoCapture(Say(s, SessionError), reply.last);
  }

  lemma CaptureReadStartsNoCapture(s: Machine, result: UsbResult, reply: Reply)
    ensures var t := CaptureReadCb(s, result, reply);
      t.pending[CaptureRead] == s.pending[CaptureRead] && t.h.quiet == s.h.quiet
  {
    hide DriverModel.React, DriverModel.FinishCapture;
    ReactionsStartNoCapture(Say(s, SessionError), reply.last);
    if result.Done? && ImageFrame.DriverAccepts(result.data) {
      ImagesStartNoCapture(s, RasterOf(result.data), reply);
    }
  }

  /** Which events start captures, and which take release timeouts. */
  lemma EventEffects(s: Machine, e: Event)
    requires Enabled(s, e)
    ensures Step(s, e).pending[CaptureRead] > s.pending[CaptureRead] ==> StartsCapture(s, e)
    ensures Step(s, e).h.quiet > s.h.quiet ==> TakesQuiet(s, e)
  {
    hide DriverModel.Dispatch, DriverModel.ChangeState, DriverModel.DevActivate, DriverModel.WakeTimerCb;
    if e.Completed? {
      CompletionEffects(Take(s, e.op), e.op, e.result, e.reply);
    } else {
      OtherEventEffects(s, e);
    }
  }

  lemma OtherEventEffects(s: Machine, e: Event)
    requires Enabled(s, e) && !e.Completed?
    ensures Step(s, e).pending[CaptureRead] <= s.pending[CaptureRead] && Step(s, e).h.quiet <= s.h.quiet
  {
    hide DriverModel.ChangeState;
    if e.Notified? {
      NotificationStartsNoCapture(s, e.state);
      NotificationStartsNoCapture(s.(fw := s.fw.(due := false)), e.state);
    }
  }

  lemma NotificationStartsNoCapture(s: Machine, state: DeviceState)
    ensures ChangeState(s, state).pending[CaptureRead] == s.pending[CaptureRead]
    ensures ChangeState(s, state).h.quiet == s.h.quiet
  {
  }

  lemma CompletionEffects(s: Machine, op: Op, result: UsbResult, reply: Reply)
    requires op != WakeTimer
    ensures var t := Dispatch(s, op, result, reply);
      && (t.pending[CaptureRead] > s.pending[CaptureRead] ==>
            op.Interrupt? && result.Done? && FingerOnEvent(result.data) && !s.awaitingRelease)
      && (t.h.quiet > s.h.quiet ==> op.Interrupt? && result.TimedOut? && s.awaitingRelease)
  {
    hide DriverModel.InterruptCb, DriverModel.CaptureReadCb, DriverModel.React;
    if op.CaptureRead? {
      CaptureReadStartsNoCapture(s, result, reply);
    } else if op.Interrupt? {
      InterruptEffects(s, result, reply.last);
    } else if op.Control? || op.InitWrite? || op.InitRead? {
      HandshakeStartsNoCapture(s, op, result, reply);
    } else {
      RearmStartsNoCapture(s, op, result, reply);
    }
  }

  lemma HandshakeStartsNoCapture(s: Machine, op: Op, result: UsbResult, reply: Reply)
    requires op.Control? || op.InitWrite? || op.InitRead?
    ensures var t := Dispatch(s, op, result, reply);
      t.pending[CaptureRead] == s.pending[CaptureRead] && t.h.quiet == s.h.quiet
  {
    hide DriverModel.React;
    forall u: Machine, ok: bool
      ensures ActivateComplete(u, ok, reply.last).pending[CaptureRead] == u.pending[CaptureRead]
      ensures ActivateComplete(u, ok, reply.last).h.quiet == u.h.quiet
    {
      ReactionsStartNoCapture(u.(h := u.h.(reports := u.h.reports + [ok]),
                                 fw := u.fw.(live := u.fw.live && ok, due := ok)), reply.last);
    }
  }

  // ---------------------------------------------------------------- deactivation

  /** A machine after the framework has deactivated the device. */
  function Muted(s: Machine): Machine {
    Say(s.(fw := s.fw.(live := false)), DeactivateComplete)
  }

  /** `dev_deactivate` sets and clears `deactivating` in one call: it leaves every field and every
      outstanding transfer as it was, so no later callback can see it. */
  lemma DeactivationLeavesEverything(b: Blobs, s: Machine)
    requires Reachable(b, s) && s.fw.live
    ensures Step(s, Deactivated) == Muted(s)
  {
    hide Reachable;
    ReachableInv(b, s);
  }

  const SILENT: Reply := Reply(false, false, Nothing, Nothing)

  /** e with a framework that does nothing inside the call. */
  function Silent(e: Event): Event {
    if e.Completed? then e.(reply := SILENT) else e
  }

  /** The handshake does not see a deactivation: one that comes before a completion or before the wake timer
      has the outcome of one that comes after it. The restart, the writes, the transfers and the report to
      the framework are those of a device that was never deactivated. */
  lemma HandshakeIgnoresDeactivation(b: Blobs, s: Machine, e: Event)
    requires Reachable(b, s) && UnderWay(s) && s.fw.live && Enabled(s, e) && (e.Completed? || e.TimerFired?)
    ensures Enabled(Step(s, Deactivated), e)
    ensures Step(Step(s, Deactivated), e) == Muted(Step(s, Silent(e)))
  {
    hide Reachable;
    DeactivationLeavesEverything(b, s);
    ReachableInv(b, s);
    OneUnderWay(s, b);
    hide DriverModel.Dispatch, Inv;
    if e.Completed? {
      CompletionIgnoresDeactivation(Take(s, e.op), e.op, e.result, e.reply);
      assert Take(Muted(s), e.op) == Muted(Take(s, e.op));
    }
  }

  lemma ReportIgnoresDeactivation(s: Machine, ok: bool, r: Reaction)
    ensures ActivateComplete(Muted(s), ok, r) == Muted(ActivateComplete(s, ok, Nothing))
  {
    DeadReaction(Muted(s).(h := Muted(s).h.(reports := s.h.reports + [ok]), fw := s.fw.(live := false, due := ok)), r);
  }

  lemma ErrorIgnoresDeactivation(s: Machine, result: UsbResult, r: Reaction)
    ensures HandshakeError(Muted(s), result, r) == Muted(HandshakeError(s, result, Nothing))
  {
    hide DriverModel.ActivateComplete;
    ReportIgnoresDeactivation(s, false, r);
  }

  lemma SuccessIgnoresDeactivation(s: Machine, length: nat, result: UsbResult, r: Reaction)
    requires result.Done?
    ensures InitReadCb(Muted(s), length, result, r) == Muted(InitReadCb(s, length, result, Nothing))
  {
    hide DriverModel.ActivateComplete, DriverModel.HandshakeError;
    var t := Succeeded(s, InitRead(length)).(initStage := s.initStage + 1);
    ReportIgnoresDeactivation(t, true, r);
    assert Succeeded(Muted(s), InitRead(length)).(initStage := s.initStage + 1) == Muted(t);
  }

  lemma FirstStageIgnoresDeactivation(s: Machine, result: UsbResult, r: Reaction)
    requires result.Done?
    ensures ControlCb(Muted(s), result, r) == Muted(ControlCb(s, result, Nothing))
  {
    ReportIgnoresDeactivation(s, false, r);
    hide DriverModel.ActivateComplete, DriverModel.HandshakeError;
  }

  lemma CompletionIgnoresDeactivation(s: Machine, op: Op, result: UsbResult, reply: Reply)
    requires HandshakeOp(op) && op != WakeTimer
    ensures Dispatch(Muted(s), op, result, reply) == Muted(Dispatch(s, op, result, SILENT))
  {
    ErrorIgnoresDeactivation(s, result, reply.last);
    hide DriverModel.HandshakeError;
    if !result.Done? {
      return;
    }
    match op
    case Control =>
      FirstStageIgnoresDeactivation(s, result, reply.last);
      hide DriverModel.ControlCb;
    case InitWrite =>
    case InitRead(length) =>
      SuccessIgnoresDeactivation(s, length, result, reply.last);
      hide DriverModel.InitReadCb;
  }

  /** Every accepted frame leaves one release interrupt behind, also the frame of the final stage, after which
      the framework has deactivated the device. */
  lemma CaptureLeavesInterrupt(b: Blobs, s: Machine, result: UsbResult, reply: Reply)
    requires Reachable(b, s) && CaptureRead in s.pending
    requires result.Done? && ImageFrame.DriverAccepts(result.data)
    ensures var t := Step(s, Completed(CaptureRead, result, reply));
      && t.awaitingRelease && Interrupt(RELEASE_QUIET_MS) in t.pending
      && (s.fw.live && s.fw.action == Enroll && reply.extracted && reply.appended && s.fw.enrollStage + 1 == s.fw.stages
          ==> t.fw.enrollStage == t.fw.stages && !t.fw.live)
  {
    hide Reachable;
    hide DriverModel.FinishCapture;
    ReachableInv(b, s);
    ActiveTransfer(s, b, CaptureRead);
    FinishLeavesInterrupt(b, s, RasterOf(result.data), reply);
    FinishSays(Take(s, CaptureRead), RasterOf(result.data), reply, SessionError);
  }

  lemma FinishLeavesInterrupt(b: Blobs, s: Machine, raster: seq<byte>, reply: Reply)
    requires Loose(s, b) && Gated(s) && CaptureRead in s.pending
    ensures var t := FinishCapture(Take(s, CaptureRead), raster, reply);
      t.awaitingRelease && Interrupt(RELEASE_QUIET_MS) in t.pending
  {
    hide DriverModel.DeliverImage, Delivering, StageOpen;
    DeliveryKeepsDelivering(s, b, raster, reply);
  }

  // ---------------------------------------------------------------- the calls into the framework

  /** How often the driver made a call in this activation. */
  function Count(s: Machine, c: Call): nat {
    multiset(s.h.calls)[c]
  }

  predicate SameStages(s: Machine, t: Machine) {
    && t.fw.action == s.fw.action && t.fw.stages == s.fw.stages && t.fw.enrollStage == s.fw.enrollStage
    && t.captureCount == s.captureCount && t.deactivating == s.deactivating && t.awaitingRelease == s.awaitingRelease
  }

  /** Whatever the framework does inside a call, the driver reports no error, finger or image of its own. */
  lemma ReactSays(s: Machine, r: Reaction, c: Call)
    requires !s.deactivating && c != DeactivateComplete
    ensures Count(React(s, r), c) == Count(s, c) && SameStages(s, React(s, r))
    ensures r == DeactivateDevice ==> !React(s, r).fw.live
    ensures !s.fw.live ==> !React(s, r).fw.live
  {
    hide DriverModel.Config39, DriverModel.PatchMode;
  }

  /** An image whose features were extracted is taken for the last one. */
  predicate TakenForLast(s: Machine, reply: Reply) {
    reply.extracted && EarlyFingerOff(s)
  }

  lemma ExtractSays(s: Machine, reply: Reply, c: Call)
    requires !s.deactivating && c != DeactivateComplete
    ensures var t := if reply.extracted then ExtractPrint(s, reply.early) else s;
      && Count(t, c) == Count(s, c) + (if TakenForLast(s, reply) && c == FingerStatus(false) then 1 else 0)
      && SameStages(s, t)
  {
    hide DriverModel.React;
    ReactSays(Say(s, FingerStatus(false)), reply.early, c);
  }

  lemma ProcessSays(s: Machine, reply: Reply, c: Call)
    requires !s.deactivating && c != DeactivateComplete
    ensures var t := ProcessPrint(s, reply);
      && Count(t, c) == Count(s, c) && SameStages(CountStage(s, reply), t)
      && (t.fw.action == Enroll && t.fw.enrollStage == t.fw.stages ==> !t.fw.live)
  {
    hide DriverModel.React;
    var t := CountStage(s, reply);
    ReactSays(t, Verdict(t, reply), c);
  }

  lemma HandoverSays(s: Machine, reply: Reply, c: Call)
    requires !s.deactivating && c != DeactivateComplete
    ensures var t := Handover(s, reply);
      && Count(t, c) == Count(s, c) + (if TakenForLast(s, reply) && c == FingerStatus(false) then 1 else 0)
      && SameStages(CountStage(s, reply), t)
      && (t.fw.action == Enroll && t.fw.enrollStage == t.fw.stages ==> !t.fw.live)
  {
    hide DriverModel.React, DriverModel.ExtractPrint, DriverModel.ProcessPrint;
    if s.fw.action == Capture {
      ReactSays(s, reply.last, c);
    } else {
      ExtractSays(s, reply, c);
      ProcessSays(if reply.extracted then ExtractPrint(s, reply.early) else s, reply, c);
    }
  }

  lemma DeliverySays(s: Machine, raster: seq<byte>, reply: Reply, c: Call)
    requires !s.deactivating && (c == FingerStatus(false) || c == SessionError)
    ensures var t := DeliverImage(s, raster, reply);
      && Count(t, c) == Count(s, c) + (if s.fw.live && TakenForLast(s, reply) && c == FingerStatus(false) then 1 else 0)
      && SameStages(if s.fw.live then CountStage(s, reply) else s, t)
      && (s.fw.live && t.fw.action == Enroll && t.fw.enrollStage == t.fw.stages ==> !t.fw.live)
  {
    hide DriverModel.Handover;
    if s.fw.live {
      var t := CountImage(s, raster);
      var u := t.(fw := t.fw.(due := true));
      CountedSame(s, raster, reply, c);
      HandoverSays(u, reply, c);
      assert DeliverImage(s, raster, reply) == Handover(u, reply);
      hide Count, TakenForLast, DriverModel.CountStage, DriverModel.DeliverImage;
    }
  }

  lemma CountedSame(s: Machine, raster: seq<byte>, reply: Reply, c: Call)
    requires c == FingerStatus(false) || c == SessionError
    ensures var t := CountImage(s, raster);
      var u := t.(fw := t.fw.(due := true));
      && Count(u, c) == Count(s, c) && (TakenForLast(u, reply) <==> TakenForLast(s, reply))
      && SameStages(CountStage(s, reply), CountStage(u, reply)) && u.deactivating == s.deactivating
  {
  }

  /** One accepted frame, from the callback's first statement to its last. */
  lemma FinishSays(s: Machine, raster: seq<byte>, reply: Reply, c: Call)
    requires !s.deactivating && (c == FingerStatus(false) || c == SessionError)
    ensures var t, last := FinishCapture(s, raster, reply), TakenForLast(s.(captureCount := s.captureCount + 1), reply);
      && Count(t, c) == Count(s, c) + (if s.fw.live && last && c == FingerStatus(false) then 1 else 0)
      && t.fw.action == s.fw.action && t.fw.stages == s.fw.stages
      && t.fw.enrollStage == (if s.fw.live then CountStage(s, reply).fw.enrollStage else s.fw.enrollStage)
      && (s.fw.live && t.fw.action == Enroll && t.fw.enrollStage == t.fw.stages ==> !t.fw.live)
  {
    hide DriverModel.DeliverImage, TakenForLast;
    DeliverySays(s.(captureCount := s.captureCount + 1), raster, reply, c);
  }

  /** Finger-off is reported from inside an enrollment capture exactly when features were extracted and the
      captures, rejected ones included, reach the number of stages, whatever the framework does. The comment
      in the source speaks of the final stage. The two are the same exactly under the condition stated last;
      for a sample that is kept: exactly if no capture was rejected before, or the number of stages is
      reached by neither count. */
  lemma EarlyFingerOffExactly(b: Blobs, s: Machine, result: UsbResult, reply: Reply)
    requires Reachable(b, s) && CaptureRead in s.pending && s.fw.live && s.fw.action == Enroll
    requires result.Done? && ImageFrame.DriverAccepts(result.data)
    ensures var t := Step(s, Completed(CaptureRead, result, reply));
      var early := Count(t, FingerStatus(false)) > Count(s, FingerStatus(false));
      var final := t.fw.enrollStage == t.fw.stages;
      && (early <==> reply.extracted && s.h.images + 1 == s.fw.stages)
      && t.fw.enrollStage == s.fw.enrollStage + (if reply.extracted && reply.appended then 1 else 0)
      && t.fw.stages == s.fw.stages && (final ==> !t.fw.live)
      && (s.fw.stages > 0 ==>
            && ((early <==> final) <==>
                  (reply.extracted ==>
                     (s.h.images + 1 == s.fw.stages <==> reply.appended && s.fw.enrollStage + 1 == s.fw.stages)))
            && (reply.extracted && reply.appended ==>
                  ((early <==> final) <==>
                     (s.h.images == s.fw.enrollStage
                      || s.fw.stages !in {s.h.images + 1, s.fw.enrollStage + 1}))))
  {
    hide Reachable;
    ReachableInv(b, s);
    ActiveTransfer(s, b, CaptureRead);
    var t := Take(s, CaptureRead);
    assert Count(t, FingerStatus(false)) == Count(s, FingerStatus(false));
    hide DriverModel.FinishCapture, Inv, Loose;
    FinishSays(t, RasterOf(result.data), reply, FingerStatus(false));
  }

  // ---------------------------------------------------------------- session errors

  /** A transfer of an activated device that failed, other than a cancelled interrupt or a release timeout. */
  predicate Fails(s: Machine, op: Op, result: UsbResult) {
    match op
    case Interrupt(_) => !result.Done? && !result.Cancelled? && !(s.awaitingRelease && result.TimedOut?)
    case CaptureRead => !result.Done? || !ImageFrame.DriverAccepts(result.data)
    case CaptureWrite => !result.Done?
    case RearmWrite => !result.Done?
    case RearmRead(_) => !result.Done?
    case _ => false
  }

  /** No error is swallowed and none is made up: each failed transfer is reported as one session error, and
      nothing else is. */
  lemma SessionErrorsExactly(b: Blobs, s: Machine, e: Event)
    requires Reachable(b, s) && Enabled(s, e) && !e.Activate?
    ensures Count(Step(s, e), SessionError)
         == Count(s, SessionError) + (if e.Completed? && Fails(s, e.op, e.result) then 1 else 0)
  {
    hide Reachable;
    hide DriverModel.Dispatch, DriverModel.ChangeState, DriverModel.WakeTimerCb;
    ReachableInv(b, s);
    NeverDeactivating(s, b);
    hide Inv;
    if e.Completed? {
      hide Fails;
      TakeSays(s, e.op, e.result);
      CompletionErrors(Take(s, e.op), e.op, e.result, e.reply);
    } else {
      OtherEventsSay(s, b, e);
    }
  }

  lemma NeverDeactivating(s: Machine, b: Blobs)
    requires Inv(s, b)
    ensures !s.deactivating
  {
  }

  lemma TakeSays(s: Machine, op: Op, result: UsbResult)
    ensures Take(s, op).h.calls == s.h.calls && Take(s, op).deactivating == s.deactivating
    ensures Fails(Take(s, op), op, result) <==> Fails(s, op, result)
  {
  }

  lemma OtherEventsSay(s: Machine, b: Blobs, e: Event)
    requires Inv(s, b) && Enabled(s, e) && !e.Activate? && !e.Completed?
    ensures Count(Step(s, e), SessionError) == Count(s, SessionError)
  {
    hide DriverModel.ChangeState;
    if e.Notified? {
      ChangeStateSays(s, e.state);
      ChangeStateSays(s.(fw := s.fw.(due := false)), e.state);
    }
  }

  lemma ChangeStateSays(s: Machine, state: DeviceState)
    requires !s.deactivating
    ensures ChangeState(s, state).h.calls == s.h.calls
  {
  }

  lemma FailureSays(s: Machine, r: Reaction)
    requires !s.deactivating
    ensures Count(FailSessionOrDeactivate(s, r), SessionError) == Count(s, SessionError) + 1
  {
    hide DriverModel.React;
    ReactSays(Say(s, SessionError), r, SessionError);
  }

  lemma InterruptErrors(s: Machine, op: Op, result: UsbResult, r: Reaction)
    requires !s.deactivating && op.Interrupt?
    ensures Count(InterruptCb(s, result, r), SessionError)
         == Count(s, SessionError) + (if Fails(s, op, result) then 1 else 0)
  {
    hide DriverModel.React, DriverModel.FailSessionOrDeactivate;
    FailureSays(s, r);
    ReactSays(Released(s), r, SessionError);
    ReactSays(Say(s, FingerStatus(true)), r, SessionError);
  }

  lemma HandshakeErrors(s: Machine, op: Op, result: UsbResult, reply: Reply)
    requires !s.deactivating && HandshakeOp(op) && op != WakeTimer
    ensures Count(Dispatch(s, op, result, reply), SessionError) == Count(s, SessionError)
  {
    hide DriverModel.React;
    forall u: Machine, ok: bool | !u.deactivating
      ensures Count(ActivateComplete(u, ok, reply.last), SessionError) == Count(u, SessionError)
    {
      ReactSays(u.(h := u.h.(reports := u.h.reports + [ok]), fw := u.fw.(live := u.fw.live && ok, due := ok)),
                reply.last, SessionError);
    }
    hide DriverModel.ActivateComplete;
  }

  lemma CaptureErrors(s: Machine, result: UsbResult, reply: Reply)
    requires !s.deactivating
    ensures Count(CaptureReadCb(s, result, reply), SessionError)
         == Count(s, SessionError) + (if Fails(s, CaptureRead, result) then 1 else 0)
  {
    hide DriverModel.FinishCapture, DriverModel.FailSessionOrDeactivate;
    FailureSays(s, reply.last);
    if result.Done? && ImageFrame.DriverAccepts(result.data) {
      FinishSays(s, RasterOf(result.data), reply, SessionError);
    }
  }

  lemma CompletionErrors(s: Machine, op: Op, result: UsbResult, reply: Reply)
    requires !s.deactivating && op != WakeTimer
    ensures Count(Dispatch(s, op, result, reply), SessionError)
         == Count(s, SessionError) + (if Fails(s, op, result) then 1 else 0)
  {
    hide DriverModel.InterruptCb, DriverModel.CaptureReadCb, DriverModel.FailSessionOrDeactivate;
    if op.CaptureRead? {
      CaptureErrors(s, result, reply);
    } else if op.Interrupt? {
      InterruptErrors(s, op, result, reply.last);
    } else if HandshakeOp(op) {
      HandshakeErrors(s, op, result, reply);
    } else {
      FailureSays(s, reply.last);
    }
  }
}
