/** The invariant of the driver machine and its preservation by every event the contract allows. */
module DriverInvariant {
  import opened Bytes
  import opened DriverModel

  /** The blobs `dev_open` loaded, already checked by `load_blob`. */
  datatype Blobs = Blobs(config06: Message, scan: Message)

  predicate WellFramed(b: Blobs) {
    && |b.config06| == CONFIG_06_LENGTH && b.config06[0] == 0x06
    && |b.scan| == USB_SCAN_LENGTH && b.scan[0] == 0x02
  }

  // ---------------------------------------------------------------- what the driver writes

  /** The i-th EP_OUT write of an undisturbed activation that began with `start` in scan_02. */
  function NthWrite(i: nat, config06: Message, start: Message): Message {
    if i < INIT_STAGES then InitRequest(i, config06, start)
    else if (i - INIT_STAGES) % 3 == 0 then COMMAND_51
    else if (i - INIT_STAGES) % 3 == 1 then Config39()
    else PatchMode(start)
  }

  function Since(h: History): int {
    |h.out| - h.mark
  }

  ghost predicate Written(out: seq<Message>, mark: nat, start: Message, config06: Message) {
    && mark <= |out| && mark <= INIT_STAGES
    && (forall i :: 0 <= i < mark ==> out[i] == InitRequest(i, config06, start))
    && (forall i :: mark <= i < |out| ==> out[i] == NthWrite(i - mark, config06, start))
  }

  /** The capture commands among the first n writes of an undisturbed activation. */
  function CaptureCommands(n: int): nat {
    if n < 8 then 0 else (n - 8) / 3 + 1
  }

  lemma CycleWrites(n: nat, config06: Message, start: Message)
    ensures NthWrite(3 * n + 7, config06, start) == COMMAND_51
    ensures NthWrite(3 * n + 8, config06, start) == Config39()
    ensures NthWrite(3 * n + 9, config06, start) == PatchMode(start)
    ensures CaptureCommands(3 * n + 7) == n
    ensures CaptureCommands(3 * n + 8) == CaptureCommands(3 * n + 9) == CaptureCommands(3 * n + 10) == n + 1
  {
  }

  // ---------------------------------------------------------------- the handshake

  /** The i-th success of an undisturbed handshake. */
  function NthSuccess(i: nat): Op {
    if i == 0 then Control
    else if i % 2 == 1 then InitWrite
    else InitRead(if i / 2 <= |RESPONSE_LENGTHS| then RESPONSE_LENGTHS[i / 2 - 1] else 0)
  }

  const HANDSHAKE_TRANSFERS: nat := 15

  ghost predicate Successes(done: seq<Op>) {
    forall i :: 0 <= i < |done| ==> done[i] == NthSuccess(i)
  }

  predicate Untouched(s: Machine) {
    && s.captureCount == 0 && !s.awaitingRelease && !s.fw.due && s.scan02 == s.h.startScan
    && s.h.images == 0 && s.h.quiet == 0 && s.fw.enrollStage == 0 && OnReports(s.h.calls) == 0
  }

  predicate HandshakePosition(s: Machine) {
    || (s.pending == multiset{Control} && s.initStage == 0 && Since(s.h) == 0 && s.h.done == [])
    || (s.pending == multiset{WakeTimer} && s.wakeRetryUsed && Since(s.h) == 0 && s.h.done == [])
    || (s.pending == multiset{InitWrite} && Since(s.h) == s.initStage + 1 && |s.h.done| == 1 + 2 * s.initStage)
    || (s.pending == multiset{InitRead(RESPONSE_LENGTHS[s.initStage % INIT_STAGES])}
        && Since(s.h) == s.initStage + 1 && |s.h.done| == 2 + 2 * s.initStage)
  }

  predicate Handshaking(s: Machine) {
    && s.h.reports == [] && s.initStage < INIT_STAGES && Untouched(s) && HandshakePosition(s)
    && s.h.transfers <= |s.h.done| + (if s.wakeRetryUsed then HANDSHAKE_TRANSFERS else 0)
    && (!s.wakeRetryUsed ==> s.h.mark == 0)
  }

  predicate NotStarted(s: Machine) {
    s.h.reports == [] && s.pending == multiset{} && !s.fw.live && Untouched(s)
    && s.h.out == [] && s.h.done == [] && s.h.transfers == 0
  }

  predicate ActivationFailed(s: Machine) {
    && s.h.reports == [false] && s.pending == multiset{} && !s.fw.live && Untouched(s)
    && Since(s.h) <= INIT_STAGES && s.h.transfers <= 2 * HANDSHAKE_TRANSFERS
  }

  // ---------------------------------------------------------------- an activated device

  predicate ActiveOp(op: Op) {
    || op == Interrupt(0) || op == Interrupt(RELEASE_QUIET_MS)
    || op == CaptureRead || op == CaptureWrite
    || op == RearmWrite || op == RearmRead(2) || op == RearmRead(SCAN_RESPONSE_LENGTH)
  }

  /** While the release of the finger is awaited at most two transfers can lead on, none of them a capture;
      otherwise there is at most one. */
  predicate ChainShape(p: multiset<Op>, awaiting: bool, images: nat) {
    if awaiting then
      && p[Interrupt(0)] == 0 && p[CaptureRead] == 0 && Rearms(p) <= 1
      && Interrupts(p) + Rearms(p) <= 2 && images >= 1
    else Chain(p) <= 1
  }

  /** How many writes were made since the (re)start, by what is outstanding and the number n of images. */
  predicate WriteCount(p: multiset<Op>, due: bool, awaiting: bool, n: nat, rearmStage: nat, since: int) {
    && since >= INIT_STAGES
    && (due ==>
          && p[CaptureRead] == 0 && Rearms(p) == 0 && Interrupts(p) <= (if awaiting then 1 else 0)
          && since == (if n == 0 then 7 else 3 * n + 5))
    && (Rearms(p) >= 1 ==>
          && n >= 1 && rearmStage < 2 && since == 3 * n + 6 + rearmStage
          && (p[RearmRead(2)] > 0 ==> rearmStage == 0)
          && (p[RearmRead(SCAN_RESPONSE_LENGTH)] > 0 ==> rearmStage == 1))
    && (p[CaptureRead] >= 1 ==> since == 3 * n + 8)
    && (!due && Rearms(p) == 0 && Interrupts(p) >= (if awaiting then 2 else 1) ==> since == 3 * n + 7)
  }

  ghost predicate AllActive(p: multiset<Op>) {
    forall op :: op in p ==> ActiveOp(op)
  }

  /** The finger-on reports of the activation. */
  function OnReports(calls: seq<Call>): nat {
    multiset(calls)[FingerStatus(true)]
  }

  ghost predicate Active(s: Machine) {
    && OnReports(s.h.calls) == CaptureCommands(Since(s.h))
    && s.h.reports == [true] && s.initStage == INIT_STAGES
    && |s.h.done| == HANDSHAKE_TRANSFERS && s.h.transfers <= 2 * HANDSHAKE_TRANSFERS
    && s.captureCount == s.h.images
    && AllActive(s.pending)
    && ChainShape(s.pending, s.awaitingRelease, s.h.images)
    && WriteCount(s.pending, s.fw.due, s.awaitingRelease, s.h.images, s.rearmStage, Since(s.h))
    && s.scan02 == (if Since(s.h) >= 10 then PatchMode(s.h.startScan) else s.h.startScan)
  }

  /** An enrollment stays live exactly as long as stages are missing. */
  predicate StageOpen(s: Machine) {
    s.fw.action == Enroll && s.fw.stages > 0 ==>
      && s.fw.enrollStage <= s.fw.stages
      && (s.fw.live ==> s.fw.enrollStage < s.fw.stages)
  }

  predicate StageLeft(s: Machine) {
    s.fw.action == Enroll && s.fw.stages > 0 ==> s.fw.enrollStage < s.fw.stages
  }

  /** One held finger, one stage. */
  predicate Gated(s: Machine) {
    && StageOpen(s)
    && s.fw.enrollStage <= s.h.images
    && s.h.images <= s.h.quiet + (if s.awaitingRelease then 1 else 0)
  }

  ghost predicate Common(s: Machine, b: Blobs) {
    && WellFramed(b) && s.config06 == b.config06
    && (s.h.startScan == b.scan || s.h.startScan == PatchMode(b.scan))
    && !s.deactivating && !s.h.outOfTable
    && (s.h.mark > 0 ==> s.wakeRetryUsed) && s.h.waits == (if s.wakeRetryUsed then 1 else 0)
    && Written(s.h.out, s.h.mark, s.h.startScan, b.config06) && Successes(s.h.done)
  }

  ghost predicate Inv(s: Machine, b: Blobs) {
    && Common(s, b) && Gated(s)
    && (NotStarted(s) || Handshaking(s) || ActivationFailed(s) || Active(s))
  }

  lemma OpenedInv(b: Blobs)
    requires WellFramed(b)
    ensures Inv(Opened(b.config06, b.scan), b)
  {
  }

  // ---------------------------------------------------------------- preservation: framework reactions

  /** An active machine, whatever the number of images says about the release gate. */
  ghost predicate Loose(s: Machine, b: Blobs) {
    Common(s, b) && Active(s)
  }

  /** What a reaction of the framework leaves alone. */
  predicate SameGate(s: Machine, t: Machine) {
    && t.h.images == s.h.images && t.h.quiet == s.h.quiet && t.awaitingRelease == s.awaitingRelease
    && t.fw.enrollStage == s.fw.enrollStage && t.fw.action == s.fw.action && t.fw.stages == s.fw.stages
    && (t.fw.live ==> s.fw.live)
  }

  lemma WriteKeepsWritten(s: Machine, b: Blobs, m: Message, op: Op)
    requires Common(s, b) && m == NthWrite(Since(s.h), b.config06, s.h.startScan)
    ensures var h := Write(s, m, op).h; Written(h.out, h.mark, h.startScan, b.config06)
  {
    AppendKeepsWritten(s.h.out, s.h.mark, s.h.startScan, b.config06, m);
  }

  lemma AppendKeepsWritten(out: seq<Message>, mark: nat, start: Message, config06: Message, m: Message)
    requires Written(out, mark, start, config06) && m == NthWrite(|out| - mark, config06, start)
    ensures Written(out + [m], mark, start, config06)
  {
    hide NthWrite, DriverModel.InitRequest;
  }

  lemma FirstAnnounceKeepsLoose(s: Machine, b: Blobs)
    requires Loose(s, b) && MayAnnounce(s) && s.captureCount == 0
    ensures Loose(Announce(s), b) && SameGate(s, Announce(s))
  {
    hide CaptureCommands, Written, Successes, DriverModel.PatchMode, DriverModel.Config39;
  }

  lemma NextAnnounceKeepsCommon(s: Machine, b: Blobs)
    requires Loose(s, b) && MayAnnounce(s) && s.captureCount > 0
    ensures Common(Announce(s), b) && SameGate(s, Announce(s))
  {
    var t := s.(fw := s.fw.(due := false));
    CycleWrites(s.h.images - 1, b.config06, s.h.startScan);
    WriteKeepsWritten(t.(rearmStage := 0), b, Config39(), RearmWrite);
    hide Written, NthWrite, Successes, DriverModel.Config39, DriverModel.PatchMode;
  }

  lemma NextAnnounceKeepsActive(s: Machine)
    requires Active(s) && MayAnnounce(s) && s.captureCount > 0 && s.h.mark <= |s.h.out|
    ensures Active(Announce(s))
  {
    CycleWrites(s.h.images - 1, [], []);
    hide CaptureCommands, OnReports, NthWrite, DriverModel.Config39, DriverModel.PatchMode;
  }

  lemma NextAnnounceKeepsLoose(s: Machine, b: Blobs)
    requires Loose(s, b) && MayAnnounce(s) && s.captureCount > 0
    ensures Loose(Announce(s), b) && SameGate(s, Announce(s))
  {
    NextAnnounceKeepsCommon(s, b);
    NextAnnounceKeepsActive(s);
    hide Active, DriverModel.Announce;
  }

  lemma AnnounceKeepsLoose(s: Machine, b: Blobs)
    requires Loose(s, b) && MayAnnounce(s)
    ensures Loose(Announce(s), b) && SameGate(s, Announce(s))
  {
    hide Loose, DriverModel.MayAnnounce, DriverModel.Announce;
    if s.captureCount == 0 {
      FirstAnnounceKeepsLoose(s, b);
    } else {
      NextAnnounceKeepsLoose(s, b);
    }
  }

  lemma ReactKeepsLoose(s: Machine, b: Blobs, r: Reaction)
    requires Loose(s, b)
    ensures Loose(React(s, r), b) && SameGate(s, React(s, r))
  {
    if r == AnnounceAwaitFingerOn && MayAnnounce(s) {
      AnnounceKeepsLoose(s, b);
    }
  }

  // ---------------------------------------------------------------- preservation: the handshake

  /** A handshake transfer that just completed: nothing is outstanding. */
  ghost predicate Between(s: Machine, b: Blobs) {
    && Common(s, b) && Gated(s) && Untouched(s)
    && s.pending == multiset{} && s.h.reports == [] && s.initStage < INIT_STAGES
    && 0 <= Since(s.h) <= INIT_STAGES
    && s.h.transfers <= HANDSHAKE_TRANSFERS + (if s.wakeRetryUsed then HANDSHAKE_TRANSFERS else 0)
    && (!s.wakeRetryUsed ==> s.h.mark == 0)
  }

  lemma DeadReaction(s: Machine, r: Reaction)
    requires !s.fw.live
    ensures React(s, r) == s
  {
  }

  lemma ReportedFailureKeepsInv(s: Machine, b: Blobs, r: Reaction)
    requires Between(s, b)
    ensures Inv(ActivateComplete(s, false, r), b)
  {
    var t := s.(h := s.h.(reports := s.h.reports + [false]), fw := s.fw.(live := s.fw.live && false, due := false));
    DeadReaction(t, r);
    assert t.h.reports == [false];
    assert ActivationFailed(t);
  }

  lemma WakeWaitKeepsInv(s: Machine, b: Blobs)
    requires Between(s, b) && !s.wakeRetryUsed
    ensures Inv(HandshakeError(s, NoDevice, Nothing), b)
  {
    var t := HandshakeError(s, NoDevice, Nothing);
    assert t.pending == multiset{WakeTimer};
    assert Handshaking(t);
  }

  /** After a failed handshake transfer: either the one wake wait, or the activation is reported as failed. */
  lemma HandshakeErrorKeepsInv(s: Machine, b: Blobs, result: UsbResult, r: Reaction)
    requires Between(s, b)
    ensures Inv(HandshakeError(s, result, r), b)
  {
    if s.wakeRetryUsed || !result.NoDevice? {
      ReportedFailureKeepsInv(s, b, r);
    } else {
      WakeWaitKeepsInv(s, b);
      assert HandshakeError(s, result, r) == HandshakeError(s, NoDevice, Nothing);
    }
  }

  lemma SendStageKeepsInv(s: Machine, b: Blobs)
    requires Between(s, b)
    requires Since(s.h) == s.initStage && |s.h.done| == 1 + 2 * s.initStage
    requires s.h.transfers <= |s.h.done| + (if s.wakeRetryUsed then HANDSHAKE_TRANSFERS else 0)
    ensures Inv(InitSendStage(s), b)
  {
    WriteKeepsWritten(s, b, InitRequest(s.initStage, s.config06, s.scan02), InitWrite);
    assert InitSendStage(s).pending == multiset{InitWrite};
  }

  /** A handshake operation is outstanding alone, and only during the handshake. */
  lemma HandshakeAlone(s: Machine, b: Blobs, op: Op)
    requires Inv(s, b) && op in s.pending && HandshakeOp(op)
    ensures Common(s, b) && Gated(s) && Handshaking(s) && s.pending == multiset{op}
  {
    assert !ActiveOp(op);
    assert !NotStarted(s) && !ActivationFailed(s) && !Active(s);
  }

  lemma PositionOf(s: Machine, op: Op)
    requires Handshaking(s) && s.pending == multiset{op}
    ensures op.Control? ==> s.initStage == 0 && Since(s.h) == 0 && s.h.done == []
    ensures op.InitWrite? ==> Since(s.h) == s.initStage + 1 && |s.h.done| == 1 + 2 * s.initStage
    ensures op.InitRead? ==> op.length == RESPONSE_LENGTHS[s.initStage]
                             && Since(s.h) == s.initStage + 1 && |s.h.done| == 2 + 2 * s.initStage
    ensures op.WakeTimer? ==> Since(s.h) == 0 && s.h.done == [] && s.wakeRetryUsed
    ensures HandshakeOp(op)
  {
    assert op in s.pending;
  }

  /** Whatever handshake transfer completes, the machine is between transfers. */
  lemma TakeHandshake(s: Machine, b: Blobs, op: Op)
    requires Common(s, b) && Gated(s) && Handshaking(s) && s.pending == multiset{op} && !op.WakeTimer?
    ensures Between(Take(s, op), b)
  {
    PositionOf(s, op);
    assert s.pending - multiset{op} == multiset{};
  }

  lemma ControlKeepsInv(s: Machine, b: Blobs, result: UsbResult, r: Reaction)
    requires Inv(s, b) && Control in s.pending
    ensures Inv(ControlCb(Take(s, Control), result, r), b)
  {
    HandshakeAlone(s, b, Control);
    PositionOf(s, Control);
    TakeHandshake(s, b, Control);
    var t := Take(s, Control);
    if !result.Done? {
      HandshakeErrorKeepsInv(t, b, result, r);
    } else if result.data != [0, 0] {
      ReportedFailureKeepsInv(t, b, r);
    } else {
      SendStageKeepsInv(Succeeded(t, Control), b);
    }
  }

  lemma ReadSubmittedKeepsInv(s: Machine, b: Blobs)
    requires Between(s, b) && Since(s.h) == s.initStage + 1 && |s.h.done| == 1 + 2 * s.initStage
    requires s.h.transfers <= 1 + |s.h.done| + (if s.wakeRetryUsed then HANDSHAKE_TRANSFERS else 0)
    ensures Inv(Submit(Succeeded(s, InitWrite), InitRead(RESPONSE_LENGTHS[s.initStage])), b)
  {
    var u := Submit(Succeeded(s, InitWrite), InitRead(RESPONSE_LENGTHS[s.initStage]));
    assert NthSuccess(|s.h.done|) == InitWrite;
    assert u.pending == multiset{InitRead(RESPONSE_LENGTHS[s.initStage % INIT_STAGES])};
    assert Handshaking(u);
  }

  lemma InitWriteKeepsInv(s: Machine, b: Blobs, result: UsbResult, r: Reaction)
    requires Inv(s, b) && InitWrite in s.pending
    ensures Inv(InitWriteCb(Take(s, InitWrite), result, r), b)
  {
    HandshakeAlone(s, b, InitWrite);
    PositionOf(s, InitWrite);
    TakeHandshake(s, b, InitWrite);
    if !result.Done? {
      HandshakeErrorKeepsInv(Take(s, InitWrite), b, result, r);
    } else {
      ReadSubmittedKeepsInv(Take(s, InitWrite), b);
    }
  }

  lemma StagePassed(s: Machine, b: Blobs, op: Op)
    requires Between(s, b) && op == InitRead(RESPONSE_LENGTHS[s.initStage])
    requires Since(s.h) == s.initStage + 1 && |s.h.done| == 2 + 2 * s.initStage
    ensures var u := Succeeded(s, op).(initStage := s.initStage + 1);
      && Common(u, b) && Gated(u) && Untouched(u) && u.pending == multiset{} && u.h.reports == []
      && Since(u.h) == u.initStage && |u.h.done| == 1 + 2 * u.initStage && u.h.transfers == s.h.transfers
      && (u.initStage < INIT_STAGES ==> Between(u, b))
  {
    assert |s.h.done| / 2 - 1 == s.initStage;
    assert NthSuccess(|s.h.done|) == op;
  }

  lemma BetweenTransfers(s: Machine, b: Blobs)
    requires Between(s, b)
    ensures s.h.transfers <= HANDSHAKE_TRANSFERS + (if s.wakeRetryUsed then HANDSHAKE_TRANSFERS else 0)
    ensures s.initStage < INIT_STAGES
  {
  }

  /** A read of the handshake that succeeded: the next stage, or the report. */
  lemma NextStage(s: Machine, length: nat, result: UsbResult, r: Reaction)
    requires result.Done?
    ensures var u := Succeeded(s, InitRead(length)).(initStage := s.initStage + 1);
      InitReadCb(s, length, result, r)
      == if u.initStage == INIT_STAGES then ActivateComplete(u, true, r) else InitSendStage(u)
  {
    hide DriverModel.ActivateComplete, DriverModel.InitSendStage, DriverModel.HandshakeError;
  }

  lemma StageReadKeepsInv(s: Machine, b: Blobs, op: Op, result: UsbResult, r: Reaction)
    requires Between(s, b) && op == InitRead(RESPONSE_LENGTHS[s.initStage]) && result.Done?
    requires Since(s.h) == s.initStage + 1 && |s.h.done| == 2 + 2 * s.initStage
    requires s.h.transfers <= 1 + |s.h.done| + (if s.wakeRetryUsed then HANDSHAKE_TRANSFERS else 0)
    ensures Inv(InitReadCb(s, op.length, result, r), b)
  {
    StagePassed(s, b, op);
    BetweenTransfers(s, b);
    NextStage(s, op.length, result, r);
    hide *;
    var u := Succeeded(s, op).(initStage := s.initStage + 1);
    assert u.initStage == s.initStage + 1;
    if u.initStage < INIT_STAGES {
      SendStageKeepsInv(u, b);
    } else {
      ReportedSuccessKeepsInv(u, b, r);
    }
  }

  lemma InitReadKeepsInv(s: Machine, b: Blobs, length: nat, result: UsbResult, r: Reaction)
    requires Inv(s, b) && InitRead(length) in s.pending
    ensures Inv(InitReadCb(Take(s, InitRead(length)), length, result, r), b)
  {
    var op := InitRead(length);
    HandshakeAlone(s, b, op);
    PositionOf(s, op);
    TakeHandshake(s, b, op);
    hide DriverModel.ActivateComplete, DriverModel.InitSendStage, DriverModel.HandshakeError;
    hide Inv, Between, Common, Gated, Untouched, HandshakePosition;
    if !result.Done? {
      HandshakeErrorKeepsInv(Take(s, op), b, result, r);
    } else {
      StageReadKeepsInv(Take(s, op), b, op, result, r);
    }
  }

  lemma ReportedSuccessKeepsInv(s: Machine, b: Blobs, r: Reaction)
    requires Common(s, b) && Gated(s) && Untouched(s) && s.pending == multiset{} && s.h.reports == []
    requires s.initStage == INIT_STAGES == Since(s.h) && |s.h.done| == HANDSHAKE_TRANSFERS
    requires s.h.transfers <= 2 * HANDSHAKE_TRANSFERS
    ensures Inv(ActivateComplete(s, true, r), b)
  {
    var t := s.(h := s.h.(reports := s.h.reports + [true]), fw := s.fw.(live := s.fw.live && true, due := true));
    assert t.h.reports == [true];
    assert Active(t);
    ReactKeepsLoose(t, b, r);
  }

  lemma TimerKeepsInv(s: Machine, b: Blobs)
    requires Inv(s, b) && WakeTimer in s.pending
    ensures Inv(WakeTimerCb(Take(s, WakeTimer)), b)
  {
    HandshakeAlone(s, b, WakeTimer);
    PositionOf(s, WakeTimer);
    assert s.pending - multiset{WakeTimer} == multiset{};
    assert WakeTimerCb(Take(s, WakeTimer)).pending == multiset{Control};
  }

  // ---------------------------------------------------------------- preservation: an activated device

  lemma TakeCounts(p: multiset<Op>, op: Op)
    requires op in p && ActiveOp(op)
    ensures var q := p - multiset{op};
      && Interrupts(q) == Interrupts(p) - (if op.Interrupt? then 1 else 0)
      && Rearms(q) == Rearms(p) - (if op.RearmWrite? || op.RearmRead? then 1 else 0)
      && q[CaptureRead] == p[CaptureRead] - (if op.CaptureRead? then 1 else 0)
      && (forall x :: q[x] <= p[x])
  {
  }

  lemma TakeKeepsShape(p: multiset<Op>, op: Op, due: bool, awaiting: bool, n: nat, rearmStage: nat, since: int)
    requires op in p && AllActive(p)
    requires ChainShape(p, awaiting, n) && WriteCount(p, due, awaiting, n, rearmStage, since)
    ensures var q := p - multiset{op};
      AllActive(q) && ChainShape(q, awaiting, n) && WriteCount(q, due, awaiting, n, rearmStage, since)
  {
    TakeCounts(p, op);
  }

  lemma TakeKeepsCommon(s: Machine, b: Blobs, op: Op)
    requires Common(s, b)
    ensures Common(Take(s, op), b)
  {
    hide Written, Successes, DriverModel.PatchMode;
  }

  lemma TakeKeepsActive(s: Machine, op: Op)
    requires Active(s) && ActiveOp(op)
    requires AllActive(s.pending - multiset{op}) && ChainShape(s.pending - multiset{op}, s.awaitingRelease, s.h.images)
    requires WriteCount(s.pending - multiset{op}, s.fw.due, s.awaitingRelease, s.h.images, s.rearmStage, Since(s.h))
    ensures Active(Take(s, op))
  {
    hide CaptureCommands, OnReports, ChainShape, WriteCount, AllActive, DriverModel.PatchMode;
  }

  /** Completing a transfer of an active device breaks nothing that is claimed of the rest. */
  lemma TakeKeepsLoose(s: Machine, b: Blobs, op: Op)
    requires Loose(s, b) && op in s.pending
    ensures Loose(Take(s, op), b)
  {
    assert ActiveOp(op);
    TakeKeepsShape(s.pending, op, s.fw.due, s.awaitingRelease, s.h.images, s.rearmStage, Since(s.h));
    TakeKeepsCommon(s, b, op);
    TakeKeepsActive(s, op);
    hide Common, Active;
  }

  lemma FailKeepsInv(s: Machine, b: Blobs, r: Reaction)
    requires Loose(s, b) && Gated(s)
    ensures Inv(FailSessionOrDeactivate(s, r), b)
  {
    ReactKeepsLoose(Say(s, SessionError), b, r);
  }

  function Released(s: Machine): Machine {
    Say(s.(awaitingRelease := false, h := s.h.(quiet := s.h.quiet + 1)), FingerStatus(false))
  }

  lemma ReleaseKeepsLoose(s: Machine, b: Blobs, timeout: nat)
    requires Loose(s, b) && Gated(s) && Interrupt(timeout) in s.pending && s.awaitingRelease
    ensures var u := Released(Take(s, Interrupt(timeout))); Loose(u, b) && Gated(u)
  {
    assert ActiveOp(Interrupt(timeout));
  }

  lemma RestartKeepsLoose(s: Machine, b: Blobs, timeout: nat)
    requires Loose(s, b) && Interrupt(timeout) in s.pending
    ensures Loose(StartInterrupt(Take(s, Interrupt(timeout))), b)
  {
    assert ActiveOp(Interrupt(timeout));
  }

  /** t is s after one more finger-on report and, perhaps, a deactivation. */
  predicate Reported(s: Machine, t: Machine) {
    && t == s.(fw := s.fw.(live := t.fw.live), h := s.h.(calls := t.h.calls))
    && (t.fw.live ==> s.fw.live) && OnReports(t.h.calls) == OnReports(s.h.calls) + 1
  }

  /** Finger-on can only be seen when no AWAIT_FINGER_ON is due, so the framework's reaction starts nothing. */
  lemma FingerOnReaction(s: Machine, r: Reaction)
    requires !s.fw.due && !s.deactivating
    ensures Reported(s, React(Say(s, FingerStatus(true)), r))
  {
  }

  lemma CaptureKeepsLoose(s: Machine, t: Machine, b: Blobs)
    requires Loose(s, b) && Chain(s.pending) == 0 && !s.awaitingRelease && !s.fw.due
    requires Since(s.h) == 3 * s.h.images + 7 && Reported(s, t)
    ensures Loose(StartCapture(t), b)
  {
    CycleWrites(s.h.images, b.config06, s.h.startScan);
    WriteKeepsWritten(Submit(t, CaptureRead), b, COMMAND_51, CaptureWrite);
  }

  lemma FingerOnKeepsInv(s: Machine, b: Blobs, timeout: nat, r: Reaction)
    requires Loose(s, b) && Gated(s) && Interrupt(timeout) in s.pending && !s.awaitingRelease
    ensures Inv(StartCapture(React(Say(Take(s, Interrupt(timeout)), FingerStatus(true)), r)), b)
  {
    hide DriverModel.React;
    assert ActiveOp(Interrupt(timeout));
    var t := Take(s, Interrupt(timeout));
    TakeKeepsLoose(s, b, Interrupt(timeout));
    TakeCounts(s.pending, Interrupt(timeout));
    FingerOnReaction(t, r);
    CaptureKeepsLoose(t, React(Say(t, FingerStatus(true)), r), b);
  }

  lemma ActiveTransfer(s: Machine, b: Blobs, op: Op)
    requires Inv(s, b) && op in s.pending && !HandshakeOp(op)
    ensures Loose(s, b) && Gated(s) && ActiveOp(op)
  {
    assert Handshaking(s) ==> op !in s.pending;
  }

  lemma InterruptKeepsInv(s: Machine, b: Blobs, timeout: nat, result: UsbResult, r: Reaction)
    requires Inv(s, b) && Interrupt(timeout) in s.pending
    ensures Inv(InterruptCb(Take(s, Interrupt(timeout)), result, r), b)
  {
    ActiveTransfer(s, b, Interrupt(timeout));
    TakeKeepsLoose(s, b, Interrupt(timeout));
    if result.Cancelled? {
    } else if s.awaitingRelease && result.TimedOut? {
      ReleaseKeepsLoose(s, b, timeout);
      ReactKeepsLoose(Released(Take(s, Interrupt(timeout))), b, r);
    } else if !result.Done? {
      FailKeepsInv(Take(s, Interrupt(timeout)), b, r);
    } else if FingerOnEvent(result.data) && !s.awaitingRelease {
      FingerOnKeepsInv(s, b, timeout, r);
    } else {
      RestartKeepsLoose(s, b, timeout);
    }
  }

  /** An image is being delivered: nothing that leads on is outstanding, and the gate is not yet closed. */
  ghost predicate Delivering(s: Machine, b: Blobs) {
    && Loose(s, b) && !s.awaitingRelease
    && Interrupts(s.pending) == 0 && s.pending[CaptureRead] == 0
    && s.h.images >= 1
    && (!s.fw.due && Rearms(s.pending) == 0 ==> Since(s.h) == 3 * s.h.images + 5)
  }

  lemma ReactKeepsDelivering(s: Machine, b: Blobs, r: Reaction)
    requires Delivering(s, b)
    ensures Delivering(React(s, r), b) && SameGate(s, React(s, r))
  {
    ReactKeepsLoose(s, b, r);
  }

  lemma StageKeepsDelivering(s: Machine, b: Blobs, reply: Reply)
    requires Delivering(s, b)
    ensures var t := CountStage(s, reply);
      && Delivering(t, b) && t.h == s.h && s.fw.enrollStage <= t.fw.enrollStage <= s.fw.enrollStage + 1
  {
  }

  lemma ProcessKeepsDelivering(s: Machine, b: Blobs, reply: Reply)
    requires Delivering(s, b) && StageLeft(s)
    ensures var t := ProcessPrint(s, reply);
      && Delivering(t, b) && StageOpen(t) && t.h.images == s.h.images && t.h.quiet == s.h.quiet
      && s.fw.enrollStage <= t.fw.enrollStage <= s.fw.enrollStage + 1
  {
    StageKeepsDelivering(s, b, reply);
    var t := CountStage(s, reply);
    ReactKeepsDelivering(t, b, Verdict(t, reply));
    assert ProcessPrint(s, reply) == React(t, Verdict(t, reply));
  }

  lemma ExtractKeepsDelivering(s: Machine, b: Blobs, early: Reaction)
    requires Delivering(s, b)
    ensures Delivering(ExtractPrint(s, early), b) && SameGate(s, ExtractPrint(s, early))
  {
    ReactKeepsDelivering(Say(s, FingerStatus(false)), b, early);
  }

  /** The machine in which `capture_read_cb` calls `image_captured`. */
  function Captured(s: Machine): Machine {
    var t := Take(s, CaptureRead);
    t.(captureCount := t.captureCount + 1)
  }

  lemma CountingDelivers(s: Machine, b: Blobs, raster: seq<byte>)
    requires Loose(s, b) && CaptureRead in s.pending
    ensures var t := CountImage(Captured(s), raster);
      && !t.fw.due && !s.awaitingRelease
      && Delivering(t, b) && Delivering(t.(fw := t.fw.(due := true)), b)
  {
    TakeKeepsLoose(s, b, CaptureRead);
  }

  lemma HandoverKeepsDelivering(s: Machine, b: Blobs, reply: Reply)
    requires Delivering(s, b) && StageLeft(s)
    ensures var t := Handover(s, reply);
      && Delivering(t, b) && StageOpen(t) && t.h.images == s.h.images && t.h.quiet == s.h.quiet
      && s.fw.enrollStage <= t.fw.enrollStage <= s.fw.enrollStage + 1
  {
    if s.fw.action == Capture {
      ReactKeepsDelivering(s, b, reply.last);
    } else if reply.extracted {
      ExtractKeepsDelivering(s, b, reply.early);
      ProcessKeepsDelivering(ExtractPrint(s, reply.early), b, reply);
    } else {
      ProcessKeepsDelivering(s, b, reply);
    }
  }

  lemma DeliveryKeepsDelivering(s: Machine, b: Blobs, raster: seq<byte>, reply: Reply)
    requires Loose(s, b) && Gated(s) && CaptureRead in s.pending
    ensures var u := DeliverImage(Captured(s), raster, reply);
      && Delivering(u, b) && StageOpen(u) && u.fw.enrollStage <= u.h.images <= u.h.quiet + 1
      && !u.deactivating
  {
    CountingDelivers(s, b, raster);
    var t := CountImage(Captured(s), raster);
    var v := t.(fw := t.fw.(due := true));
    if t.fw.live {
      HandoverKeepsDelivering(v, b, reply);
      assert DeliverImage(Captured(s), raster, reply) == Handover(v, reply);
    } else {
      assert DeliverImage(Captured(s), raster, reply) == t;
    }
  }

  lemma ClosingGateKeepsInv(s: Machine, b: Blobs)
    requires Delivering(s, b) && StageOpen(s) && s.fw.enrollStage <= s.h.images <= s.h.quiet + 1
    ensures Inv(StartInterrupt(s.(awaitingRelease := true)), b)
  {
  }

  lemma DeliveryKeepsInv(s: Machine, b: Blobs, raster: seq<byte>, reply: Reply)
    requires Loose(s, b) && Gated(s) && CaptureRead in s.pending
    ensures Inv(FinishCapture(Take(s, CaptureRead), raster, reply), b)
  {
    hide DriverModel.DeliverImage;
    DeliveryKeepsDelivering(s, b, raster, reply);
    CloseGate(DeliverImage(Captured(s), raster, reply), FinishCapture(Take(s, CaptureRead), raster, reply), b);
  }

  lemma CloseGate(u: Machine, t: Machine, b: Blobs)
    requires Delivering(u, b) && StageOpen(u) && u.fw.enrollStage <= u.h.images <= u.h.quiet + 1
    requires t == StartInterrupt(u.(awaitingRelease := true))
    ensures Inv(t, b)
  {
    ClosingGateKeepsInv(u, b);
  }

  lemma BadFrameKeepsInv(s: Machine, b: Blobs, result: UsbResult, reply: Reply)
    requires Loose(s, b) && Gated(s) && CaptureRead in s.pending
    requires !result.Done? || !ImageFrame.DriverAccepts(result.data)
    ensures Inv(CaptureReadCb(Take(s, CaptureRead), result, reply), b)
  {
    TakeKeepsLoose(s, b, CaptureRead);
    FailKeepsInv(Take(s, CaptureRead), b, reply.last);
  }

  lemma CaptureReadKeepsInv(s: Machine, b: Blobs, result: UsbResult, reply: Reply)
    requires Inv(s, b) && CaptureRead in s.pending
    ensures Inv(CaptureReadCb(Take(s, CaptureRead), result, reply), b)
  {
    ActiveTransfer(s, b, CaptureRead);
    if !result.Done? || !ImageFrame.DriverAccepts(result.data) {
      BadFrameKeepsInv(s, b, result, reply);
    } else {
      DeliveryKeepsInv(s, b, RasterOf(result.data), reply);
    }
  }

  lemma RearmWrittenKeepsLoose(s: Machine, b: Blobs)
    requires Loose(s, b) && RearmWrite in s.pending
    ensures Loose(Submit(Take(s, RearmWrite), RearmRead(if s.rearmStage == 0 then 2 else SCAN_RESPONSE_LENGTH)), b)
  {
    TakeCounts(s.pending, RearmWrite);
  }

  lemma RearmWriteKeepsInv(s: Machine, b: Blobs, result: UsbResult, r: Reaction)
    requires Inv(s, b) && RearmWrite in s.pending
    ensures Inv(RearmWriteCb(Take(s, RearmWrite), result, r), b)
  {
    ActiveTransfer(s, b, RearmWrite);
    if !result.Done? {
      TakeKeepsLoose(s, b, RearmWrite);
      FailKeepsInv(Take(s, RearmWrite), b, r);
    } else {
      RearmWrittenKeepsLoose(s, b);
    }
  }

  lemma SecondRearmShape(p: multiset<Op>, length: nat, due: bool, awaiting: bool, n: nat, since: int)
    requires RearmRead(length) in p && AllActive(p)
    requires ChainShape(p, awaiting, n) && WriteCount(p, due, awaiting, n, 0, since)
    ensures var q := p - multiset{RearmRead(length)} + multiset{RearmWrite};
      AllActive(q) && ChainShape(q, awaiting, n) && WriteCount(q, due, awaiting, n, 1, since + 1)
    ensures n >= 1 && since == 3 * n + 6
  {
    assert ActiveOp(RearmRead(length));
    TakeCounts(p, RearmRead(length));
  }

  lemma PatchTwice(scan: Message)
    ensures PatchMode(PatchMode(scan)) == PatchMode(scan)
  {
  }

  /** The machine after the second re-arm message was written. */
  function SecondRearmWrite(s: Machine, length: nat): Machine {
    var t := Take(s, RearmRead(length)).(rearmStage := 1);
    Write(t.(scan02 := PatchMode(t.scan02)), PatchMode(t.scan02), RearmWrite)
  }

  lemma SecondRearmCommon(s: Machine, b: Blobs, length: nat)
    requires Common(s, b) && s.h.images >= 1 && Since(s.h) == 3 * s.h.images + 6
    requires PatchMode(s.scan02) == PatchMode(s.h.startScan)
    ensures Common(SecondRearmWrite(s, length), b)
  {
    hide DriverModel.PatchMode;
    CycleWrites(s.h.images - 1, b.config06, s.h.startScan);
    var t := Take(s, RearmRead(length)).(rearmStage := 1);
    WriteKeepsWritten(t.(scan02 := PatchMode(s.scan02)), b, PatchMode(s.scan02), RearmWrite);
  }

  lemma SecondRearmActive(s: Machine, length: nat)
    requires Active(s) && RearmRead(length) in s.pending && s.rearmStage == 0
    requires s.h.mark <= |s.h.out| && PatchMode(s.scan02) == PatchMode(s.h.startScan)
    ensures Active(SecondRearmWrite(s, length))
  {
    SecondRearmShape(s.pending, length, s.fw.due, s.awaitingRelease, s.h.images, Since(s.h));
    CycleWrites(s.h.images - 1, [], []);
    hide CaptureCommands, OnReports, ChainShape, WriteCount, AllActive, DriverModel.PatchMode;
  }

  lemma SecondRearmWriteKeepsLoose(s: Machine, b: Blobs, length: nat)
    requires Loose(s, b) && RearmRead(length) in s.pending && s.rearmStage == 0
    ensures Loose(RearmSendStage(Take(s, RearmRead(length)).(rearmStage := 1)), b)
  {
    PatchTwice(s.h.startScan);
    SecondRearmShape(s.pending, length, s.fw.due, s.awaitingRelease, s.h.images, Since(s.h));
    SecondRearmCommon(s, b, length);
    SecondRearmActive(s, length);
    hide Common, Active;
    assert RearmSendStage(Take(s, RearmRead(length)).(rearmStage := 1)) == SecondRearmWrite(s, length);
  }

  lemma RearmedKeepsLoose(s: Machine, b: Blobs, length: nat)
    requires Loose(s, b) && RearmRead(length) in s.pending && s.rearmStage == 1
    ensures Loose(StartInterrupt(Take(s, RearmRead(length)).(rearmStage := 2)), b)
  {
    assert ActiveOp(RearmRead(length));
    TakeCounts(s.pending, RearmRead(length));
  }

  lemma RearmStageInRange(s: Machine, b: Blobs, length: nat)
    requires Loose(s, b) && RearmRead(length) in s.pending
    ensures s.rearmStage < 2
  {
    assert ActiveOp(RearmRead(length));
  }

  lemma RearmReadKeepsInv(s: Machine, b: Blobs, length: nat, result: UsbResult, r: Reaction)
    requires Inv(s, b) && RearmRead(length) in s.pending
    ensures Inv(RearmReadCb(Take(s, RearmRead(length)), result, r), b)
  {
    ActiveTransfer(s, b, RearmRead(length));
    RearmStageInRange(s, b, length);
    var t := Take(s, RearmRead(length));
    if !result.Done? {
      TakeKeepsLoose(s, b, RearmRead(length));
      FailKeepsInv(t, b, r);
      hide Loose, Inv, DriverModel.FailSessionOrDeactivate;
    } else {
      RearmKeepsGate(s, length, result, r);
      NextRearmKeepsLoose(s, b, length, result, r);
      LooseInv(RearmReadCb(t, result, r), b);
      hide Loose, Gated, Inv, DriverModel.RearmReadCb, DriverModel.Take;
    }
  }

  lemma NextRearmKeepsLoose(s: Machine, b: Blobs, length: nat, result: UsbResult, r: Reaction)
    requires Loose(s, b) && RearmRead(length) in s.pending && s.rearmStage < 2 && result.Done?
    ensures Loose(RearmReadCb(Take(s, RearmRead(length)), result, r), b)
  {
    var t := Take(s, RearmRead(length));
    if s.rearmStage == 0 {
      SecondRearmWriteKeepsLoose(s, b, length);
      hide Loose, DriverModel.RearmSendStage;
      assert RearmReadCb(t, result, r) == RearmSendStage(t.(rearmStage := 1));
    } else {
      RearmedKeepsLoose(s, b, length);
      hide Loose, DriverModel.StartInterrupt;
      assert RearmReadCb(t, result, r) == StartInterrupt(t.(rearmStage := 2));
    }
  }

  lemma RearmKeepsGate(s: Machine, length: nat, result: UsbResult, r: Reaction)
    requires Gated(s) && result.Done?
    ensures Gated(RearmReadCb(Take(s, RearmRead(length)), result, r))
  {
    hide DriverModel.Config39, DriverModel.PatchMode, DriverModel.FailSessionOrDeactivate;
  }

  lemma LooseInv(s: Machine, b: Blobs)
    requires Loose(s, b) && Gated(s)
    ensures Inv(s, b)
  {
    hide Common, Gated;
  }

  lemma CaptureWriteKeepsInv(s: Machine, b: Blobs, result: UsbResult, r: Reaction)
    requires Inv(s, b) && CaptureWrite in s.pending
    ensures Inv(CaptureWriteCb(Take(s, CaptureWrite), result, r), b)
  {
    ActiveTransfer(s, b, CaptureWrite);
    TakeKeepsLoose(s, b, CaptureWrite);
    if !result.Done? {
      FailKeepsInv(Take(s, CaptureWrite), b, r);
    }
  }

  // ---------------------------------------------------------------- every event

  lemma ActivateKeepsInv(s: Machine, b: Blobs, action: Action, stages: nat)
    requires Inv(s, b) && s.pending == multiset{}
    ensures Inv(DevActivate(s, action, stages), b)
  {
    var t := DevActivate(s, action, stages);
    assert t.pending == multiset{Control};
    assert s.scan02 == b.scan || s.scan02 == PatchMode(b.scan);
    assert Handshaking(t);
  }

  lemma DeactivateKeepsActive(s: Machine)
    requires Active(s)
    ensures Active(Say(s.(fw := s.fw.(live := false)), DeactivateComplete))
  {
    assert OnReports(s.h.calls + [DeactivateComplete]) == OnReports(s.h.calls);
    hide OnReports, CaptureCommands, ChainShape, WriteCount, AllActive;
  }

  lemma DeactivateKeepsHandshake(s: Machine)
    ensures var t := Say(s.(fw := s.fw.(live := false)), DeactivateComplete);
      && (Handshaking(s) ==> Handshaking(t))
      && (NotStarted(s) ==> NotStarted(t)) && (ActivationFailed(s) ==> ActivationFailed(t))
  {
    assert OnReports(s.h.calls + [DeactivateComplete]) == OnReports(s.h.calls);
    hide OnReports;
  }

  lemma DeactivateKeepsInv(s: Machine, b: Blobs)
    requires Inv(s, b)
    ensures Inv(FrameworkDeactivate(s), b)
  {
    if Active(s) {
      DeactivateKeepsActive(s);
    }
    DeactivateKeepsHandshake(s);
    hide Active, Handshaking, NotStarted, ActivationFailed;
    assert FrameworkDeactivate(s) == Say(s.(fw := s.fw.(live := false)), DeactivateComplete);
  }

  lemma CompletionKeepsInv(s: Machine, b: Blobs, op: Op, result: UsbResult, reply: Reply)
    requires Inv(s, b) && op in s.pending && !op.WakeTimer?
    ensures Inv(Dispatch(Take(s, op), op, result, reply), b)
  {
    hide DriverModel.ControlCb, DriverModel.InitWriteCb, DriverModel.InitReadCb, DriverModel.InterruptCb;
    hide DriverModel.CaptureReadCb, DriverModel.CaptureWriteCb, DriverModel.RearmWriteCb, DriverModel.RearmReadCb;
    hide DriverModel.Take, Inv;
    match op
    case Control => ControlKeepsInv(s, b, result, reply.last);
    case InitWrite => InitWriteKeepsInv(s, b, result, reply.last);
    case InitRead(length) => InitReadKeepsInv(s, b, length, result, reply.last);
    case Interrupt(timeout) => InterruptKeepsInv(s, b, timeout, result, reply.last);
    case CaptureRead => CaptureReadKeepsInv(s, b, result, reply);
    case CaptureWrite => CaptureWriteKeepsInv(s, b, result, reply.last);
    case RearmWrite => RearmWriteKeepsInv(s, b, result, reply.last);
    case RearmRead(length) => RearmReadKeepsInv(s, b, length, result, reply.last);
  }

  lemma AnnounceKeepsInv(s: Machine, b: Blobs)
    requires Inv(s, b) && MayAnnounce(s)
    ensures Inv(Announce(s), b)
  {
    AnnounceKeepsLoose(s, b);
  }

  lemma StepKeepsInv(s: Machine, b: Blobs, e: Event)
    requires Inv(s, b) && Enabled(s, e)
    ensures Inv(Step(s, e), b)
  {
    match e
    case Activate(action, stages) => ActivateKeepsInv(s, b, action, stages);
    case Completed(op, result, reply) => CompletionKeepsInv(s, b, op, result, reply);
    case TimerFired => TimerKeepsInv(s, b);
    case Notified(state) => if state == AwaitFingerOn { AnnounceKeepsInv(s, b); }
    case Deactivated => DeactivateKeepsInv(s, b);
  }

  /** Every state of every run the contract allows satisfies the invariant. */
  lemma {:induction false} RunKeepsInv(s: Machine, b: Blobs, es: seq<Event>)
    requires Inv(s, b) && Legal(s, es)
    ensures Inv(Run(s, es), b)
    decreases |es|
  {
    if es == [] {
    } else {
      StepKeepsInv(s, b, es[0]);
      RunKeepsInv(Step(s, es[0]), b, es[1..]);
    }
  }
}
