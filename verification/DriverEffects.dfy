/** What each event does to what can be seen from outside: the messages written, the transfers started, the calls
    into the framework. Everything is spelled out in bytes, lengths and fields, independently of the callbacks. */
module DriverEffects {
  import opened Bytes
  import opened DriverModel
  import opened DriverInvariant
  import opened DriverTheorems
  import ImageFrame
  import Raster

  // ---------------------------------------------------------------- the messages

  /** The 0x39 message: 125 bytes, zero except for these. */
  const CONFIG_39_FIELDS: map<int, byte> := map[
    0 := 0x39, 1 := 0x20, 2 := 0xbf, 3 := 0x02, 5 := 0xff, 6 := 0xff, 9 := 0x01, 10 := 0xd1,
    12 := 0x20, 17 := 0xd1, 18 := 0xd1, 32 := 0x20, 45 := 0xff, 46 := 0xff, 50 := 0xd1, 52 := 0x20, 72 := 0x20]

  lemma Config39Bytes()
    ensures |Config39()| == 125
    ensures forall i :: 0 <= i < 125 ==> Config39()[i] == if i in CONFIG_39_FIELDS then CONFIG_39_FIELDS[i] else 0
  {
  }

  /** The messages of an undisturbed activation, one by one: the seven requests, then 51, the 0x39 message and
      scan_02 with 0x23 at offset 1749, over and over. */
  lemma ProtocolMessages(n: nat, config06: Message, start: Message)
    requires |start| == 18869
    ensures |Protocol(n, config06, start)| == n
    ensures n >= 7 ==> Protocol(n, config06, start)[..7]
                       == [[0x1a], [0x01], [0x19], [0x75], Config39(), config06, start]
    ensures forall i :: 7 <= i < n ==>
              Protocol(n, config06, start)[i] == if i % 3 == 1 then [0x51, 0x00, 0x20, 0x00, 0x00]
                                                 else if i % 3 == 2 then Config39()
                                                 else start[1749 := 0x23]
  {
    hide DriverModel.Config39;
    forall i | 7 <= i < n
      ensures (i - 7) % 3 == (if i % 3 == 1 then 0 else if i % 3 == 2 then 1 else 2)
    {
    }
  }

  // ---------------------------------------------------------------- the handshake

  /** An activation that starts: the control transfer, and nothing else. */
  lemma ActivationBegins(b: Blobs, s: Machine, action: Action, stages: nat)
    requires Reachable(b, s) && Enabled(s, Activate(action, stages))
    ensures var t := Step(s, Activate(action, stages));
      && t.pending == multiset{Control} && t.h.out == [] && t.h.reports == [] && t.h.calls == []
      && t.scan02 == s.scan02 && t.config06 == s.config06 && t.fw == Framework(true, false, action, stages, 0)
      && !t.deactivating && !t.awaitingRelease && t.captureCount == 0 && t.initStage == 0 && !t.wakeRetryUsed
  {
  }

  lemma BetweenAnswers(b: Blobs, s: Machine, op: Op)
    requires Reachable(b, s) && op in s.pending && HandshakeOp(op) && op != WakeTimer
    ensures Between(Take(s, op), b) && s.pending == multiset{op} && Take(s, op).pending == multiset{}
    ensures s.h.reports == [] && Handshaking(s) && Since(s.h) >= 0
    ensures s.scan02 == s.h.startScan && s.config06 == b.config06
    ensures s.wakeRetryUsed <==> s.h.waits == 1
    ensures s.h.waits <= 1
  {
    hide Reachable;
    ReachableInv(b, s);
    HandshakeAlone(s, b, op);
    PositionOf(s, op);
    TakeHandshake(s, b, op);
  }

  lemma FailureReported(s: Machine, r: Reaction)
    ensures var t := ActivateComplete(s, false, r);
      && t.h.reports == s.h.reports + [false] && t.pending == s.pending && t.h.out == s.h.out && !t.fw.live
      && t.h.calls == s.h.calls
  {
    DeadReaction(s.(h := s.h.(reports := s.h.reports + [false]),
                    fw := s.fw.(live := s.fw.live && false, due := false)), r);
  }

  /** A handshake transfer that fails: the first disconnect of an activation starts the wake wait, and anything else
      ends the activation with one failure report. Nothing is written. */
  lemma HandshakeFailure(b: Blobs, s: Machine, op: Op, result: UsbResult, reply: Reply)
    requires Reachable(b, s) && op in s.pending && HandshakeOp(op) && op != WakeTimer && !result.Done?
    ensures var t := Dispatch(Take(s, op), op, result, reply);
      && t.h.out == s.h.out && t.h.calls == s.h.calls
      && (if result == NoDevice && s.h.waits == 0 then t.pending == multiset{WakeTimer} && t.h.reports == []
          else t.pending == multiset{} && t.h.reports == [false] && !t.fw.live)
  {
    hide Reachable;
    BetweenAnswers(b, s, op);
    FailureReported(Take(s, op), reply.last);
    hide DriverModel.ActivateComplete, Between, Handshaking;
  }

  /** The control response: only two zero bytes let the handshake begin. */
  lemma ControlAnswer(b: Blobs, s: Machine, data: Message, reply: Reply)
    requires Reachable(b, s) && Control in s.pending
    ensures var t := Step(s, Completed(Control, Done(data), reply));
      && t.h.calls == s.h.calls
      && (if data == [0, 0] then
            t.h.out == s.h.out + [[0x1a]] && t.pending == multiset{InitWrite} && t.h.reports == []
          else t.h.out == s.h.out && t.pending == multiset{} && t.h.reports == [false] && !t.fw.live)
  {
    hide Reachable;
    BetweenAnswers(b, s, Control);
    AtControl(b, s);
    FailureReported(Take(s, Control), reply.last);
    hide DriverModel.ActivateComplete, Between, Handshaking;
  }

  lemma AtControl(b: Blobs, s: Machine)
    requires Reachable(b, s) && Control in s.pending
    ensures s.initStage == 0
  {
    hide Reachable;
    ReachableInv(b, s);
    HandshakeAlone(s, b, Control);
    PositionOf(s, Control);
  }

  lemma InHandshake(b: Blobs, s: Machine, op: Op)
    requires Reachable(b, s) && op in s.pending && (op.InitWrite? || op.InitRead?)
    ensures s.initStage < 7
    ensures op.InitRead? ==> op.length == [2, 38, 68, 10, 2, 2, 2154][s.initStage]
  {
    hide Reachable;
    ReachableInv(b, s);
    HandshakeAlone(s, b, op);
    PositionOf(s, op);
  }

  /** A request that was written is followed by one read of the length that belongs to it. */
  lemma RequestWritten(b: Blobs, s: Machine, data: Message, reply: Reply)
    requires Reachable(b, s) && InitWrite in s.pending
    ensures s.initStage < 7
    ensures var t := Step(s, Completed(InitWrite, Done(data), reply));
      && t.h.out == s.h.out && t.h.calls == s.h.calls && t.h.reports == [] && t.initStage == s.initStage
      && t.pending == multiset{InitRead([2, 38, 68, 10, 2, 2, 2154][s.initStage])}
  {
    hide Reachable;
    BetweenAnswers(b, s, InitWrite);
    InHandshake(b, s, InitWrite);
    hide DriverModel.HandshakeError, Between, Handshaking;
  }

  /** A read that succeeded is followed by the next request; the seventh by the one report of success. */
  lemma ReplyRead(b: Blobs, s: Machine, length: nat, data: Message, reply: Reply)
    requires Reachable(b, s) && InitRead(length) in s.pending && |data| == length
    ensures s.initStage < 7
    ensures var t := Step(s, Completed(InitRead(length), Done(data), reply));
      && s.h.calls <= t.h.calls
      && (if s.initStage == 6 then
            && t.h.reports == [true]
            && (reply.last != AnnounceAwaitFingerOn ==> t.h.out == s.h.out && t.pending == multiset{})
          else
            && t.h.out == s.h.out + [[[0x01], [0x19], [0x75], Config39(), b.config06, s.h.startScan][s.initStage]]
            && t.pending == multiset{InitWrite} && t.h.reports == [] && t.initStage == s.initStage + 1)
  {
    hide Reachable;
    var op := InitRead(length);
    BetweenAnswers(b, s, op);
    InHandshake(b, s, op);
    hide DriverModel.HandshakeError, Between, DriverModel.Config39;
    if s.initStage == 6 {
      SuccessReported(Succeeded(Take(s, op), op).(initStage := 7), reply.last);
      hide DriverModel.ActivateComplete;
    } else {
      hide DriverModel.ActivateComplete;
    }
  }

  lemma SuccessReported(s: Machine, r: Reaction)
    ensures var t := ActivateComplete(s, true, r);
      && t.h.reports == s.h.reports + [true] && s.h.calls <= t.h.calls
      && (r != AnnounceAwaitFingerOn ==> t.h.out == s.h.out && t.pending == s.pending)
  {
    var u := s.(h := s.h.(reports := s.h.reports + [true]), fw := s.fw.(live := s.fw.live && true, due := true));
    ReactionsReportNothing(u, r);
    CallsGrow(u, r);
    if r != AnnounceAwaitFingerOn {
      SilentReaction(u, r);
    }
    hide DriverModel.React;
  }

  lemma CallsGrow(s: Machine, r: Reaction)
    ensures s.h.calls <= React(s, r).h.calls
  {
    hide DriverModel.Config39, DriverModel.PatchMode;
  }

  /** The wake timer starts the control transfer again. */
  lemma TimerRestarts(b: Blobs, s: Machine)
    requires Reachable(b, s) && WakeTimer in s.pending
    ensures var t := Step(s, TimerFired);
      && t.pending == multiset{Control} && t.h.out == s.h.out && t.h.calls == s.h.calls && t.h.reports == []
      && t.initStage == 0
  {
    hide Reachable;
    ReachableInv(b, s);
    HandshakeAlone(s, b, WakeTimer);
    PositionOf(s, WakeTimer);
    assert s.pending - multiset{WakeTimer} == multiset{};
  }

  // ---------------------------------------------------------------- success needs a valid control response

  predicate AnswersControl(e: Event) {
    e.Completed? && e.op == Control
  }

  /** The n-th event is the last control response of the last activation, and it is two zero bytes. */
  predicate AnsweredAt(es: seq<Event>, n: int) {
    && 0 <= n < |es| && AnswersControl(es[n]) && es[n].result == Done([0, 0])
    && forall m :: n < m < |es| ==> !es[m].Activate? && !AnswersControl(es[m])
  }

  lemma StillAnswered(es: seq<Event>, e: Event, n: int)
    requires AnsweredAt(es, n) && !e.Activate? && !AnswersControl(e)
    ensures AnsweredAt(es + [e], n)
  {
  }

  lemma NowAnswered(es: seq<Event>, e: Event)
    requires AnswersControl(e) && e.result == Done([0, 0])
    ensures AnsweredAt(es + [e], |es|)
  {
  }

  lemma {:induction false} LegalFront(s: Machine, es: seq<Event>)
    requires Legal(s, es) && es != []
    ensures var front, last := es[..|es| - 1], es[|es| - 1];
      Legal(s, front) && Enabled(Run(s, front), last) && Run(s, es) == Step(Run(s, front), last)
    decreases |es|
  {
    hide DriverModel.Step, DriverModel.Enabled;
    var front, last := es[..|es| - 1], es[|es| - 1];
    if |es| == 1 {
      assert es[1..] == [] && front == [];
    } else {
      LegalFront(Step(s, es[0]), es[1..]);
      assert es[1..][..|es| - 2] == front[1..];
    }
  }

  /** Only a valid control response begins the list of successes. */
  lemma FirstSuccess(b: Blobs, s: Machine, e: Event)
    requires Reachable(b, s) && Enabled(s, e) && Step(s, e).h.done != []
    ensures !e.Activate?
    ensures if AnswersControl(e) then e.result == Done([0, 0]) else s.h.done != []
  {
    hide Reachable;
    ReachableInv(b, s);
    if e.Completed? && HandshakeOp(e.op) {
      HandshakeAlone(s, b, e.op);
      PositionOf(s, e.op);
      hide Inv, Handshaking, Common, Gated;
      ListAfter(s, e);
    } else if e.Completed? {
      hide DriverModel.Step;
      DoneUnchanged(s, e);
    }
  }

  lemma ReportKeepsDone(s: Machine, ok: bool, r: Reaction)
    ensures ActivateComplete(s, ok, r).h.done == s.h.done
  {
    ReactUnheard(s.(h := s.h.(reports := s.h.reports + [ok]), fw := s.fw.(live := s.fw.live && ok, due := ok)), r);
    hide DriverModel.React;
  }

  lemma ListAfter(s: Machine, e: Event)
    requires e.Completed? && HandshakeOp(e.op) && e.op != WakeTimer && Enabled(s, e) && Step(s, e).h.done != []
    requires e.op == Control ==> s.h.done == []
    requires e.op != Control ==> s.h.done != []
    ensures if AnswersControl(e) then e.result == Done([0, 0]) else s.h.done != []
  {
    ReportKeepsDone(Take(s, e.op), false, e.reply.last);
    hide DriverModel.ActivateComplete, DriverModel.InitSendStage;
  }

  /** No image was delivered and no handshake transfer succeeded between s and t. */
  ghost predicate Unheard(s: Machine, t: Machine) {
    t.h.done == s.h.done && forall r :: Count(t, ImageCaptured(r)) == Count(s, ImageCaptured(r))
  }

  lemma ReactUnheard(s: Machine, r: Reaction)
    ensures Unheard(s, React(s, r))
  {
    hide DriverModel.Config39, DriverModel.PatchMode;
  }

  lemma SayUnheard(s: Machine, c: Call)
    requires !c.ImageCaptured?
    ensures Unheard(s, Say(s, c))
  {
  }

  lemma UnheardTwice(s: Machine, t: Machine, u: Machine)
    requires Unheard(s, t) && Unheard(t, u)
    ensures Unheard(s, u)
  {
    hide Count;
  }

  lemma SaidUnheard(s: Machine, c: Call, r: Reaction)
    requires !c.ImageCaptured?
    ensures Unheard(s, React(Say(s, c), r))
  {
    SayUnheard(s, c);
    ReactUnheard(Say(s, c), r);
    hide Unheard;
    UnheardTwice(s, Say(s, c), React(Say(s, c), r));
  }

  lemma HandoverUnheard(s: Machine, reply: Reply)
    ensures Unheard(s, Handover(s, reply))
  {
    var w := if reply.extracted then ExtractPrint(s, reply.early) else s;
    var x := CountStage(w, reply);
    ReactUnheard(s, reply.last);
    SaidUnheard(s, FingerStatus(false), reply.early);
    assert Unheard(s, w) && Unheard(w, x);
    ReactUnheard(x, Verdict(x, reply));
    hide Unheard, DriverModel.React;
    UnheardTwice(s, w, x);
    UnheardTwice(s, x, React(x, Verdict(x, reply)));
  }

  lemma FailureUnheard(s: Machine, r: Reaction)
    ensures Unheard(s, FailSessionOrDeactivate(s, r))
  {
    SaidUnheard(s, SessionError, r);
    hide DriverModel.React;
  }

  lemma SubmittingUnheard(s: Machine)
    ensures Unheard(s, CompleteDeactivation(s)) && Unheard(s, StartInterrupt(s)) && Unheard(s, StartCapture(s))
  {
    SayUnheard(s.(deactivating := false), DeactivateComplete);
  }

  lemma FingerOnUnheard(s: Machine, r: Reaction)
    ensures Unheard(s, StartCapture(React(Say(s, FingerStatus(true)), r)))
  {
    var reported := React(Say(s, FingerStatus(true)), r);
    SaidUnheard(s, FingerStatus(true), r);
    SubmittingUnheard(reported);
    hide Unheard;
    UnheardTwice(s, reported, StartCapture(reported));
  }

  lemma ReleaseUnheard(s: Machine, r: Reaction)
    ensures Unheard(s, React(Released(s), r))
  {
    assert Unheard(s, Released(s)) by { QuietUnheard(s); }
    ReactUnheard(Released(s), r);
    hide Unheard;
    UnheardTwice(s, Released(s), React(Released(s), r));
  }

  lemma QuietUnheard(s: Machine)
    ensures Unheard(s, Released(s))
  {
  }

  lemma InterruptUnheard(s: Machine, result: UsbResult, r: Reaction)
    ensures Unheard(s, InterruptCb(s, result, r))
  {
    hide *;
    FailureUnheard(s, r);
    SubmittingUnheard(s);
    FingerOnUnheard(s, r);
    ReleaseUnheard(s, r);
    InterruptCases(s, result, r);
  }

  /** The five ways an interrupt can end. */
  lemma InterruptCases(s: Machine, result: UsbResult, r: Reaction)
    ensures var t := InterruptCb(s, result, r);
      || t == CompleteDeactivation(s) || t == FailSessionOrDeactivate(s, r) || t == StartInterrupt(s)
      || t == StartCapture(React(Say(s, FingerStatus(true)), r)) || t == React(Released(s), r)
  {
    hide DriverModel.CompleteDeactivation, DriverModel.FailSessionOrDeactivate, DriverModel.StartInterrupt;
    hide DriverModel.StartCapture, DriverModel.React;
  }

  lemma TransferUnheard(s: Machine, op: Op, result: UsbResult, reply: Reply)
    requires op.CaptureWrite? || op.RearmWrite? || op.RearmRead?
    ensures Unheard(s, Dispatch(s, op, result, reply))
  {
    FailureUnheard(s, reply.last);
    hide DriverModel.FailSessionOrDeactivate, DriverModel.Config39, DriverModel.PatchMode;
  }

  lemma UnheardAfter(s: Machine, op: Op, result: UsbResult, reply: Reply)
    requires !HandshakeOp(op)
    requires op == CaptureRead ==> !result.Done? || !ImageFrame.DriverAccepts(result.data)
    ensures Unheard(s, Dispatch(s, op, result, reply))
  {
    hide Unheard, ImageFrame.DriverAccepts;
    match op
    case CaptureRead =>
      FailureUnheard(s, reply.last);
      hide DriverModel.FailSessionOrDeactivate, DriverModel.FinishCapture;
    case Interrupt(_) =>
      InterruptUnheard(s, result, reply.last);
      hide DriverModel.InterruptCb;
    case _ =>
      TransferUnheard(s, op, result, reply);
      hide DriverModel.Dispatch;
  }

  // ---------------------------------------------------------------- the image that is delivered

  /** The pixels of one image, row by row, in terms of the bytes of the frame: 18 bytes of header, then 56 columns
      of 144 bytes. */
  predicate ShowsFrame(raster: seq<byte>, data: Message) {
    && |raster| == 56 * 144 && |data| == 8082
    && forall x: nat, y: nat :: x < 56 && y < 144 ==> raster[y * 56 + x] == data[18 + x * 144 + y]
  }

  lemma RasterShowsFrame(data: Message)
    requires ImageFrame.DriverAccepts(data)
    ensures ShowsFrame(RasterOf(data), data)
  {
    forall x: nat, y: nat | x < 56 && y < 144
      ensures RasterOf(data)[y * 56 + x] == data[18 + x * 144 + y]
    {
      Raster.RasterAt(data[18..], 56, 144, x, y);
    }
  }

  /** One image more was delivered, this one. */
  ghost predicate Delivered(s: Machine, t: Machine, raster: seq<byte>) {
    && t.h.done == s.h.done
    && forall r :: Count(t, ImageCaptured(r)) == Count(s, ImageCaptured(r)) + (if r == raster then 1 else 0)
  }

  lemma DeliveredThen(s: Machine, t: Machine, u: Machine, raster: seq<byte>)
    requires Delivered(s, t, raster) && Unheard(t, u)
    ensures Delivered(s, u, raster)
  {
    hide Count;
  }

  lemma Counted(s: Machine, raster: seq<byte>)
    ensures var t := CountImage(s.(captureCount := s.captureCount + 1), raster);
      Delivered(s, t, raster) && Delivered(s, t.(fw := t.fw.(due := true)), raster)
  {
  }

  lemma ClosedUnheard(s: Machine)
    ensures Unheard(s, StartInterrupt(s.(awaitingRelease := true)))
  {
  }

  lemma DeliveryCases(s: Machine, raster: seq<byte>, reply: Reply)
    ensures var t := CountImage(s.(captureCount := s.captureCount + 1), raster);
      var v := DeliverImage(s.(captureCount := s.captureCount + 1), raster, reply);
      && v == (if s.fw.live then Handover(t.(fw := t.fw.(due := true)), reply) else t)
      && FinishCapture(s, raster, reply) == StartInterrupt(v.(awaitingRelease := true))
  {
    hide DriverModel.Handover, DriverModel.StartInterrupt;
  }

  lemma DeliveredOnce(s: Machine, raster: seq<byte>, reply: Reply)
    ensures Delivered(s, FinishCapture(s, raster, reply), raster)
  {
    hide *;
    var t := CountImage(s.(captureCount := s.captureCount + 1), raster);
    var u := t.(fw := t.fw.(due := true));
    var v := DeliverImage(s.(captureCount := s.captureCount + 1), raster, reply);
    DeliveryCases(s, raster, reply);
    Counted(s, raster);
    HandoverUnheard(u, reply);
    DeliveredThen(s, u, Handover(u, reply), raster);
    ClosedUnheard(v);
    DeliveredThen(s, v, StartInterrupt(v.(awaitingRelease := true)), raster);
  }

  /** An accepted frame is delivered as exactly one image, and that image shows the frame. */
  lemma ImageShowsFrame(b: Blobs, s: Machine, data: Message, reply: Reply) returns (raster: seq<byte>)
    requires Reachable(b, s) && CaptureRead in s.pending && ImageFrame.DriverAccepts(data)
    ensures ShowsFrame(raster, data)
    ensures var t := Step(s, Completed(CaptureRead, Done(data), reply));
      forall r :: Count(t, ImageCaptured(r)) == Count(s, ImageCaptured(r)) + (if r == raster then 1 else 0)
  {
    raster := RasterOf(data);
    RasterShowsFrame(data);
    DeliveredOnce(Take(s, CaptureRead), raster, reply);
    hide DriverModel.FinishCapture, ShowsFrame, DriverModel.RasterOf, ImageFrame.DriverAccepts;
  }

  /** Nothing else delivers an image. */
  lemma OnlyFramesDeliver(b: Blobs, s: Machine, e: Event, r: seq<byte>)
    requires Reachable(b, s) && Enabled(s, e) && !e.Activate?
    requires !(e.Completed? && e.op == CaptureRead && e.result.Done? && ImageFrame.DriverAccepts(e.result.data))
    ensures Count(Step(s, e), ImageCaptured(r)) == Count(s, ImageCaptured(r))
  {
    hide Reachable, ImageFrame.DriverAccepts;
    ReachableInv(b, s);
    NeverDeactivating(s, b);
    hide Inv;
    if e.Completed? {
      var t := Take(s, e.op);
      assert Count(t, ImageCaptured(r)) == Count(s, ImageCaptured(r));
      hide DriverModel.Dispatch, Count;
      if HandshakeOp(e.op) {
        HandshakeUnheard(t, e.op, e.result, e.reply);
      } else {
        UnheardAfter(t, e.op, e.result, e.reply);
      }
    } else {
      OthersUnheard(s, e, r);
    }
  }

  lemma OthersUnheard(s: Machine, e: Event, r: seq<byte>)
    requires Enabled(s, e) && !e.Activate? && !e.Completed? && !s.deactivating
    ensures Count(Step(s, e), ImageCaptured(r)) == Count(s, ImageCaptured(r))
  {
    hide DriverModel.Config39, DriverModel.PatchMode;
  }

  lemma ReportUnheard(s: Machine, ok: bool, rc: Reaction)
    ensures var t := ActivateComplete(s, ok, rc); forall r :: Count(t, ImageCaptured(r)) == Count(s, ImageCaptured(r))
  {
    ReactUnheard(s.(h := s.h.(reports := s.h.reports + [ok]), fw := s.fw.(live := s.fw.live && ok, due := ok)), rc);
    hide DriverModel.React;
  }

  lemma HandshakeUnheard(s: Machine, op: Op, result: UsbResult, reply: Reply)
    requires HandshakeOp(op) && op != WakeTimer
    ensures var t := Dispatch(s, op, result, reply);
      forall r :: Count(t, ImageCaptured(r)) == Count(s, ImageCaptured(r))
  {
    ReportUnheard(s, false, reply.last);
    ReportUnheard(Succeeded(s, op).(initStage := s.initStage + 1), true, reply.last);
    hide DriverModel.ActivateComplete, DriverModel.Config39;
  }

  // ---------------------------------------------------------------- touch, capture, release, re-arm

  /** The five bytes of a finger-on event. */
  predicate FingerBytes(data: Message) {
    |data| == 5 && data[0] == 0x03 && data[1] in {0x42, 0x43} && data[2] == 0x04
  }

  lemma AtActive(b: Blobs, s: Machine, op: Op)
    requires Reachable(b, s) && op in s.pending && !HandshakeOp(op)
    ensures Loose(s, b) && ActiveOp(op) && !s.deactivating && |s.scan02| == 18869
    ensures op.Interrupt? && !s.awaitingRelease ==> !s.fw.due
    ensures op.RearmRead? || op.RearmWrite? ==> s.rearmStage < 2
  {
    hide Reachable;
    ReachableInv(b, s);
    ActiveTransfer(s, b, op);
    if op.Interrupt? || op.RearmRead? || op.RearmWrite? {
      TakeCounts(s.pending, op);
    }
  }

  /** A finger-on event while no release is awaited is reported and starts one capture: the read, and the 51 message.
      Any other report of the device only starts the next interrupt, with 600 ms while a release is awaited. */
  lemma InterruptAnswer(b: Blobs, s: Machine, op: Op, data: Message, reply: Reply)
    requires Reachable(b, s) && op in s.pending && op.Interrupt?
    ensures var t := Step(s, Completed(op, Done(data), reply));
      && t.awaitingRelease == s.awaitingRelease
      && (if FingerBytes(data) && !s.awaitingRelease then
            && t.h.out == s.h.out + [[0x51, 0x00, 0x20, 0x00, 0x00]]
            && t.pending == s.pending - multiset{op} + multiset{CaptureRead, CaptureWrite}
            && Count(t, FingerStatus(true)) == Count(s, FingerStatus(true)) + 1
          else
            && t.h.out == s.h.out && t.h.calls == s.h.calls
            && t.pending == s.pending - multiset{op} + multiset{Interrupt(if s.awaitingRelease then 600 else 0)})
  {
    hide Reachable;
    AtActive(b, s, op);
    hide Loose, DriverModel.InterruptCb;
    if FingerBytes(data) && !s.awaitingRelease {
      FingerStartsCapture(Take(s, op), data, reply.last);
    } else {
      ReportStartsInterrupt(Take(s, op), data, reply.last);
    }
  }

  lemma FingerStartsCapture(s: Machine, data: Message, r: Reaction)
    requires FingerBytes(data) && !s.awaitingRelease && !s.fw.due && !s.deactivating
    ensures var t := InterruptCb(s, Done(data), r);
      && t.h.out == s.h.out + [[0x51, 0x00, 0x20, 0x00, 0x00]]
      && t.pending == s.pending + multiset{CaptureRead, CaptureWrite}
      && Count(t, FingerStatus(true)) == Count(s, FingerStatus(true)) + 1 && !t.awaitingRelease
  {
    FingerOnReaction(s, r);
    hide DriverModel.React;
    assert s.pending + multiset{CaptureRead} + multiset{CaptureWrite}
        == s.pending + multiset{CaptureRead, CaptureWrite};
  }

  lemma ReportStartsInterrupt(s: Machine, data: Message, r: Reaction)
    requires !s.deactivating && !(FingerBytes(data) && !s.awaitingRelease)
    ensures var t := InterruptCb(s, Done(data), r);
      && t.h.out == s.h.out && t.h.calls == s.h.calls && t.awaitingRelease == s.awaitingRelease
      && t.pending == s.pending + multiset{Interrupt(if s.awaitingRelease then 600 else 0)}
  {
    hide DriverModel.React;
  }

  lemma FailureEffects(s: Machine, r: Reaction)
    requires !s.deactivating
    ensures var t := FailSessionOrDeactivate(s, r);
      && Count(t, SessionError) == Count(s, SessionError) + 1 && t.awaitingRelease == s.awaitingRelease
      && (r != AnnounceAwaitFingerOn ==> t.h.out == s.h.out && t.pending == s.pending)
  {
    FailureSays(s, r);
    ReactSays(Say(s, SessionError), r, SessionError);
    if r != AnnounceAwaitFingerOn {
      SilentReaction(Say(s, SessionError), r);
    }
    hide DriverModel.React;
  }

  lemma SilentReaction(s: Machine, r: Reaction)
    requires r != AnnounceAwaitFingerOn
    ensures React(s, r).h.out == s.h.out && React(s, r).pending == s.pending
  {
    hide DriverModel.Config39, DriverModel.PatchMode;
  }

  /** An interrupt without a report: a cancelled one is dropped, a timeout while a release is awaited is the release,
      anything else is a session error. */
  lemma InterruptEnded(b: Blobs, s: Machine, op: Op, result: UsbResult, reply: Reply)
    requires Reachable(b, s) && op in s.pending && op.Interrupt? && !result.Done? && Possible(op, result)
    ensures var t := Step(s, Completed(op, result, reply));
      && (result == Cancelled ==> t.h.calls == s.h.calls)
      && (result == Cancelled || reply.last != AnnounceAwaitFingerOn ==>
            t.h.out == s.h.out && t.pending == s.pending - multiset{op})
      && t.awaitingRelease == (s.awaitingRelease && result != TimedOut)
      && Count(t, FingerStatus(false))
         == Count(s, FingerStatus(false)) + (if s.awaitingRelease && result == TimedOut then 1 else 0)
      && Count(t, SessionError)
         == Count(s, SessionError) + (if result == Cancelled || (s.awaitingRelease && result == TimedOut) then 0 else 1)
  {
    hide Reachable;
    AtActive(b, s, op);
    hide Loose;
    var t := Take(s, op);
    InterruptEnds(t, result, reply.last);
    hide DriverModel.InterruptCb;
  }

  lemma InterruptEnds(s: Machine, result: UsbResult, r: Reaction)
    requires !s.deactivating && !result.Done?
    ensures var t := InterruptCb(s, result, r);
      && (result == Cancelled ==> t == s)
      && (result == Cancelled || r != AnnounceAwaitFingerOn ==> t.h.out == s.h.out && t.pending == s.pending)
      && t.awaitingRelease == (s.awaitingRelease && result != TimedOut)
      && Count(t, FingerStatus(false))
         == Count(s, FingerStatus(false)) + (if s.awaitingRelease && result == TimedOut then 1 else 0)
      && Count(t, SessionError)
         == Count(s, SessionError) + (if result == Cancelled || (s.awaitingRelease && result == TimedOut) then 0 else 1)
  {
    if s.awaitingRelease && result == TimedOut {
      ReactSays(Released(s), r, FingerStatus(false));
      ReactSays(Released(s), r, SessionError);
      if r != AnnounceAwaitFingerOn {
        SilentReaction(Released(s), r);
      }
      hide DriverModel.React;
    } else {
      FailureEffects(s, r);
      ReactSays(Say(s, SessionError), r, FingerStatus(false));
      hide DriverModel.React;
    }
  }

  /** The re-arm: each of its two messages is followed by a read of 2 or 2154 bytes, the first read by scan_02 with 0x23
      at offset 1749, the second by the next interrupt. */
  lemma RearmAnswer(b: Blobs, s: Machine, op: Op, data: Message, reply: Reply)
    requires Reachable(b, s) && op in s.pending && (op.RearmWrite? || op.RearmRead?) && Possible(op, Done(data))
    ensures |s.scan02| == 18869
    ensures var t := Step(s, Completed(op, Done(data), reply));
      && t.h.calls == s.h.calls && t.awaitingRelease == s.awaitingRelease
      && (op.RearmWrite? ==>
            && t.h.out == s.h.out && t.scan02 == s.scan02 && t.rearmStage == s.rearmStage
            && t.pending == s.pending - multiset{op} + multiset{RearmRead(if s.rearmStage == 0 then 2 else 2154)})
      && (op.RearmRead? && s.rearmStage == 0 ==>
            && t.scan02 == s.scan02[1749 := 0x23] && t.h.out == s.h.out + [t.scan02] && t.rearmStage == 1
            && t.pending == s.pending - multiset{op} + multiset{RearmWrite})
      && (op.RearmRead? && s.rearmStage != 0 ==>
            && t.h.out == s.h.out && t.scan02 == s.scan02
            && t.pending == s.pending - multiset{op} + multiset{Interrupt(if s.awaitingRelease then 600 else 0)})
  {
    hide Reachable;
    AtActive(b, s, op);
    hide Loose, DriverModel.Config39, DriverModel.FailSessionOrDeactivate;
  }

  /** A failed transfer of an activated device, and a capture read that is no image: one session error, and nothing
      is started by the driver. A written 51 message starts nothing either. */
  lemma TransferFailed(b: Blobs, s: Machine, op: Op, result: UsbResult, reply: Reply)
    requires Reachable(b, s) && op in s.pending
    requires op.CaptureRead? || op.CaptureWrite? || op.RearmWrite? || op.RearmRead?
    requires Possible(op, result)
    requires result.Done? ==> op.CaptureWrite? || (op.CaptureRead? && !ImageFrame.DriverAccepts(result.data))
    ensures var t := Step(s, Completed(op, result, reply));
      && Count(t, SessionError) == Count(s, SessionError) + (if op.CaptureWrite? && result.Done? then 0 else 1)
      && t.awaitingRelease == s.awaitingRelease
      && (reply.last != AnnounceAwaitFingerOn || (op.CaptureWrite? && result.Done?) ==>
            t.h.out == s.h.out && t.pending == s.pending - multiset{op})
  {
    hide Reachable, ImageFrame.DriverAccepts;
    AtActive(b, s, op);
    FailureEffects(Take(s, op), reply.last);
    hide Loose, DriverModel.FailSessionOrDeactivate, DriverModel.FinishCapture;
  }

  /** AWAIT_FINGER_ON starts an interrupt before the first capture, and the re-arm with the 0x39 message after it;
      the other states start nothing. */
  lemma NotificationEffects(b: Blobs, s: Machine, state: DeviceState)
    requires Reachable(b, s) && Enabled(s, Notified(state))
    ensures var t := Step(s, Notified(state));
      && (state != AwaitFingerOn ==> t == s)
      && (state == AwaitFingerOn ==>
            && t.h.calls == s.h.calls && t.scan02 == s.scan02 && t.fw == s.fw.(due := false)
            && (if s.captureCount == 0 then
                  t.h.out == s.h.out
                  && t.pending == s.pending + multiset{Interrupt(if s.awaitingRelease then 600 else 0)}
                else
                  && t.h.out == s.h.out + [Config39()]
                  && t.pending == s.pending + multiset{RearmWrite} && t.rearmStage == 0))
  {
    hide Reachable;
    ReachableInv(b, s);
    NeverDeactivating(s, b);
    hide Inv, DriverModel.Config39, DriverModel.PatchMode, DriverModel.Chain;
  }

  // ---------------------------------------------------------------- success needs a valid control response, over runs

  /** Transfers that do not belong to the handshake leave the list of its successes alone. */
  lemma DoneUnchanged(s: Machine, e: Event)
    requires e.Completed? && !HandshakeOp(e.op) && Enabled(s, e)
    ensures Step(s, e).h.done == s.h.done
  {
    var t := Take(s, e.op);
    if e.op == CaptureRead && e.result.Done? && ImageFrame.DriverAccepts(e.result.data) {
      DeliveredOnce(t, RasterOf(e.result.data), e.reply);
      hide DriverModel.FinishCapture, Count;
    } else {
      UnheardAfter(t, e.op, e.result, e.reply);
      hide DriverModel.Dispatch, Count;
    }
  }

  /** Over every run: when the activation is reported as a success, the last control response it got was two zero
      bytes; without that nothing of the handshake counts as done. */
  lemma {:induction false} SuccessWasAnswered(b: Blobs, es: seq<Event>)
    requires WellFramed(b) && Legal(Opened(b.config06, b.scan), es)
    ensures Run(Opened(b.config06, b.scan), es).h.reports == [true] ==> exists n :: AnsweredAt(es, n)
    ensures Run(Opened(b.config06, b.scan), es).h.done != [] ==> exists n :: AnsweredAt(es, n)
    decreases |es|
  {
    var o := Opened(b.config06, b.scan);
    assert Reachable(b, Run(o, es));
    if es == [] {
    } else {
      var front, last := es[..|es| - 1], es[|es| - 1];
      LegalFront(o, es);
      assert Reachable(b, Run(o, front));
      assert es == front + [last];
      hide Reachable, Legal, Run, DriverModel.Step, DriverModel.Enabled, AnsweredAt, AnswersControl;
      HandshakeLaw(b, Run(o, es));
      if Run(o, es).h.done != [] {
        FirstSuccess(b, Run(o, front), last);
        if AnswersControl(last) {
          NowAnswered(front, last);
        } else {
          SuccessWasAnswered(b, front);
          var n :| AnsweredAt(front, n);
          StillAnswered(front, last, n);
        }
      }
    }
  }
}
