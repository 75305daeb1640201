/** The driver as the source has it: one object whose callbacks update its fields and write into the
    scan_02 buffer in place. Every callback is proved equal to its function in DriverModel. */
module DriverDevice {
  import opened Bytes
  import opened DriverModel
  import opened DriverInvariant
  import DriverTheorems
  import ImageFrame
  import Raster

  predicate BlobOk(contents: Option<Message>, length: nat, command: byte)
    requires length > 0
  {
    contents.Some? && |contents.value| == length && contents.value[0] == command
  }

  class Syna0082 {
    var config39: Message
    var config06: Message
    var scan02: array<byte>
    var initStage: nat
    var rearmStage: nat
    var captureCount: nat
    var deactivating: bool
    var awaitingRelease: bool
    var wakeRetryUsed: bool

    // The USB stack and the framework, as far as the driver meets them.
    var pending: multiset<Op>
    var fw: Framework
    var h: History
    ghost const blobs: Blobs

    ghost function View(): Machine
      reads this, scan02
    {
      Machine(initStage, rearmStage, captureCount, deactivating, awaitingRelease, wakeRetryUsed,
              config06, scan02[..], pending, fw, h)
    }

    ghost predicate Shape()
      reads this
    {
      config39 == Config39() && scan02.Length == USB_SCAN_LENGTH
    }

    ghost predicate Valid()
      reads this, scan02
    {
      Shape() && Inv(View(), blobs)
    }

    /** `dev_open` with both blobs accepted by `load_blob`. */
    constructor (config06: Message, scan: Message)
      requires |config06| == CONFIG_06_LENGTH && config06[0] == 0x06
      requires |scan| == USB_SCAN_LENGTH && scan[0] == 0x02
      ensures Valid() && fresh(scan02)
      ensures blobs == Blobs(config06, scan) && View() == Opened(config06, scan)
    {
      config39 := Config39();
      this.config06 := config06;
      scan02 := new byte[USB_SCAN_LENGTH](i requires 0 <= i < USB_SCAN_LENGTH => scan[i]);
      initStage, rearmStage, captureCount := 0, 0, 0;
      deactivating, awaitingRelease, wakeRetryUsed := false, false, false;
      pending := multiset{};
      fw := Framework(false, false, Capture, 0, 0);
      h := FreshHistory(scan);
      blobs := Blobs(config06, scan);
      new;
      assert scan02[..] == scan;
      OpenedInv(blobs);
    }

    // -------------------------------------------------------------- submitting and calling out

    method Submit(op: Op)
      modifies this
      ensures scan02 == old(scan02) && (old(Shape()) ==> Shape())
      ensures View() == DriverModel.Submit(old(View()), op)
    {
      pending := pending + multiset{op};
    }

    method Write(m: Message, op: Op)
      modifies this
      ensures scan02 == old(scan02) && (old(Shape()) ==> Shape())
      ensures View() == DriverModel.Write(old(View()), m, op)
    {
      h := h.(out := h.out + [m]);
      Submit(op);
    }

    method Say(c: Call)
      modifies this
      ensures scan02 == old(scan02) && (old(Shape()) ==> Shape())
      ensures View() == DriverModel.Say(old(View()), c)
    {
      h := h.(calls := h.calls + [c]);
    }

    /** Between two events there is never a deactivation to complete. */
    method CompleteDeactivation()
      modifies this
      ensures scan02 == old(scan02) && (old(Shape()) ==> Shape())
      ensures View() == DriverModel.CompleteDeactivation(old(View()))
      ensures old(Valid()) ==> View() == old(View())
    {
      if Valid() {
        DriverTheorems.NeverDeactivating(View(), blobs);
      }
      hide Inv;
      if !deactivating {
        return;
      }
      deactivating := false;
      Say(DeactivateComplete);
    }

    method StartInterrupt()
      modifies this
      ensures scan02 == old(scan02) && (old(Shape()) ==> Shape())
      ensures View() == DriverModel.StartInterrupt(old(View()))
    {
      if deactivating {
        CompleteDeactivation();
        return;
      }
      Submit(Interrupt(if awaitingRelease then RELEASE_QUIET_MS else 0));
    }

    method RearmSendStage()
      requires Shape()
      modifies this, scan02
      ensures scan02 == old(scan02) && Shape()
      ensures View() == DriverModel.RearmSendStage(old(View()))
    {
      if rearmStage == 0 {
        Write(config39, RearmWrite);
      } else {
        scan02[MODE_OFFSET] := REARM_MODE;
        assert scan02[..] == PatchMode(old(scan02[..]));
        Write(scan02[..], RearmWrite);
      }
    }

    method DevChangeState(state: DeviceState)
      requires Shape()
      modifies this, scan02
      ensures scan02 == old(scan02) && Shape()
      ensures View() == ChangeState(old(View()), state)
    {
      if state != AwaitFingerOn {
        return;
      }
      if captureCount == 0 {
        StartInterrupt();
      } else {
        rearmStage := 0;
        RearmSendStage();
      }
    }

    /** The framework is told at once, and nothing else changes. */
    method DevDeactivate()
      requires Shape()
      modifies this
      ensures scan02 == old(scan02) && Shape()
      ensures View() == DriverModel.DevDeactivate(old(View()))
      ensures old(Valid()) ==> View() == DriverModel.Say(old(View()), DeactivateComplete)
    {
      if Valid() {
        DriverTheorems.NeverDeactivating(View(), blobs);
      }
      hide Inv;
      deactivating := true;
      CompleteDeactivation();
    }

    /** What the framework does before its function returns to the driver. */
    method React(r: Reaction)
      requires Shape()
      modifies this, scan02
      ensures scan02 == old(scan02) && Shape()
      ensures View() == DriverModel.React(old(View()), r)
    {
      match r
      case Nothing =>
      case AnnounceAwaitFingerOn =>
        if fw.live && fw.due && Chain(pending) == 0 {
          fw := fw.(due := false);
          DevChangeState(AwaitFingerOn);
        }
      case DeactivateDevice =>
        if fw.live {
          fw := fw.(live := false);
          DevDeactivate();
        }
    }

    method ActivateComplete(ok: bool, r: Reaction)
      requires Shape()
      modifies this, scan02
      ensures scan02 == old(scan02) && Shape()
      ensures View() == DriverModel.ActivateComplete(old(View()), ok, r)
    {
      hide DriverModel.React;
      h := h.(reports := h.reports + [ok]);
      fw := fw.(live := fw.live && ok, due := ok);
      React(r);
    }

    /** Exactly one session error is reported, whatever the framework does with it. */
    method FailSessionOrDeactivate(r: Reaction)
      requires Shape()
      modifies this, scan02
      ensures scan02 == old(scan02) && Shape()
      ensures View() == DriverModel.FailSessionOrDeactivate(old(View()), r)
      ensures old(Valid()) ==> multiset(h.calls)[SessionError] == old(multiset(h.calls)[SessionError]) + 1
    {
      hide DriverModel.React;
      if Valid() {
        DriverTheorems.NeverDeactivating(View(), blobs);
        DriverTheorems.FailureSays(View(), r);
      }
      hide Inv;
      if deactivating {
        CompleteDeactivation();
      } else {
        Say(SessionError);
        React(r);
      }
    }

    // -------------------------------------------------------------- activation

    method InitSendStage()
      requires Shape()
      modifies this
      ensures scan02 == old(scan02) && Shape()
      ensures View() == DriverModel.InitSendStage(old(View()))
    {
      var request: Message;
      if initStage < 4 {
        request := [[0x1a], [0x01], [0x19], [0x75]][initStage];
      } else if initStage == 4 {
        request := config39;
      } else if initStage == 5 {
        request := config06;
      } else {
        request := scan02[..];
      }
      Write(request, InitWrite);
    }

    /** What the framework and the history begin an activation with. */
    method BeginActivation(action: Action, stages: nat)
      modifies this
      ensures scan02 == old(scan02) && (old(Shape()) ==> Shape())
      ensures View() == old(View()).(fw := Framework(true, false, action, stages, 0),
                                     h := FreshHistory(old(scan02[..])))
    {
      hide DriverModel.Config39, DriverModel.FreshHistory, Inv;
      fw := Framework(true, false, action, stages, 0);
      h := FreshHistory(scan02[..]);
      assert scan02[..] == old(scan02[..]);
    }

    method DevActivate(action: Action, stages: nat)
      requires Shape()
      modifies this
      ensures scan02 == old(scan02) && Shape()
      ensures View() == DriverModel.DevActivate(old(View()), action, stages)
    {
      hide DriverModel.Config39, DriverModel.FreshHistory, Inv;
      BeginActivation(action, stages);
      deactivating := false;
      initStage := 0;
      captureCount := 0;
      awaitingRelease := false;
      wakeRetryUsed := false;
      assert scan02[..] == old(scan02[..]);
      Submit(Control);
    }

    /** `wake_retry_or_fail`, and the report its callers make when it declines. */
    method HandshakeError(result: UsbResult, r: Reaction)
      requires Shape()
      modifies this, scan02
      ensures scan02 == old(scan02) && Shape()
      ensures View() == DriverModel.HandshakeError(old(View()), result, r)
    {
      hide DriverModel.ActivateComplete;
      if wakeRetryUsed || !result.NoDevice? {
        ActivateComplete(false, r);
      } else {
        wakeRetryUsed := true;
        h := h.(mark := |h.out|, waits := h.waits + 1, done := []);
        Submit(WakeTimer);
      }
    }

    method OperationControlCb(result: UsbResult, r: Reaction)
      requires Shape()
      modifies this, scan02
      ensures scan02 == old(scan02) && Shape()
      ensures View() == ControlCb(old(View()), result, r)
    {
      hide DriverModel.ActivateComplete, DriverModel.HandshakeError;
      if !result.Done? {
        HandshakeError(result, r);
        return;
      }
      if |result.data| != 2 || result.data[0] != 0 || result.data[1] != 0 {
        ActivateComplete(false, r);
        return;
      }
      h := h.(done := h.done + [Control]);
      InitSendStage();
    }

    method InitWriteCb(result: UsbResult, r: Reaction)
      requires Shape() && initStage < INIT_STAGES
      modifies this, scan02
      ensures scan02 == old(scan02) && Shape()
      ensures View() == DriverModel.InitWriteCb(old(View()), result, r)
    {
      hide DriverModel.HandshakeError;
      if !result.Done? {
        HandshakeError(result, r);
        return;
      }
      h := h.(done := h.done + [InitWrite]);
      Submit(InitRead(RESPONSE_LENGTHS[initStage]));
    }

    method InitReadCb(length: nat, result: UsbResult, r: Reaction)
      requires Shape()
      modifies this, scan02
      ensures scan02 == old(scan02) && Shape()
      ensures View() == DriverModel.InitReadCb(old(View()), length, result, r)
    {
      hide DriverModel.ActivateComplete, DriverModel.HandshakeError;
      if !result.Done? {
        HandshakeError(result, r);
        return;
      }
      h := h.(done := h.done + [InitRead(length)]);
      initStage := initStage + 1;
      if initStage == INIT_STAGES {
        ActivateComplete(true, r);
      } else {
        InitSendStage();
      }
    }

    method WakeRetryTimeoutCb()
      requires Shape()
      modifies this
      ensures scan02 == old(scan02) && Shape()
      ensures View() == WakeTimerCb(old(View()))
    {
      if !deactivating {
        initStage := 0;
        Submit(Control);
      }
    }

    // -------------------------------------------------------------- touch, capture, release, re-arm

    method StartCapture()
      modifies this
      ensures scan02 == old(scan02) && (old(Shape()) ==> Shape())
      ensures View() == DriverModel.StartCapture(old(View()))
    {
      Submit(CaptureRead);
      Write(COMMAND_51, CaptureWrite);
    }

    method InterruptCb(result: UsbResult, r: Reaction)
      requires Shape()
      modifies this, scan02
      ensures scan02 == old(scan02) && Shape()
      ensures View() == DriverModel.InterruptCb(old(View()), result, r)
    {
      hide DriverModel.React, DriverModel.FailSessionOrDeactivate;
      if !result.Done? {
        if result.Cancelled? {
          CompleteDeactivation();
          return;
        }
        if awaitingRelease && result.TimedOut? {
          awaitingRelease := false;
          h := h.(quiet := h.quiet + 1);
          Say(FingerStatus(false));
          React(r);
          return;
        }
        FailSessionOrDeactivate(r);
        return;
      }
      var data := result.data;
      if |data| == 5 && data[0] == 0x03 && (data[1] == 0x42 || data[1] == 0x43) && data[2] == 0x04 {
        if awaitingRelease {
          StartInterrupt();
        } else {
          Say(FingerStatus(true));
          React(r);
          StartCapture();
        }
      } else {
        StartInterrupt();
      }
    }

    method DevExtractPrint(early: Reaction)
      requires Shape()
      modifies this, scan02
      ensures scan02 == old(scan02) && Shape()
      ensures View() == ExtractPrint(old(View()), early)
    {
      hide DriverModel.React;
      if fw.action == Enroll && captureCount == fw.stages {
        Say(FingerStatus(false));
        React(early);
      }
    }

    /** `fp_image_device_process_print`. */
    method ProcessPrint(reply: Reply)
      requires Shape()
      modifies this, scan02
      ensures scan02 == old(scan02) && Shape()
      ensures View() == DriverModel.ProcessPrint(old(View()), reply)
    {
      hide DriverModel.React;
      if fw.action == Enroll {
        if reply.extracted && reply.appended {
          fw := fw.(enrollStage := fw.enrollStage + 1);
        }
        if fw.enrollStage == fw.stages {
          React(DeactivateDevice);
        } else {
          React(reply.last);
        }
      } else {
        React(reply.last);
      }
    }

    /** `fpi_image_device_image_captured`. */
    method DeliverImage(raster: seq<byte>, reply: Reply)
      requires Shape()
      modifies this, scan02
      ensures scan02 == old(scan02) && Shape()
      ensures View() == DriverModel.DeliverImage(old(View()), raster, reply)
    {
      hide DriverModel.React, DriverModel.ProcessPrint, DriverModel.ExtractPrint;
      Say(ImageCaptured(raster));
      h := h.(images := h.images + 1);
      if !fw.live {
        return;
      }
      fw := fw.(due := true);
      if fw.action == Capture {
        React(reply.last);
        return;
      }
      if reply.extracted {
        DevExtractPrint(reply.early);
      }
      ProcessPrint(reply);
    }

    method CaptureReadCb(result: UsbResult, reply: Reply)
      requires Shape()
      modifies this, scan02
      ensures scan02 == old(scan02) && Shape()
      ensures View() == DriverModel.CaptureReadCb(old(View()), result, reply)
    {
      hide DriverModel.FailSessionOrDeactivate, DriverModel.DeliverImage, DriverModel.StartInterrupt;
      if !result.Done? {
        FailSessionOrDeactivate(reply.last);
        return;
      }
      var buffer := result.data;
      if |buffer| != ImageFrame.IMAGE_RESPONSE_LENGTH || Le16(buffer) != 0
         || Le32(buffer[2..]) != ImageFrame.IMAGE_RESPONSE_LENGTH - 6 {
        FailSessionOrDeactivate(reply.last);
        return;
      }
      var width := Le16(buffer[6..]);
      var height := Le16(buffer[8..]);
      if width != ImageFrame.IMAGE_WIDTH || height != ImageFrame.IMAGE_HEIGHT {
        FailSessionOrDeactivate(reply.last);
        return;
      }
      var image := Raster.CopyTransposed(buffer, ImageFrame.HEADER_SIZE, width, height);
      captureCount := captureCount + 1;
      DeliverImage(image[..], reply);
      awaitingRelease := true;
      StartInterrupt();
    }

    /** A capture command that was written changes nothing; one that failed is one session error. */
    method CaptureWriteCb(result: UsbResult, r: Reaction)
      requires Shape()
      modifies this, scan02
      ensures scan02 == old(scan02) && Shape()
      ensures View() == DriverModel.CaptureWriteCb(old(View()), result, r)
      ensures result.Done? ==> View() == old(View())
      ensures old(Valid()) && !result.Done? ==>
                multiset(h.calls)[SessionError] == old(multiset(h.calls)[SessionError]) + 1
    {
      hide DriverModel.FailSessionOrDeactivate, Inv;
      if !result.Done? {
        FailSessionOrDeactivate(r);
      }
    }

    method RearmWriteCb(result: UsbResult, r: Reaction)
      requires Shape()
      modifies this, scan02
      ensures scan02 == old(scan02) && Shape()
      ensures View() == DriverModel.RearmWriteCb(old(View()), result, r)
    {
      hide DriverModel.FailSessionOrDeactivate;
      if !result.Done? {
        FailSessionOrDeactivate(r);
        return;
      }
      Submit(RearmRead(if rearmStage == 0 then 2 else SCAN_RESPONSE_LENGTH));
    }

    method RearmReadCb(result: UsbResult, r: Reaction)
      requires Shape()
      modifies this, scan02
      ensures scan02 == old(scan02) && Shape()
      ensures View() == DriverModel.RearmReadCb(old(View()), result, r)
    {
      hide DriverModel.FailSessionOrDeactivate;
      if !result.Done? {
        FailSessionOrDeactivate(r);
        return;
      }
      rearmStage := rearmStage + 1;
      if rearmStage == 2 {
        StartInterrupt();
      } else {
        RearmSendStage();
      }
    }

    // -------------------------------------------------------------- one event

    method TakeOp(op: Op)
      requires Shape()
      modifies this
      ensures scan02 == old(scan02) && Shape() && initStage == old(initStage)
      ensures View() == Take(old(View()), op)
    {
      hide DriverModel.Config39, DriverModel.Tallied, Inv;
      pending := pending - multiset{op};
      h := Tallied(h, op);
      assert scan02[..] == old(scan02[..]);
    }

    /** A USB completion reaches its callback. */
    method Complete(op: Op, result: UsbResult, reply: Reply)
      requires Shape() && op != WakeTimer && (op.InitWrite? ==> initStage < INIT_STAGES)
      modifies this, scan02
      ensures scan02 == old(scan02) && Shape()
      ensures View() == Dispatch(old(View()), op, result, reply)
    {
      hide DriverModel.ControlCb, DriverModel.InitWriteCb, DriverModel.InitReadCb, DriverModel.InterruptCb;
      hide DriverModel.CaptureReadCb, DriverModel.CaptureWriteCb, DriverModel.RearmWriteCb, DriverModel.RearmReadCb;
      match op
      case Control => OperationControlCb(result, reply.last);
      case InitWrite => InitWriteCb(result, reply.last);
      case InitRead(length) => InitReadCb(length, result, reply.last);
      case Interrupt(_) => InterruptCb(result, reply.last);
      case CaptureRead => CaptureReadCb(result, reply);
      case CaptureWrite => CaptureWriteCb(result, reply.last);
      case RearmWrite => RearmWriteCb(result, reply.last);
      case RearmRead(_) => RearmReadCb(result, reply.last);
    }

    /** Every entry into the driver that the contract allows is one step of the model, and keeps the invariant. */
    method Handle(e: Event)
      requires Valid() && Enabled(View(), e)
      modifies this, scan02
      ensures Valid() && scan02 == old(scan02)
      ensures View() == Step(old(View()), e)
    {
      hide DriverModel.Dispatch, DriverModel.Config39, DriverModel.Take, DriverModel.WakeTimerCb;
      hide DriverModel.DevActivate, DriverModel.ChangeState, DriverModel.DevDeactivate, DriverModel.Chain, Inv;
      StepKeepsInv(View(), blobs, e);
      match e
      case Activate(action, stages) => DevActivate(action, stages);
      case Completed(op, result, reply) =>
        assert op.InitWrite? ==> initStage < INIT_STAGES by { StageInTable(View(), blobs, op); }
        TakeOp(op);
        Complete(op, result, reply);
      case TimerFired =>
        TakeOp(WakeTimer);
        WakeRetryTimeoutCb();
      case Notified(state) =>
        if state == AwaitFingerOn {
          fw := fw.(due := false);
        }
        DevChangeState(state);
      case Deactivated =>
        fw := fw.(live := false);
        DevDeactivate();
    }

    static lemma StageInTable(s: Machine, b: Blobs, op: Op)
      requires Inv(s, b) && op in s.pending
      ensures op.InitWrite? ==> s.initStage < INIT_STAGES
    {
      if op.InitWrite? {
        HandshakeAlone(s, b, op);
      }
    }
  }

  /** `dev_open`: a device comes back exactly when the reset, both blob checks and the claim succeed. */
  method DevOpen(reset: bool, config06: Option<Message>, scan: Option<Message>, claim: bool)
    returns (device: Syna0082?)
    ensures device != null <==>
              && reset && claim
              && config06.Some? && |config06.value| == 10501 && config06.value[0] == 0x06
              && scan.Some? && |scan.value| == 18869 && scan.value[0] == 0x02
    ensures device != null ==> fresh(device) && fresh(device.scan02)
    ensures device != null ==> device.Valid() && device.View() == Opened(config06.value, scan.value)
  {
    if !reset || !BlobOk(config06, CONFIG_06_LENGTH, 0x06) || !BlobOk(scan, USB_SCAN_LENGTH, 0x02) || !claim {
      return null;
    }
    device := new Syna0082(config06.value, scan.value);
  }
}
