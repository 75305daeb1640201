/** The callbacks of the 06cb:0082 driver as functions on a snapshot of the device and its surroundings.
    One event is one entry into the driver: a USB completion, the wake timer, or a framework call. */
module DriverModel {
  import opened Bytes
  import opened ImageFrame
  import Raster

  type Message = seq<byte>

  const USB_SCAN_LENGTH: nat := 18869
  const CONFIG_39_LENGTH: nat := 125
  const CONFIG_06_LENGTH: nat := 10501
  const SCAN_RESPONSE_LENGTH: nat := 2154
  const RELEASE_QUIET_MS: nat := 600
  const MODE_OFFSET: nat := 1749
  const REARM_MODE: byte := 0x23
  const INIT_STAGES: nat := 7

  const RESPONSE_LENGTHS: seq<nat> := [2, 38, 68, 10, 2, 2, SCAN_RESPONSE_LENGTH]
  const COMMAND_51: Message := [0x51, 0x00, 0x20, 0x00, 0x00]

  /** `build_scan_config_v1`. */
  function Config39(): Message {
    seq(CONFIG_39_LENGTH, i => Config39Field(i))
  }

  function Config39Field(i: int): byte {
    if i == 0 then 0x39 else if i == 2 then 0xbf else if i == 3 then 0x02 else if i == 9 then 0x01
    else if i in {1, 12, 32, 52, 72} then 0x20
    else if i in {5, 6, 45, 46} then 0xff
    else if i in {10, 17, 18, 50} then 0xd1
    else 0
  }

  /** What the driver has asked for and not yet heard about. */
  datatype Op =
    | Control
    | WakeTimer
    | InitWrite
    | InitRead(length: nat)
    | Interrupt(timeout: nat)
    | CaptureRead
    | CaptureWrite
    | RearmWrite
    | RearmRead(length: nat)

  datatype UsbResult = Done(data: Message) | TimedOut | NoDevice | Cancelled | Failed

  datatype Action = Enroll | Verify | Identify | Capture
  datatype DeviceState = Inactive | Activating | Deactivating | Idle | AwaitFingerOn | Capturing | AwaitFingerOff

  /** What the framework does inside a call the driver makes to it. */
  datatype Reaction = Nothing | AnnounceAwaitFingerOn | DeactivateDevice

  /** The framework's side of one callback: how feature extraction and the gallery append end, what the
      framework does when finger-off is reported early, and what it does in its last call. */
  datatype Reply = Reply(extracted: bool, appended: bool, early: Reaction, last: Reaction)

  datatype Call =
    | DeactivateComplete
    | SessionError
    | FingerStatus(present: bool)
    | ImageCaptured(raster: seq<byte>)

  /** The framework's private state. `live` is true from activation until it deactivates the device or the
      activation fails; `due` is true when it has reason to wait for a finger: the activation succeeded or
      an image came in, and AWAIT_FINGER_ON was not announced since. */
  datatype Framework = Framework(live: bool, due: bool, action: Action, stages: nat, enrollStage: nat)

  /** History of the current activation, kept for the statements only. */
  datatype History = History(
    out: seq<Message>,        // EP_OUT writes
    mark: nat,                // how many of them an abandoned first attempt made
    waits: nat,               // wake waits begun
    startScan: Message,       // scan_02 when the activation began
    done: seq<Op>,            // transfers that succeeded since the last (re)start
    transfers: nat,           // handshake transfers completed, with or without error
    reports: seq<bool>,       // activate_complete calls: true for success
    calls: seq<Call>,         // the other calls into the framework
    images: nat,              // images delivered
    quiet: nat,               // release timeouts: interrupt timeouts taken while awaiting release
    outOfTable: bool)         // a lookup beyond response_lengths was made

  /** The history of an activation that begins with `scan` in scan_02. */
  function FreshHistory(scan: Message): History {
    History([], 0, 0, scan, [], 0, [], [], 0, 0, false)
  }

  datatype Machine = Machine(
    initStage: nat,
    rearmStage: nat,
    captureCount: nat,
    deactivating: bool,
    awaitingRelease: bool,
    wakeRetryUsed: bool,
    config06: Message,
    scan02: Message,
    pending: multiset<Op>,
    fw: Framework,
    h: History)

  datatype Event =
    | Activate(action: Action, stages: nat)
    | Completed(op: Op, result: UsbResult, reply: Reply)
    | TimerFired
    | Notified(state: DeviceState)
    | Deactivated

  // ---------------------------------------------------------------- submitting and calling out

  function Submit(s: Machine, op: Op): Machine {
    s.(pending := s.pending + multiset{op})
  }

  function Write(s: Machine, m: Message, op: Op): Machine {
    Submit(s.(h := s.h.(out := s.h.out + [m])), op)
  }

  function Say(s: Machine, c: Call): Machine {
    s.(h := s.h.(calls := s.h.calls + [c]))
  }

  function CompleteDeactivation(s: Machine): Machine {
    if !s.deactivating then s else Say(s.(deactivating := false), DeactivateComplete)
  }

  function StartInterrupt(s: Machine): Machine {
    if s.deactivating then CompleteDeactivation(s)
    else Submit(s, Interrupt(if s.awaitingRelease then RELEASE_QUIET_MS else 0))
  }

  function RearmSendStage(s: Machine): Machine {
    if s.rearmStage == 0 then Write(s, Config39(), RearmWrite)
    else
      var scan := PatchMode(s.scan02);
      Write(s.(scan02 := scan), scan, RearmWrite)
  }

  /** `scan_02[1749] = 0x23`. */
  function PatchMode(scan: Message): Message {
    if MODE_OFFSET < |scan| then scan[MODE_OFFSET := REARM_MODE] else scan
  }

  function ChangeState(s: Machine, state: DeviceState): Machine {
    if state != AwaitFingerOn then s
    else if s.captureCount == 0 then StartInterrupt(s)
    else RearmSendStage(s.(rearmStage := 0))
  }

  function DevDeactivate(s: Machine): Machine {
    CompleteDeactivation(s.(deactivating := true))
  }

  // ---------------------------------------------------------------- the framework contract

  function Chain(p: multiset<Op>): nat {
    Interrupts(p) + p[CaptureRead] + Rearms(p)
  }

  function Interrupts(p: multiset<Op>): nat {
    p[Interrupt(0)] + p[Interrupt(RELEASE_QUIET_MS)]
  }

  function Rearms(p: multiset<Op>): nat {
    p[RearmWrite] + p[RearmRead(2)] + p[RearmRead(SCAN_RESPONSE_LENGTH)]
  }

  /** AWAIT_FINGER_ON is announced to an active device only, once per activation or image, and never
      while an interrupt, a capture read or a re-arm transfer is outstanding. */
  predicate MayAnnounce(s: Machine) {
    s.fw.live && s.fw.due && Chain(s.pending) == 0
  }

  function Announce(s: Machine): Machine
  {
    ChangeState(s.(fw := s.fw.(due := false)), AwaitFingerOn)
  }

  function FrameworkDeactivate(s: Machine): Machine
  {
    DevDeactivate(s.(fw := s.fw.(live := false)))
  }

  /** A reaction the contract does not allow is no reaction. */
  function React(s: Machine, r: Reaction): Machine {
    match r
    case Nothing => s
    case AnnounceAwaitFingerOn => if MayAnnounce(s) then Announce(s) else s
    case DeactivateDevice => if s.fw.live then FrameworkDeactivate(s) else s
  }

  function ActivateComplete(s: Machine, ok: bool, r: Reaction): Machine {
    React(s.(h := s.h.(reports := s.h.reports + [ok]),
             fw := s.fw.(live := s.fw.live && ok, due := ok)), r)
  }

  function FailSessionOrDeactivate(s: Machine, r: Reaction): Machine {
    if s.deactivating then CompleteDeactivation(s) else React(Say(s, SessionError), r)
  }

  // ---------------------------------------------------------------- activation

  function InitRequest(stage: nat, config06: Message, scan: Message): Message {
    if stage == 0 then [0x1a]
    else if stage == 1 then [0x01]
    else if stage == 2 then [0x19]
    else if stage == 3 then [0x75]
    else if stage == 4 then Config39()
    else if stage == 5 then config06
    else scan
  }

  function InitSendStage(s: Machine): Machine {
    Write(s, InitRequest(s.initStage, s.config06, s.scan02), InitWrite)
  }

  function DevActivate(s: Machine, action: Action, stages: nat): Machine {
    s.(deactivating := false, initStage := 0, captureCount := 0, awaitingRelease := false,
       wakeRetryUsed := false,
       pending := s.pending + multiset{Control},
       fw := Framework(true, false, action, stages, 0),
       h := FreshHistory(s.scan02))
  }

  function HandshakeError(s: Machine, result: UsbResult, r: Reaction): Machine {
    if s.wakeRetryUsed || !result.NoDevice? then ActivateComplete(s, false, r)
    else
      Submit(s.(wakeRetryUsed := true, h := s.h.(mark := |s.h.out|, waits := s.h.waits + 1, done := [])), WakeTimer)
  }

  function Succeeded(s: Machine, op: Op): Machine {
    s.(h := s.h.(done := s.h.done + [op]))
  }

  function ControlCb(s: Machine, result: UsbResult, r: Reaction): Machine {
    if !result.Done? then HandshakeError(s, result, r)
    else if result.data != [0, 0] then ActivateComplete(s, false, r)
    else InitSendStage(Succeeded(s, Control))
  }

  function InitWriteCb(s: Machine, result: UsbResult, r: Reaction): Machine {
    if !result.Done? then HandshakeError(s, result, r)
    else if s.initStage >= |RESPONSE_LENGTHS| then s.(h := s.h.(outOfTable := true))
    else Submit(Succeeded(s, InitWrite), InitRead(RESPONSE_LENGTHS[s.initStage]))
  }

  function InitReadCb(s: Machine, length: nat, result: UsbResult, r: Reaction): Machine {
    if !result.Done? then HandshakeError(s, result, r)
    else
      var t := Succeeded(s, InitRead(length)).(initStage := s.initStage + 1);
      if t.initStage == INIT_STAGES then ActivateComplete(t, true, r) else InitSendStage(t)
  }

  function WakeTimerCb(s: Machine): Machine {
    if s.deactivating then s else Submit(s.(initStage := 0), Control)
  }

  // ---------------------------------------------------------------- touch, capture, release, re-arm

  function StartCapture(s: Machine): Machine {
    Write(Submit(s, CaptureRead), COMMAND_51, CaptureWrite)
  }

  predicate FingerOnEvent(data: Message) {
    |data| == 5 && data[0] == 0x03 && (data[1] == 0x42 || data[1] == 0x43) && data[2] == 0x04
  }

  function InterruptCb(s: Machine, result: UsbResult, r: Reaction): Machine {
    if result.Cancelled? then CompleteDeactivation(s)
    else if s.awaitingRelease && result.TimedOut? then
      React(Say(s.(awaitingRelease := false, h := s.h.(quiet := s.h.quiet + 1)), FingerStatus(false)), r)
    else if !result.Done? then FailSessionOrDeactivate(s, r)
    else if !FingerOnEvent(result.data) || s.awaitingRelease then StartInterrupt(s)
    else StartCapture(React(Say(s, FingerStatus(true)), r))
  }

  /** `dev_extract_print` after a successful extraction: the early finger-off report. */
  predicate EarlyFingerOff(s: Machine) {
    s.fw.action == Enroll && s.captureCount == s.fw.stages
  }

  function ExtractPrint(s: Machine, early: Reaction): Machine {
    if EarlyFingerOff(s) then React(Say(s, FingerStatus(false)), early) else s
  }

  /** The framework counts a stage when the print was extracted and appended to the gallery... */
  function CountStage(s: Machine, reply: Reply): Machine {
    if s.fw.action == Enroll && reply.extracted && reply.appended
    then s.(fw := s.fw.(enrollStage := s.fw.enrollStage + 1)) else s
  }

  /** ... and deactivates the device at the last stage. */
  function Verdict(s: Machine, reply: Reply): Reaction {
    if s.fw.action == Enroll && s.fw.enrollStage == s.fw.stages then DeactivateDevice else reply.last
  }

  function ProcessPrint(s: Machine, reply: Reply): Machine {
    var t := CountStage(s, reply);
    React(t, Verdict(t, reply))
  }

  function Handover(s: Machine, reply: Reply): Machine {
    if s.fw.action == Capture then React(s, reply.last)
    else ProcessPrint(if reply.extracted then ExtractPrint(s, reply.early) else s, reply)
  }

  function CountImage(s: Machine, raster: seq<byte>): Machine {
    var t := Say(s, ImageCaptured(raster));
    t.(h := t.h.(images := t.h.images + 1))
  }

  /** `fpi_image_device_image_captured`; an image that arrives after deactivation is dropped. */
  function DeliverImage(s: Machine, raster: seq<byte>, reply: Reply): Machine {
    var t := CountImage(s, raster);
    if t.fw.live then Handover(t.(fw := t.fw.(due := true)), reply) else t
  }

  function RasterOf(data: Message): seq<byte>
    requires DriverAccepts(data)
  {
    Raster.ColumnMajorToRaster(data[HEADER_SIZE..], IMAGE_WIDTH, IMAGE_HEIGHT)
  }

  /** Keep listening until finger-on events have stopped, so a held finger cannot satisfy two stages. */
  function FinishCapture(s: Machine, raster: seq<byte>, reply: Reply): Machine {
    var t := DeliverImage(s.(captureCount := s.captureCount + 1), raster, reply);
    StartInterrupt(t.(awaitingRelease := true))
  }

  function CaptureReadCb(s: Machine, result: UsbResult, reply: Reply): Machine {
    if !result.Done? || !DriverAccepts(result.data) then FailSessionOrDeactivate(s, reply.last)
    else FinishCapture(s, RasterOf(result.data), reply)
  }

  function CaptureWriteCb(s: Machine, result: UsbResult, r: Reaction): Machine {
    if result.Done? then s else FailSessionOrDeactivate(s, r)
  }

  function RearmWriteCb(s: Machine, result: UsbResult, r: Reaction): Machine {
    if !result.Done? then FailSessionOrDeactivate(s, r)
    else Submit(s, RearmRead(if s.rearmStage == 0 then 2 else SCAN_RESPONSE_LENGTH))
  }

  function RearmReadCb(s: Machine, result: UsbResult, r: Reaction): Machine {
    if !result.Done? then FailSessionOrDeactivate(s, r)
    else
      var t := s.(rearmStage := s.rearmStage + 1);
      if t.rearmStage == 2 then StartInterrupt(t) else RearmSendStage(t)
  }

  // ---------------------------------------------------------------- runs

  predicate HandshakeOp(op: Op) {
    op.Control? || op.WakeTimer? || op.InitWrite? || op.InitRead?
  }

  /** `dev_open` succeeded: the blobs are loaded and nothing was started. */
  function Opened(config06: Message, scan: Message): Machine {
    Machine(0, 0, 0, false, false, false, config06, scan, multiset{},
            Framework(false, false, Capture, 0, 0), FreshHistory(scan))
  }

  /** How a transfer can end: an interrupt without a timeout does not time out, and a command read with fewer
      bytes than it asked for is an error, because `short_is_error` is set. (The callbacks of the other reads
      check the length themselves, so any length may reach them.) */
  predicate Possible(op: Op, result: UsbResult) {
    match result
    case TimedOut => op != Interrupt(0)
    case Done(data) => op.InitRead? || op.RearmRead? ==> |data| == op.length
    case _ => true
  }

  predicate Enabled(s: Machine, e: Event) {
    match e
    case Activate(_, _) => s.pending == multiset{} && !s.fw.live
    case Completed(op, result, _) => op in s.pending && !op.WakeTimer? && Possible(op, result)
    case TimerFired => WakeTimer in s.pending
    case Notified(state) => state == AwaitFingerOn ==> MayAnnounce(s)
    case Deactivated => s.fw.live
  }

  function Dispatch(s: Machine, op: Op, result: UsbResult, reply: Reply): Machine
    requires !op.WakeTimer?
  {
    match op
    case Control => ControlCb(s, result, reply.last)
    case InitWrite => InitWriteCb(s, result, reply.last)
    case InitRead(length) => InitReadCb(s, length, result, reply.last)
    case Interrupt(_) => InterruptCb(s, result, reply.last)
    case CaptureRead => CaptureReadCb(s, result, reply)
    case CaptureWrite => CaptureWriteCb(s, result, reply.last)
    case RearmWrite => RearmWriteCb(s, result, reply.last)
    case RearmRead(_) => RearmReadCb(s, result, reply.last)
  }

  /** The completed operation leaves the outstanding ones before its callback runs. */
  function Take(s: Machine, op: Op): Machine {
    s.(pending := s.pending - multiset{op}, h := Tallied(s.h, op))
  }

  function Tallied(h: History, op: Op): History {
    h.(transfers := if HandshakeOp(op) && !op.WakeTimer? then h.transfers + 1 else h.transfers)
  }

  function Step(s: Machine, e: Event): Machine
    requires Enabled(s, e)
  {
    match e
    case Activate(action, stages) => DevActivate(s, action, stages)
    case Completed(op, result, reply) => Dispatch(Take(s, op), op, result, reply)
    case TimerFired => WakeTimerCb(Take(s, WakeTimer))
    case Notified(state) =>
      if state == AwaitFingerOn then Announce(s) else ChangeState(s, state)
    case Deactivated => FrameworkDeactivate(s)
  }

  ghost predicate Legal(s: Machine, es: seq<Event>)
    decreases |es|
  {
    es == [] || (Enabled(s, es[0]) && Legal(Step(s, es[0]), es[1..]))
  }

  ghost function Run(s: Machine, es: seq<Event>): Machine
    requires Legal(s, es)
    decreases |es|
  {
    if es == [] then s else Run(Step(s, es[0]), es[1..])
  }
}
