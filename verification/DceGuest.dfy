/** The reverse-event window of the DCE guest device: a pump thread, the MMIO write handler and
    the finalizer share one event slot, a sequence number, a level interrupt, two locks and a
    condition variable. Every access to shared state is one step, and a run is any sequence of
    steps, so a lemma about all runs covers every interleaving. */
module DceGuest {
  import opened Arithmetic
  import opened Environment

  const FWD_SIZE := 0x3000
  const DOORBELL := 0x2100
  const EVT_SEQ := 0x3000
  const EVT_IFACE := 0x3004
  const EVT_SIZ := 0x3008
  const EVT_ACK := 0x300c
  const EVT_MAX := 0x1000
  const MEM_SIZE := 0x5000

  // ---------- Little-endian memory ----------

  function Le(v: nat, size: nat): (bytes: seq<byte>)
    ensures |bytes| == size
  {
    if size == 0 then [] else [v % 0x100] + Le(v / 0x100, size - 1)
  }

  function Patch(mem: seq<byte>, at: nat, bytes: seq<byte>): (r: seq<byte>)
    requires at + |bytes| <= |mem|
    ensures |r| == |mem|
    ensures forall i | 0 <= i < |r| ::
      r[i] == if at <= i < at + |bytes| then bytes[i - at] else mem[i]
  {
    mem[..at] + bytes + mem[at + |bytes|..]
  }

  function Load32(mem: seq<byte>, at: nat): (v: u32)
    requires at + 4 <= |mem|
  {
    mem[at] as int + 0x100 * mem[at + 1] as int
    + 0x1_0000 * mem[at + 2] as int + 0x100_0000 * mem[at + 3] as int
  }

  function Store32(mem: seq<byte>, at: nat, v: u32): (r: seq<byte>)
    requires at + 4 <= |mem|
    ensures |r| == |mem|
  {
    Patch(mem, at, Le(v, 4))
  }

  /** A stored word is read back, and words elsewhere are untouched. */
  lemma Store32Load32(mem: seq<byte>, at: nat, v: u32)
    requires at + 4 <= |mem|
    ensures Load32(Store32(mem, at, v), at) == v
    ensures forall other: nat | other + 4 <= |mem| && (other + 4 <= at || at + 4 <= other) ::
      Load32(Store32(mem, at, v), other) == Load32(mem, other)
  {
    var b := Le(v, 4);
    assert b[0] == v % 0x100;
    assert b[1..] == Le(v / 0x100, 3) && b[1] == v / 0x100 % 0x100;
    assert b[1..][1..] == Le(v / 0x100 / 0x100, 2) && b[2] == v / 0x100 / 0x100 % 0x100;
    assert b[1..][1..][1..] == Le(v / 0x100 / 0x100 / 0x100, 1);
    assert b[3] == v / 0x100 / 0x100 / 0x100 % 0x100;
  }

  /** The number that little-endian bytes stand for. */
  function FromLe(bytes: seq<byte>): nat {
    if bytes == [] then 0 else bytes[0] as int + 0x100 * FromLe(bytes[1..])
  }

  /** How many numbers fit into `size` bytes. */
  function Capacity(size: nat): (p: nat)
    ensures p > 0
  {
    if size == 0 then 1 else 0x100 * Capacity(size - 1)
  }

  /** An access of any width carries the low-order bytes of its data. */
  lemma {:induction false} LeKeepsLowBytes(v: nat, size: nat)
    ensures FromLe(Le(v, size)) == v % Capacity(size)
  {
    if size == 0 {
    } else {
      LeKeepsLowBytes(v / 0x100, size - 1);
      assert Le(v, size)[1..] == Le(v / 0x100, size - 1);
      LowByteFirst(v, Capacity(size - 1));
    }
  }

  lemma LowByteFirst(v: nat, p: nat)
    requires p > 0
    ensures v % (0x100 * p) == v % 0x100 + 0x100 * (v / 0x100 % p)
  {
    var w := v / 0x100;
    var k := w / p;
    assert k * (0x100 * p) == 0x100 * (k * p);
    QuotientBounds(w, p);
    QuotientIs(v, 0x100 * p, k);
  }

  // ---------- Events ----------

  /** The event buffer as it stands after a successful read() from the host device. */
  datatype WireEvent = WireEvent(iface: u32, size: u32, data: seq<byte>)

  datatype HostEvent = HostEvent(iface: u32, payload: seq<byte>)

  type Wire = w: WireEvent | |w.data| == EVT_MAX witness WireEvent(0, 0, seq(EVT_MAX, _ => 0))

  /** The event proper: at most EVT_MAX payload bytes, whatever size the wire claims. */
  function Clip(w: Wire): (e: HostEvent)
    ensures |e.payload| <= EVT_MAX
  {
    HostEvent(w.iface, w.data[..if w.size > EVT_MAX then EVT_MAX else w.size])
  }

  // ---------- Control state ----------

  datatype Holder = Nobody | PumpThread | Vcpu | Finalizer | Elsewhere

  /** Where the pump thread is. */
  datatype PumpAt =
    | Top | Poll | LockBql | CopyPayload | StoreIface | StoreSize | BumpSeq | StoreSeq
    | LockEvt | ClearAcked | RaiseIrq | UnlockEvt | UnlockBql
    | WaitLock | TestAcked | TestStopping | EnterWait | Waiting | Relock | WaitUnlock
    | Exited

  /** Where the MMIO write handler is; it runs with the big lock held. */
  datatype HandlerAt =
    Idle | Dispatch | AckCompare | AckLower | AckLock | AckSet | AckSignal | AckUnlock | Release

  datatype FinalizerAt =
    NotStarted | SetStopping | FinLock | Broadcast | FinUnlock | Join | LowerIrq | Finished

  datatype Control = Control(
    irq: bool, acked: bool, stopping: bool,
    bql: Holder, evtLock: Holder,
    pump: PumpAt, handler: HandlerAt, fin: FinalizerAt,
    read: nat,          // history: events read from the host,
    published: nat,     // sequence numbers given out, and
    acknowledged: nat)  // events acknowledged for the first time

  /** The pump publishes under the big lock. */
  predicate HasBql(p: PumpAt) {
    || p.CopyPayload? || p.StoreIface? || p.StoreSize? || p.BumpSeq? || p.StoreSeq?
    || p.LockEvt? || p.ClearAcked? || p.RaiseIrq? || p.UnlockEvt? || p.UnlockBql?
  }

  function Wake(p: PumpAt): PumpAt {
    if p.Waiting? then Relock else p
  }

  /** A step of the pump that publishes, from copying the payload to dropping the big lock;
      `copied` when no payload byte is left to copy. */
  function PublishStep(c: Control, copied: bool): (c': Control)
    ensures c'.read == c.read
    ensures c'.published == c.published + (if c.pump.BumpSeq? then 1 else 0)
    ensures Carries(c'.pump) ==> Carries(c.pump)
    ensures c'.handler == c.handler && c'.fin == c.fin && c'.acknowledged == c.acknowledged
    ensures c'.acked == (c.acked && !c.pump.ClearAcked?)
  {
    match c.pump
    case CopyPayload => if copied then c.(pump := StoreIface) else c
    case StoreIface => c.(pump := StoreSize)
    case StoreSize => c.(pump := BumpSeq)
    case BumpSeq => c.(pump := StoreSeq, published := c.published + 1)
    case StoreSeq => c.(pump := LockEvt)
    case LockEvt => if c.evtLock.Nobody? then c.(evtLock := PumpThread, pump := ClearAcked) else c
    case ClearAcked => c.(acked := false, pump := RaiseIrq)
    case RaiseIrq => c.(irq := true, pump := UnlockEvt)
    case UnlockEvt => c.(evtLock := Nobody, pump := UnlockBql)
    case UnlockBql => c.(bql := Nobody, pump := WaitLock)
    case _ => c
  }

  /** A step of the pump without the big lock: waiting for the acknowledgement, then for the
      next event; `got` when poll and read deliver one. */
  function AwaitStep(c: Control, got: bool): (c': Control)
    ensures c'.read == c.read + (if c.pump.Poll? && got then 1 else 0)
    ensures c'.published == c.published
    ensures Carries(c'.pump) ==> Carries(c.pump) || (c.pump.Poll? && got)
    ensures c'.handler == c.handler && c'.fin == c.fin && c'.acknowledged == c.acknowledged
    ensures c'.acked == c.acked
  {
    match c.pump
    case WaitLock => if c.evtLock.Nobody? then c.(evtLock := PumpThread, pump := TestAcked) else c
    case TestAcked => c.(pump := if c.acked then WaitUnlock else TestStopping)
    case TestStopping => c.(pump := if c.stopping then WaitUnlock else EnterWait)
    case EnterWait => c.(evtLock := Nobody, pump := Waiting)
    case Waiting => c.(pump := Relock)  // a spurious wakeup; signals are steps of the wakers
    case Relock => if c.evtLock.Nobody? then c.(evtLock := PumpThread, pump := TestAcked) else c
    case WaitUnlock => c.(evtLock := Nobody, pump := Top)
    case Top => c.(pump := if c.stopping then Exited else Poll)
    case Poll => if got then c.(pump := LockBql, read := c.read + 1) else c.(pump := Top)
    case LockBql => if c.bql.Nobody? then c.(bql := PumpThread, pump := CopyPayload) else c
    case _ => c
  }

  /** One step of the pump. A step that needs a taken lock does nothing. */
  function PumpStep(c: Control, got: bool, copied: bool): (c': Control)
    ensures c'.read == c.read + (if c.pump.Poll? && got then 1 else 0)
    ensures c'.published == c.published + (if c.pump.BumpSeq? then 1 else 0)
    ensures Carries(c'.pump) ==> Carries(c.pump) || (c.pump.Poll? && got)
    ensures c'.handler == c.handler && c'.fin == c.fin && c'.acknowledged == c.acknowledged
    ensures c'.acked == (c.acked && !c.pump.ClearAcked?)
  {
    if HasBql(c.pump) then PublishStep(c, copied) else AwaitStep(c, got)
  }

  /** One step of the write handler: `toAck` when it writes the acknowledge register, `matches`
      when that register then holds the current sequence number. */
  function HandlerStep(c: Control, toAck: bool, matches: bool): (c': Control)
    ensures c'.read == c.read && c'.published == c.published
    ensures Carries(c'.pump) ==> Carries(c.pump)
    ensures c'.acked == (c.acked || c.handler.AckSet?)
    ensures c'.acknowledged == c.acknowledged + (if c.handler.AckSet? && !c.acked then 1 else 0)
  {
    match c.handler
    case Idle => if c.bql.Nobody? then c.(bql := Vcpu, handler := Dispatch) else c
    case Dispatch => c.(handler := if toAck then AckCompare else Release)
    case AckCompare => c.(handler := if matches then AckLower else Release)
    case AckLower => c.(irq := false, handler := AckLock)
    case AckLock => if c.evtLock.Nobody? then c.(evtLock := Vcpu, handler := AckSet) else c
    case AckSet =>
      c.(acked := true, handler := AckSignal,
         acknowledged := if c.acked then c.acknowledged else c.acknowledged + 1)
    case AckSignal => c.(pump := Wake(c.pump), handler := AckUnlock)
    case AckUnlock => c.(evtLock := Nobody, handler := Release)
    case Release => c.(bql := Nobody, handler := Idle)
  }

  function FinalizerStep(c: Control): (c': Control)
    ensures c'.read == c.read && c'.published == c.published
    ensures Carries(c'.pump) ==> Carries(c.pump)
  {
    match c.fin
    case NotStarted => c.(fin := SetStopping)
    case SetStopping => c.(stopping := true, fin := FinLock)
    case FinLock => if c.evtLock.Nobody? then c.(evtLock := Finalizer, fin := Broadcast) else c
    case Broadcast => c.(pump := Wake(c.pump), fin := FinUnlock)
    case FinUnlock => c.(evtLock := Nobody, fin := Join)
    case Join => if c.pump.Exited? then c.(fin := LowerIrq) else c
    case LowerIrq => c.(irq := false, fin := Finished)
    case Finished => c
  }

  /** The rest of the emulator takes the big lock, or drops it. */
  function OtherStep(c: Control): (c': Control)
    ensures c' == c.(bql := c'.bql)
  {
    if c.bql.Nobody? then c.(bql := Elsewhere)
    else if c.bql.Elsewhere? then c.(bql := Nobody)
    else c
  }

  // ---------- Control invariant ----------

  ghost predicate HasEvtLock(p: PumpAt) {
    || p.ClearAcked? || p.RaiseIrq? || p.UnlockEvt?
    || p.TestAcked? || p.TestStopping? || p.EnterWait? || p.WaitUnlock?
  }

  /** An event has been read that has no sequence number yet. */
  ghost predicate Carries(p: PumpAt) {
    p.LockBql? || p.CopyPayload? || p.StoreIface? || p.StoreSize? || p.BumpSeq?
  }

  /** A sequence number has been given out to an event that is not armed yet. */
  ghost predicate Arms(p: PumpAt) {
    p.StoreSeq? || p.LockEvt? || p.ClearAcked?
  }

  ghost predicate Locks(c: Control) {
    && (c.bql.PumpThread? <==> HasBql(c.pump))
    && (c.bql.Vcpu? <==> !c.handler.Idle?)
    && !c.bql.Finalizer? && !c.evtLock.Elsewhere?
    && (c.evtLock.PumpThread? <==> HasEvtLock(c.pump))
    && (c.evtLock.Vcpu? <==> c.handler.AckSet? || c.handler.AckSignal? || c.handler.AckUnlock?)
    && (c.evtLock.Finalizer? <==> c.fin.Broadcast? || c.fin.FinUnlock?)
  }

  ghost predicate Handshake(c: Control) {
    // The pump fetches a new event only once the last one is acknowledged.
    && (c.pump.Top? || c.pump.WaitUnlock? ==> c.acked || c.stopping)
    && (c.pump.Poll? || Carries(c.pump) || Arms(c.pump) ==> c.acked)
    && (c.pump.TestStopping? || c.pump.EnterWait? || c.pump.RaiseIrq? ==> !c.acked)
    // The interrupt line follows the acknowledgement.
    && (c.irq ==> !c.acked)
    && (!c.acked && !c.irq ==>
          c.pump.RaiseIrq? || c.handler.AckLock? || c.handler.AckSet? || c.fin.Finished?)
    && (c.handler.AckLock? || c.handler.AckSet? ==> !c.irq)
    && (c.handler.AckSignal? || c.handler.AckUnlock? ==> c.acked)
  }

  ghost predicate Wakeups(c: Control) {
    && (c.stopping <==> !c.fin.NotStarted? && !c.fin.SetStopping?)
    && (c.pump.EnterWait? ==> c.fin.NotStarted? || c.fin.SetStopping? || c.fin.FinLock?)
    && (c.pump.Waiting? ==> !c.acked || c.handler.AckSignal?)
    && (c.pump.Waiting? ==>
          c.fin.NotStarted? || c.fin.SetStopping? || c.fin.FinLock? || c.fin.Broadcast?)
    && (c.fin.LowerIrq? || c.fin.Finished? ==> c.pump.Exited?)
    && (c.pump.Exited? ==> c.stopping)
    && (c.fin.Finished? ==> !c.irq)
  }

  ghost predicate Counts(c: Control) {
    && c.read == c.published + (if Carries(c.pump) then 1 else 0)
    && c.published == c.acknowledged + (if !c.acked || Arms(c.pump) then 1 else 0)
  }

  ghost predicate ControlInv(c: Control) {
    Locks(c) && Handshake(c) && Wakeups(c) && Counts(c)
  }

  lemma PublishKeepsControl(c: Control, copied: bool)
    requires ControlInv(c)
    ensures ControlInv(PublishStep(c, copied))
  {
    match c.pump
    case CopyPayload =>
    case StoreIface =>
    case StoreSize =>
    case BumpSeq =>
    case StoreSeq =>
    case LockEvt =>
    case ClearAcked =>
    case RaiseIrq =>
    case UnlockEvt =>
    case UnlockBql =>
    case _ =>
  }

  lemma AwaitKeepsControl(c: Control, got: bool)
    requires ControlInv(c)
    ensures ControlInv(AwaitStep(c, got))
  {
    match c.pump
    case WaitLock =>
    case TestAcked =>
    case TestStopping =>
    case EnterWait =>
    case Waiting =>
    case Relock =>
    case WaitUnlock =>
    case Top =>
    case Poll =>
    case LockBql =>
    case _ =>
  }

  lemma PumpKeepsControl(c: Control, got: bool, copied: bool)
    requires ControlInv(c)
    ensures ControlInv(PumpStep(c, got, copied))
  {
    if HasBql(c.pump) {
      PublishKeepsControl(c, copied);
    } else {
      AwaitKeepsControl(c, got);
    }
  }

  lemma HandlerKeepsControl(c: Control, toAck: bool, matches: bool)
    requires ControlInv(c)
    ensures ControlInv(HandlerStep(c, toAck, matches))
  {
    match c.handler
    case Idle =>
    case Dispatch =>
    case AckCompare =>
    case AckLower =>
    case AckLock =>
    case AckSet =>
    case AckSignal =>
    case AckUnlock =>
    case Release =>
  }

  lemma FinalizerKeepsControl(c: Control)
    requires ControlInv(c)
    ensures ControlInv(FinalizerStep(c))
  {
    match c.fin
    case NotStarted =>
    case SetStopping =>
    case FinLock =>
    case Broadcast =>
    case FinUnlock =>
    case Join =>
    case LowerIrq =>
    case Finished =>
  }

  lemma OtherKeepsControl(c: Control)
    requires ControlInv(c)
    ensures ControlInv(OtherStep(c))
  {
  }

  // ---------- The device ----------

  datatype Request = Request(addr: nat, data: nat, size: nat)

  datatype Device = Device(
    ctl: Control,
    mem: seq<byte>,            // control words; the payload page is an overlay of RAM
    payload: seq<byte>,
    seqNo: u32,
    ev: HostEvent, copied: nat,  // the pump's local event and how much of it is published
    request: Request,            // the access being handled
    hostRead: seq<HostEvent>)    // history: every event read from the host

  const Initial := Device(
    Control(false, true, false, Nobody, Nobody, Top, Idle, NotStarted, 0, 0, 0),
    Zeros(MEM_SIZE), Zeros(EVT_MAX), 0, HostEvent(0, []), 0, Request(0, 0, 1), [])

  ghost predicate Sized(d: Device) {
    |d.mem| == MEM_SIZE && |d.payload| == EVT_MAX && |d.ev.payload| <= EVT_MAX
  }

  /** The pump's effect on memory; `input` is what poll and read deliver, if anything. */
  function PumpActs(d: Device, input: Option<Wire>): (d': Device)
    requires Sized(d)
    ensures Sized(d')
    ensures d'.ctl == PumpStep(d.ctl, input.Some?, d.copied >= |d.ev.payload|)
    ensures d'.request == d.request && d.hostRead <= d'.hostRead
    ensures !HasBql(d.ctl.pump) ==> d'.mem == d.mem
    ensures !d.ctl.pump.Poll? ==> d'.ev == d.ev
    ensures !d.ctl.pump.BumpSeq? ==> d'.seqNo == d.seqNo
  {
    var done := d.copied >= |d.ev.payload|;
    var moved := d.(ctl := PumpStep(d.ctl, input.Some?, done));
    match d.ctl.pump
    case Poll =>
      if input.None? then moved
      else moved.(ev := Clip(input.value), copied := 0, hostRead := d.hostRead + [Clip(input.value)])
    case CopyPayload =>
      if done then moved
      else moved.(payload := d.payload[d.copied := d.ev.payload[d.copied]], copied := d.copied + 1)
    case StoreIface => moved.(mem := Store32(d.mem, EVT_IFACE, d.ev.iface))
    case StoreSize => moved.(mem := Store32(d.mem, EVT_SIZ, |d.ev.payload|))
    case BumpSeq => moved.(seqNo := (d.seqNo + 1) % U32_MODULUS)
    case StoreSeq => moved.(mem := Store32(d.mem, EVT_SEQ, d.seqNo))
    case _ => moved
  }

  /** A guest access enters the write handler, which runs under the big lock. */
  function GuestWrites(d: Device, r: Request): Device {
    if d.ctl.handler.Idle? && d.ctl.bql.Nobody? && 1 <= r.size <= 8
    then d.(ctl := HandlerStep(d.ctl, false, false), request := r)
    else d
  }

  predicate InWindow(r: Request) {
    r.addr + r.size <= MEM_SIZE
  }

  /** The handler's effect on memory. Ringing the doorbell leaves `window` in the forward window:
      what the forward path does beyond that is not part of this model. */
  function HandlerActs(d: Device, window: seq<byte>): (d': Device)
    requires Sized(d)
    ensures Sized(d')
  {
    var r := d.request;
    var c := HandlerStep(d.ctl, InWindow(r) && r.addr == EVT_ACK, Load32(d.mem, EVT_ACK) == d.seqNo);
    match d.ctl.handler
    case Idle => d
    case Dispatch =>
      if !InWindow(r) then d.(ctl := c)
      else if r.addr == DOORBELL then
        d.(ctl := c, mem := if |window| == FWD_SIZE then Patch(d.mem, 0, window) else d.mem)
      else d.(ctl := c, mem := Patch(d.mem, r.addr, Le(r.data, r.size)))
    case _ => d.(ctl := c)
  }

  /** What may happen next: a step of one thread, a guest access to the window or straight to
      the payload RAM, or the rest of the emulator taking or dropping the big lock. */
  datatype Action =
    | PumpTurn(input: Option<Wire>)
    | GuestWrite(request: Request)
    | HandlerTurn(window: seq<byte>)
    | GuestPoke(offset: nat, value: byte)
    | FinalizerTurn
    | OtherTurn

  function Step(d: Device, a: Action): (d': Device)
    requires Sized(d)
    ensures Sized(d')
  {
    match a
    case PumpTurn(input) => PumpActs(d, input)
    case GuestWrite(request) => GuestWrites(d, request)
    case HandlerTurn(window) => HandlerActs(d, window)
    case GuestPoke(offset, value) =>
      if offset < EVT_MAX then d.(payload := d.payload[offset := value]) else d
    case FinalizerTurn => d.(ctl := FinalizerStep(d.ctl))
    case OtherTurn => d.(ctl := OtherStep(d.ctl))
  }

  ghost predicate Inv(d: Device) {
    Sized(d) && ControlInv(d.ctl) && Recorded(d) && AckHeld(d)
  }

  /** The acknowledgement that the handler is acting on is of the number published last. */
  ghost predicate AckHeld(d: Device)
    requires Sized(d)
  {
    d.ctl.handler.AckLower? || d.ctl.handler.AckLock? || d.ctl.handler.AckSet? ==>
      Load32(d.mem, EVT_ACK) == d.seqNo
  }

  /** The counters and the event in hand agree with the history. */
  ghost predicate Recorded(d: Device)
    requires Sized(d)
  {
    && d.seqNo == d.ctl.published % U32_MODULUS
    && |d.hostRead| == d.ctl.read
    && (Carries(d.ctl.pump) ==> d.ctl.read > 0 && d.ev == d.hostRead[d.ctl.read - 1])
  }

  lemma PumpKeepsRecord(d: Device, input: Option<Wire>)
    requires Sized(d) && Recorded(d)
    ensures Recorded(PumpActs(d, input))
  {
    match d.ctl.pump
    case Poll =>
    case BumpSeq =>
    case _ =>
  }

  lemma PumpKeepsInv(d: Device, input: Option<Wire>)
    requires Inv(d)
    ensures Inv(PumpActs(d, input))
  {
    PumpKeepsControl(d.ctl, input.Some?, d.copied >= |d.ev.payload|);
    PumpKeepsRecord(d, input);
  }

  lemma HandlerKeepsInv(d: Device, window: seq<byte>)
    requires Inv(d)
    ensures Inv(HandlerActs(d, window))
  {
    HandlerKeepsControl(d.ctl, InWindow(d.request) && d.request.addr == EVT_ACK,
                        Load32(d.mem, EVT_ACK) == d.seqNo);
    HandlerHoldsAck(d, window);
  }

  lemma HandlerHoldsAck(d: Device, window: seq<byte>)
    requires Sized(d) && AckHeld(d)
    ensures AckHeld(HandlerActs(d, window))
  {
    match d.ctl.handler
    case Dispatch =>
    case _ =>
  }

  lemma StepKeepsInv(d: Device, a: Action)
    requires Inv(d)
    ensures Inv(Step(d, a))
  {
    match a
    case PumpTurn(input) => PumpKeepsInv(d, input);
    case HandlerTurn(window) => HandlerKeepsInv(d, window);
    case GuestWrite(_) => HandlerKeepsControl(d.ctl, false, false);
    case FinalizerTurn => FinalizerKeepsControl(d.ctl);
    case OtherTurn => OtherKeepsControl(d.ctl);
    case GuestPoke(_, _) =>
  }

  /** The state after a run of any steps of any threads in any order. */
  function Run(actions: seq<Action>): (d: Device)
    ensures Sized(d)
  {
    if actions == [] then Initial
    else Step(Run(actions[..|actions| - 1]), actions[|actions| - 1])
  }

  lemma {:induction false} RunKeepsInv(actions: seq<Action>)
    ensures Inv(Run(actions))
  {
    if actions == [] {
    } else {
      RunKeepsInv(actions[..|actions| - 1]);
      StepKeepsInv(Run(actions[..|actions| - 1]), actions[|actions| - 1]);
    }
  }

  // ---------- What holds for every guest ----------

  /** Whenever nobody holds the big lock, the interrupt is high exactly while an event is
      unacknowledged, and at most one event is. */
  lemma InterruptFollowsEvents(actions: seq<Action>)
    ensures var c := Run(actions).ctl;
      c.bql.Nobody? && !c.fin.Finished? ==>
        && c.irq == !c.acked
        && c.published == c.acknowledged + (if c.irq then 1 else 0)
  {
    RunKeepsInv(actions);
  }

  /** A waiting pump that nobody is about to wake has an unacknowledged event, and a finalizer
      that may already have raised `stopping` has yet to broadcast. */
  lemma NoLostWakeup(actions: seq<Action>)
    ensures var c := Run(actions).ctl;
      c.pump.Waiting? && !c.handler.AckSignal? && !c.fin.Broadcast? ==>
        && !c.acked
        && (c.fin.NotStarted? || c.fin.SetStopping? || c.fin.FinLock?)
        && (c.bql.Nobody? ==> c.irq)
  {
    RunKeepsInv(actions);
  }

  /** Wakeups may be spurious, so all of this holds for a condition variable that wakes at will. */
  lemma WakeupsMayBeSpurious(d: Device)
    requires Inv(d) && d.ctl.pump.Waiting?
    ensures Step(d, PumpTurn(None)) == d.(ctl := d.ctl.(pump := Relock))
  {
  }

  /** A finalized device is silent: its thread has ended and its interrupt is low. */
  lemma FinalizedIsQuiet(actions: seq<Action>)
    ensures var c := Run(actions).ctl;
      c.fin.Finished? ==> c.pump.Exited? && c.stopping && !c.irq
  {
    RunKeepsInv(actions);
  }

  // ---------- What a guest write does ----------

  /** Whatever a guest does, a step acknowledges an event, or lowers the interrupt before the end,
      only while the acknowledge register holds the number published last. */
  lemma OnlyTheNumberAcknowledges(actions: seq<Action>, a: Action)
    ensures
      var d, d' := Run(actions), Step(Run(actions), a);
      var matches := Load32(d.mem, EVT_ACK) == d.seqNo;
      && (d'.ctl.acknowledged > d.ctl.acknowledged ==> matches)
      && (d'.ctl.acked && !d.ctl.acked ==> matches)
      && (d.ctl.irq && !d'.ctl.irq ==> matches || a.FinalizerTurn?)
  {
    var d := Run(actions);
    RunKeepsInv(actions);
    match a
    case PumpTurn(input) =>
      PumpAcknowledgesNothing(d.ctl, input.Some?, d.copied >= |d.ev.payload|);
    case GuestWrite(_) => GuestAcknowledgesNothing(d.ctl);
    case HandlerTurn(window) => HandlerNeedsNumber(d, window);
    case GuestPoke(_, _) =>
    case FinalizerTurn => FinalizerOnlyLowers(d.ctl);
    case OtherTurn =>
  }

  ghost predicate NothingAcknowledged(c: Control, c': Control) {
    c'.acknowledged == c.acknowledged && (c'.acked ==> c.acked) && (c.irq ==> c'.irq)
  }

  lemma PumpAcknowledgesNothing(c: Control, got: bool, copied: bool)
    ensures NothingAcknowledged(c, PumpStep(c, got, copied))
  {
    match c.pump
    case RaiseIrq =>
    case ClearAcked =>
    case _ =>
  }

  lemma GuestAcknowledgesNothing(c: Control)
    ensures c.handler.Idle? ==> NothingAcknowledged(c, HandlerStep(c, false, false))
  {
  }

  lemma FinalizerOnlyLowers(c: Control)
    ensures FinalizerStep(c).acknowledged == c.acknowledged && FinalizerStep(c).acked == c.acked
  {
    match c.fin
    case LowerIrq =>
    case _ =>
  }

  lemma HandlerNeedsNumber(d: Device, window: seq<byte>)
    requires Inv(d)
    ensures
      var c, c' := d.ctl, HandlerActs(d, window).ctl;
      c'.acknowledged > c.acknowledged || (c'.acked && !c.acked) || (c.irq && !c'.irq) ==>
        Load32(d.mem, EVT_ACK) == d.seqNo
  {
    match d.ctl.handler
    case AckLower =>
    case AckSet =>
    case _ =>
  }

  /** A write is taken up when the handler and the big lock are free, as it is; memory is left to
      the handler. A poke of the payload RAM takes neither. */
  lemma WriteIsTakenUp(d: Device, r: Request, offset: nat, value: byte)
    requires Inv(d) && 1 <= r.size <= 8 && offset < EVT_MAX
    ensures
      var d' := Step(d, GuestWrite(r));
      if d.ctl.handler.Idle? && d.ctl.bql.Nobody?
      then d' == d.(ctl := d.ctl.(bql := Vcpu, handler := Dispatch), request := r)
      else d' == d
    ensures
      var d' := Step(d, GuestPoke(offset, value));
      d'.payload[offset] == value && d'.ctl == d.ctl && d'.mem == d.mem
  {
  }

  /** A write inside the window is stored where it says, one outside changes no memory, and the
      doorbell changes at most the forward window. None but an acknowledgement goes on to
      anything else. */
  lemma WriteIsStored(d: Device, window: seq<byte>)
    requires Inv(d) && d.ctl.handler.Dispatch?
    ensures
      var r, d' := d.request, HandlerActs(d, window);
      && (r.addr + r.size > MEM_SIZE ==> d'.mem == d.mem)
      && (r.addr + r.size <= MEM_SIZE && r.addr != DOORBELL ==>
            && d'.mem[r.addr..r.addr + r.size] == Le(r.data, r.size)
            && forall i | 0 <= i < MEM_SIZE && !(r.addr <= i < r.addr + r.size) ::
                 d'.mem[i] == d.mem[i])
      && (r.addr + r.size <= MEM_SIZE && r.addr == DOORBELL ==>
            && (|window| == FWD_SIZE ==> d'.mem[..FWD_SIZE] == window)
            && forall i | FWD_SIZE <= i < MEM_SIZE :: d'.mem[i] == d.mem[i])
      && (r.addr != EVT_ACK || r.addr + r.size > MEM_SIZE ==> d'.ctl == d.ctl.(handler := Release))
  {
  }

  /** A write of a whole word to the acknowledge register sets it; a write of one byte sets the
      low-order one and leaves the others. */
  lemma NumberIsStored(d: Device)
    requires Inv(d) && d.ctl.handler.Dispatch? && d.request.addr == EVT_ACK
    requires d.request.size <= 4
    ensures
      var v, size := d.request.data, d.request.size;
      var number := Load32(HandlerActs(d, []).mem, EVT_ACK);
      && (size == 4 && v < U32_MODULUS ==> number == v)
      && (size == 1 ==> number == v % 0x100 + 0x100 * (Load32(d.mem, EVT_ACK) / 0x100))
  {
    if d.request.size == 4 && d.request.data < U32_MODULUS {
      Store32Load32(d.mem, EVT_ACK, d.request.data);
    }
  }

  /** A write to the acknowledge register, of whatever width, that leaves a late or wrong number
      there is ignored. */
  lemma WrongNumberIsIgnored(d: Device)
    requires Inv(d) && d.ctl.handler.Dispatch?
    requires d.request.addr == EVT_ACK && EVT_ACK + d.request.size <= MEM_SIZE
    requires Load32(HandlerActs(d, []).mem, EVT_ACK) != d.seqNo
    ensures
      var d' := HandlerActs(HandlerActs(d, []), []);
      d'.ctl == d.ctl.(handler := Release) && d'.seqNo == d.seqNo && d'.payload == d.payload
  {
    assert HandlerActs(d, []).ctl == d.ctl.(handler := AckCompare);
  }

  /** One that leaves the number published last there acknowledges: if nobody is in the way, the
      handler lowers the interrupt, marks the event and counts it if it is the first time. */
  lemma RightNumberAcknowledges(d: Device)
    requires Inv(d) && d.ctl.handler.Dispatch? && d.ctl.evtLock.Nobody?
    requires d.request.addr == EVT_ACK && EVT_ACK + d.request.size <= MEM_SIZE
    requires Load32(HandlerActs(d, []).mem, EVT_ACK) == d.seqNo
    ensures
      var d2 := HandlerActs(HandlerActs(d, []), []);
      var c := HandlerActs(HandlerActs(HandlerActs(d2, []), []), []).ctl;
      && c.acked && !c.irq && c.handler.AckSignal?
      && c.acknowledged == d.ctl.acknowledged + (if d.ctl.acked then 0 else 1)
  {
    var d1 := HandlerActs(d, []);
    assert d1.ctl == d.ctl.(handler := AckCompare) && Load32(d1.mem, EVT_ACK) == d1.seqNo;
    var d2 := HandlerActs(d1, []);
    assert d2.ctl == d.ctl.(handler := AckLower);
    var d3 := HandlerActs(d2, []);
    assert d3.ctl == d.ctl.(handler := AckLock, irq := false);
    var d4 := HandlerActs(d3, []);
    assert d4.ctl == d.ctl.(handler := AckSet, irq := false, evtLock := Vcpu);
  }

  /** What the pump takes from the host: the event as it is on the wire, with no more payload
      than fits. */
  lemma EventIsTaken(d: Device, w: Wire)
    requires Sized(d) && d.ctl.pump.Poll?
    ensures
      var d' := PumpActs(d, Some(w));
      && d'.ctl.pump.LockBql? && d'.copied == 0
      && d'.hostRead == d.hostRead + [d'.ev] && d'.ev.iface == w.iface
      && (w.size <= EVT_MAX ==> d'.ev.payload == w.data[..w.size])
      && (w.size > EVT_MAX ==> d'.ev.payload == w.data)
  {
  }

  // ---------- The big lock is always released ----------

  function TurnOf(h: Holder): Action {
    match h
    case PumpThread => PumpTurn(None)
    case Vcpu => HandlerTurn([])
    case Finalizer => FinalizerTurn
    case _ => OtherTurn
  }

  /** The holder of the big lock wants the event lock and has to wait for it. */
  predicate Blocked(c: Control) {
    && !c.evtLock.Nobody?
    && ((c.bql.PumpThread? && c.pump.LockEvt?) || (c.bql.Vcpu? && c.handler.AckLock?))
  }

  /** Who has to move for the big lock to come free. */
  function Releaser(c: Control): Holder {
    if Blocked(c) then c.evtLock else c.bql
  }

  /** How many steps the handler has left. */
  function HandlerLeft(h: HandlerAt): nat {
    match h
    case Idle => 0
    case Dispatch => 8
    case AckCompare => 7
    case AckLower => 6
    case AckLock => 5
    case AckSet => 4
    case AckSignal => 3
    case AckUnlock => 2
    case Release => 1
  }

  /** How far the holder of the big lock is from dropping it. */
  function BqlDistance(c: Control): nat {
    match c.bql
    case Nobody => 0
    case Elsewhere => 1
    case Finalizer => 0
    case PumpThread => (
      match c.pump
      case CopyPayload => 10
      case StoreIface => 9
      case StoreSize => 8
      case BumpSeq => 7
      case StoreSeq => 6
      case LockEvt => 5
      case ClearAcked => 4
      case RaiseIrq => 3
      case UnlockEvt => 2
      case UnlockBql => 1
      case _ => 0)
    case Vcpu => HandlerLeft(c.handler)
  }

  /** How far the holder of the event lock is from dropping it, if it is somebody else. */
  function EvtDistance(c: Control): nat {
    match c.evtLock
    case PumpThread => if c.pump.TestAcked? then 3 else if c.pump.TestStopping? then 2 else 1
    case Finalizer => if c.fin.Broadcast? then 2 else 1
    case _ => 0
  }

  function ToCopy(d: Device): nat {
    if d.ctl.pump.CopyPayload? && d.copied < |d.ev.payload| then |d.ev.payload| - d.copied else 0
  }

  function LockDistance(c: Control): nat {
    4 * BqlDistance(c) + if Blocked(c) then EvtDistance(c) else 0
  }

  /** Decreases until the big lock is free, if only those it waits for move. */
  function Distance(d: Device): nat {
    LockDistance(d.ctl) + if d.ctl.bql.PumpThread? then ToCopy(d) else 0
  }

  lemma PumpReleases(d: Device)
    requires Inv(d) && Releaser(d.ctl).PumpThread?
    ensures Distance(PumpActs(d, None)) < Distance(d)
  {
    match d.ctl.pump
    case CopyPayload =>
    case LockEvt =>
    case EnterWait =>
    case WaitUnlock =>
    case _ =>
  }

  lemma HandlerStepReleases(c: Control, toAck: bool, matches: bool)
    requires ControlInv(c) && Releaser(c).Vcpu?
    ensures LockDistance(HandlerStep(c, toAck, matches)) < LockDistance(c)
    ensures !HandlerStep(c, toAck, matches).bql.PumpThread?
  {
    match c.handler
    case Dispatch =>
    case AckLock =>
    case _ =>
  }

  lemma HandlerReleases(d: Device)
    requires Inv(d) && Releaser(d.ctl).Vcpu?
    ensures Distance(HandlerActs(d, [])) < Distance(d)
  {
    var toAck := InWindow(d.request) && d.request.addr == EVT_ACK;
    HandlerStepReleases(d.ctl, toAck, Load32(d.mem, EVT_ACK) == d.seqNo);
  }

  /** No deadlock: whoever the big lock waits for can move, and every such move brings its release
      nearer. */
  lemma ReleaserMoves(d: Device)
    requires Inv(d) && !d.ctl.bql.Nobody?
    ensures Distance(Step(d, TurnOf(Releaser(d.ctl)))) < Distance(d)
  {
    match Releaser(d.ctl)
    case PumpThread => PumpReleases(d);
    case Vcpu => HandlerReleases(d);
    case Finalizer =>
    case Elsewhere =>
  }

  /** The state that `actions` lead to from `d`. */
  function From(d: Device, actions: seq<Action>): (d': Device)
    requires Sized(d)
    decreases |actions|
  {
    if actions == [] then d else From(Step(d, actions[0]), actions[1..])
  }

  lemma {:induction false} RunGoesOn(actions: seq<Action>, more: seq<Action>)
    ensures Run(actions + more) == From(Run(actions), more)
    decreases |more|
  {
    if more == [] {
      assert actions + more == actions;
    } else {
      assert (actions + [more[0]])[..|actions|] == actions;
      assert actions + more == actions + [more[0]] + more[1..];
      RunGoesOn(actions + [more[0]], more[1..]);
    }
  }

  predicate IsTurn(a: Action) {
    a == PumpTurn(None) || a == HandlerTurn([]) || a.FinalizerTurn? || a.OtherTurn?
  }

  lemma {:induction false} ReleasersFreeIt(d: Device) returns (more: seq<Action>)
    requires Inv(d)
    ensures From(d, more).ctl.bql.Nobody?
    ensures forall a :: a in more ==> IsTurn(a)
    decreases Distance(d)
  {
    if d.ctl.bql.Nobody? {
      more := [];
    } else {
      var a := TurnOf(Releaser(d.ctl));
      ReleaserMoves(d);
      StepKeepsInv(d, a);
      var rest := ReleasersFreeIt(Step(d, a));
      more := [a] + rest;
      assert more[1..] == rest;
    }
  }

  /** From every reachable state the big lock comes free, by steps of lock holders alone. */
  lemma BigLockComesFree(actions: seq<Action>) returns (more: seq<Action>)
    ensures Run(actions + more).ctl.bql.Nobody?
    ensures forall a :: a in more ==> IsTurn(a)
  {
    RunKeepsInv(actions);
    more := ReleasersFreeIt(Run(actions));
    RunGoesOn(actions, more);
  }

  // ---------- A guest that follows the protocol ----------

  datatype GuestAt = Sampling | ReadSeq | ReadIface | ReadSize | ReadPayload | SendAck | AwaitAck

  /** The guest driver with the values it has read so far and the events it has taken. */
  datatype Guest = Guest(
    at: GuestAt, seqNo: u32, iface: u32, size: nat, got: seq<byte>, received: seq<HostEvent>)

  datatype System = System(dev: Device, guest: Guest)

  const Boot := System(Initial, Guest(Sampling, 0, 0, 0, [], []))

  /** One step of the driver. A register read is an access under the big lock; the payload is
      plain RAM and is read byte by byte without it. */
  function GuestTurn(s: System): (s': System)
    requires Sized(s.dev)
    ensures Sized(s'.dev)
  {
    var g, d := s.guest, s.dev;
    var free := d.ctl.bql.Nobody?;
    match g.at
    case Sampling => if d.ctl.irq then s.(guest := g.(at := ReadSeq)) else s
    case ReadSeq =>
      if free then s.(guest := g.(at := ReadIface, seqNo := Load32(d.mem, EVT_SEQ))) else s
    case ReadIface =>
      if free then s.(guest := g.(at := ReadSize, iface := Load32(d.mem, EVT_IFACE))) else s
    case ReadSize =>
      if free then s.(guest := g.(at := ReadPayload, size := Load32(d.mem, EVT_SIZ), got := []))
      else s
    case ReadPayload =>
      if |g.got| < g.size && |g.got| < EVT_MAX
      then s.(guest := g.(got := g.got + [d.payload[|g.got|]]))
      else s.(guest := g.(at := SendAck, received := g.received + [HostEvent(g.iface, g.got)]))
    case SendAck =>
      if free && d.ctl.handler.Idle?
      then System(GuestWrites(d, Request(EVT_ACK, g.seqNo, 4)), g.(at := AwaitAck)) else s
    case AwaitAck => if d.ctl.handler.Idle? then s.(guest := g.(at := Sampling)) else s
  }

  /** The driver's steps interleave with those of the device, and with forward-path accesses of
      other processors; nobody else writes the event window. */
  datatype Turn =
    | Driver
    | Forward(request: Request)
    | DeviceTurn(action: Action)

  predicate Allowed(t: Turn) {
    match t
    case Driver => true
    case Forward(r) => r.addr + r.size <= FWD_SIZE
    case DeviceTurn(a) => !a.GuestWrite? && !a.GuestPoke?
  }

  function Advance(s: System, t: Turn): (s': System)
    requires Sized(s.dev)
    ensures Sized(s'.dev)
  {
    if !Allowed(t) then s
    else
      match t
      case Driver => GuestTurn(s)
      case Forward(r) => s.(dev := Step(s.dev, GuestWrite(r)))
      case DeviceTurn(a) => s.(dev := Step(s.dev, a))
  }

  /** The event slot as the guest sees it. */
  datatype Slot = Slot(seqNo: u32, iface: u32, size: u32, payload: seq<byte>)

  function SlotOf(d: Device): Slot
    requires Sized(d)
  {
    Slot(Load32(d.mem, EVT_SEQ), Load32(d.mem, EVT_IFACE), Load32(d.mem, EVT_SIZ), d.payload)
  }

  /** The slot holds the event `e`. */
  ghost predicate Holds(slot: Slot, e: HostEvent) {
    && slot.iface == e.iface && slot.size == |e.payload| <= |slot.payload|
    && slot.payload[..|e.payload|] == e.payload
  }

  /** How much of its event the pump at `p` has written to the slot. */
  ghost predicate Staged(p: PumpAt, slot: Slot, e: HostEvent, copied: nat) {
    && |e.payload| <= |slot.payload|
    && (p.LockBql? ==> copied == 0)
    && (p.CopyPayload? ==>
          copied <= |e.payload| && slot.payload[..copied] == e.payload[..copied])
    && (p.StoreIface? || p.StoreSize? ==> slot.payload[..|e.payload|] == e.payload)
    && (p.StoreSize? ==> slot.iface == e.iface)
    && (p.BumpSeq? ==> Holds(slot, e))
  }

  /** From the moment it is complete until it is acknowledged, the slot holds the event that was
      published last. */
  ghost predicate SlotInv(d: Device)
    requires Sized(d)
  {
    var p, slot := d.ctl.pump, SlotOf(d);
    && Staged(p, slot, d.ev, d.copied)
    && (Arms(p) || !d.ctl.acked ==>
          && Holds(slot, d.ev)
          && 0 < d.ctl.published <= |d.hostRead| && d.ev == d.hostRead[d.ctl.published - 1])
    && (p.LockEvt? || p.ClearAcked? || !d.ctl.acked ==> slot.seqNo == d.seqNo)
  }

  /** Each publishing step writes one part of the slot. */
  lemma PublishWritesSlot(d: Device, input: Option<Wire>)
    requires Inv(d) && HasBql(d.ctl.pump)
    ensures var d', slot := PumpActs(d, input), SlotOf(d);
      && SlotOf(d') == (
           match d.ctl.pump
           case CopyPayload =>
             if d.copied >= |d.ev.payload| then slot
             else slot.(payload := slot.payload[d.copied := d.ev.payload[d.copied]])
           case StoreIface => slot.(iface := d.ev.iface)
           case StoreSize => slot.(size := |d.ev.payload|)
           case StoreSeq => slot.(seqNo := d.seqNo)
           case _ => slot)
      && d'.ev == d.ev && d'.hostRead == d.hostRead
  {
    match d.ctl.pump
    case StoreIface => Store32Load32(d.mem, EVT_IFACE, d.ev.iface);
    case StoreSize => Store32Load32(d.mem, EVT_SIZ, |d.ev.payload|);
    case StoreSeq => Store32Load32(d.mem, EVT_SEQ, d.seqNo);
    case _ =>
  }

  lemma PublishKeepsSlot(d: Device, input: Option<Wire>)
    requires Inv(d) && SlotInv(d) && HasBql(d.ctl.pump)
    ensures SlotInv(PumpActs(d, input))
  {
    PublishWritesSlot(d, input);
    match d.ctl.pump
    case CopyPayload =>
    case StoreIface =>
    case StoreSize =>
    case BumpSeq =>
    case StoreSeq =>
    case _ =>
  }

  lemma AwaitKeepsSlot(d: Device, input: Option<Wire>)
    requires Inv(d) && SlotInv(d) && !HasBql(d.ctl.pump)
    ensures SlotInv(PumpActs(d, input))
  {
    match d.ctl.pump
    case Poll =>
    case LockBql =>
    case _ =>
  }

  /** The driver's acknowledgement is in the handler and has not taken effect yet. */
  ghost predicate AckPending(d: Device) {
    || (d.ctl.handler.Dispatch? && d.request.addr == EVT_ACK)
    || d.ctl.handler.AckCompare? || d.ctl.handler.AckLower?
    || d.ctl.handler.AckLock? || d.ctl.handler.AckSet?
  }

  ghost predicate AckDone(d: Device) {
    d.ctl.handler.AckSignal? || d.ctl.handler.AckUnlock?
  }

  ghost predicate Reading(g: Guest) {
    !g.at.Sampling? && !g.at.AwaitAck?
  }

  /** Only the driver acknowledges, and only the event in the slot. */
  ghost predicate AccessInv(s: System)
    requires Sized(s.dev)
  {
    var d, g := s.dev, s.guest;
    && (d.ctl.handler.Dispatch? ==>
          || d.request.addr + d.request.size <= FWD_SIZE
          || d.request == Request(EVT_ACK, d.seqNo, 4))
    && (d.ctl.handler.AckCompare? ==> Load32(d.mem, EVT_ACK) == d.seqNo)
    && (AckPending(d) || AckDone(d) ==> g.at.AwaitAck?)
    && (AckPending(d) || Reading(g) ==> !d.ctl.acked)
  }

  /** The driver's registers agree with the pump's event as far as it has read. */
  ghost predicate RegistersInv(s: System) {
    var d, g := s.dev, s.guest;
    && (Reading(g) && !g.at.ReadSeq? ==> g.seqNo == d.seqNo)
    && (g.at.ReadSize? || g.at.ReadPayload? ==> g.iface == d.ev.iface)
    && (g.at.ReadPayload? ==>
          && g.size == |d.ev.payload| && |g.got| <= g.size && g.got == d.ev.payload[..|g.got|])
  }

  /** The driver has taken exactly the first events read from the host. */
  ghost predicate HistoryInv(s: System) {
    var d, g := s.dev, s.guest;
    && g.received <= d.hostRead
    && |g.received| == d.ctl.acknowledged
         + (if g.at.SendAck? || (g.at.AwaitAck? && AckPending(d)) then 1 else 0)
  }

  ghost predicate SystemInv(s: System) {
    Inv(s.dev) && SlotInv(s.dev) && AccessInv(s) && RegistersInv(s) && HistoryInv(s)
  }

  /** A patch below the event window leaves the event window's words alone. */
  lemma ForwardPatch(mem: seq<byte>, at: nat, bytes: seq<byte>)
    requires |mem| == MEM_SIZE && at + |bytes| <= FWD_SIZE
    ensures var m := Patch(mem, at, bytes);
      forall w: nat | FWD_SIZE <= w && w + 4 <= MEM_SIZE :: Load32(m, w) == Load32(mem, w)
  {
  }

  lemma HandlerKeepsSlot(d: Device, window: seq<byte>)
    requires Inv(d)
    requires d.ctl.handler.Dispatch? ==>
      d.request.addr + d.request.size <= FWD_SIZE || d.request == Request(EVT_ACK, d.seqNo, 4)
    ensures var d' := HandlerActs(d, window);
      && SlotOf(d') == SlotOf(d)
      && d' == d.(ctl := d'.ctl, mem := d'.mem)
      && (d.ctl.handler.Dispatch? && d.request.addr == EVT_ACK ==>
            Load32(d'.mem, EVT_ACK) == d.seqNo)
  {
    if d.ctl.handler.Dispatch? {
      if d.request.addr == EVT_ACK {
        Store32Load32(d.mem, EVT_ACK, d.seqNo);
      } else {
        ForwardPatch(d.mem, d.request.addr, Le(d.request.data, d.request.size));
        if |window| == FWD_SIZE {
          ForwardPatch(d.mem, 0, window);
        }
      }
    }
  }

  /** Steps that only wake the pump or acknowledge preserve the slot invariant. */
  lemma SlotFrame(d: Device, d': Device)
    requires Sized(d) && Sized(d') && SlotInv(d) && SlotOf(d') == SlotOf(d)
    requires d'.ev == d.ev && d'.copied == d.copied && d'.hostRead == d.hostRead
    requires d'.seqNo == d.seqNo && d'.ctl.published == d.ctl.published
    requires d'.ctl.acked == d.ctl.acked || d'.ctl.acked
    requires d'.ctl.pump == d.ctl.pump || (d.ctl.pump.Waiting? && d'.ctl.pump.Relock?)
    ensures SlotInv(d')
  {
  }

  /** What the driver relies on survives any device step that leaves the guest-visible words,
      the acknowledgement and the handler as they are. */
  lemma QuietStep(s: System, d': Device)
    requires SystemInv(s) && Inv(d') && SlotInv(d')
    requires var d := s.dev;
      && d'.ctl.handler == d.ctl.handler && d'.request == d.request
      && d'.ctl.acknowledged == d.ctl.acknowledged && (!d.ctl.acked ==> !d'.ctl.acked)
      && d.hostRead <= d'.hostRead
      && (d.ctl.acked || (d'.ev == d.ev && d'.seqNo == d.seqNo))
      && (d.ctl.bql.Vcpu? ==>
            d'.seqNo == d.seqNo && Load32(d'.mem, EVT_ACK) == Load32(d.mem, EVT_ACK))
    ensures SystemInv(s.(dev := d'))
  {
  }

  lemma PumpKeepsSystem(s: System, input: Option<Wire>)
    requires SystemInv(s)
    ensures SystemInv(s.(dev := PumpActs(s.dev, input)))
  {
    var d := s.dev;
    PumpKeepsInv(d, input);
    if HasBql(d.ctl.pump) {
      PublishKeepsSlot(d, input);
    } else {
      AwaitKeepsSlot(d, input);
    }
    QuietStep(s, PumpActs(d, input));
  }

  lemma HandlerKeepsSystem(s: System, window: seq<byte>)
    requires SystemInv(s)
    ensures SystemInv(s.(dev := HandlerActs(s.dev, window)))
  {
    var d := s.dev;
    var d' := HandlerActs(d, window);
    HandlerKeepsInv(d, window);
    HandlerKeepsSlot(d, window);
    SlotFrame(d, d');
    match d.ctl.handler
    case Dispatch =>
    case AckCompare =>
    case AckSet =>
    case _ =>
  }

  lemma ForwardKeepsSystem(s: System, r: Request)
    requires SystemInv(s) && r.addr + r.size <= FWD_SIZE
    ensures SystemInv(s.(dev := GuestWrites(s.dev, r)))
  {
    HandlerKeepsControl(s.dev.ctl, false, false);
    SlotFrame(s.dev, GuestWrites(s.dev, r));
  }

  lemma DriverAcknowledges(s: System)
    requires SystemInv(s) && s.guest.at.SendAck?
    ensures SystemInv(GuestTurn(s))
  {
    HandlerKeepsControl(s.dev.ctl, false, false);
    SlotFrame(s.dev, GuestTurn(s).dev);
  }

  lemma DriverReads(s: System)
    requires SystemInv(s) && !s.guest.at.SendAck?
    ensures SystemInv(GuestTurn(s))
  {
    var d, g := s.dev, s.guest;
    if g.at.ReadPayload? && |g.got| == g.size {
      assert g.got == d.ev.payload;
      assert g.received + [d.ev] == d.hostRead[..d.ctl.published];
    }
  }

  lemma DriverKeepsSystem(s: System)
    requires SystemInv(s)
    ensures SystemInv(GuestTurn(s))
  {
    if s.guest.at.SendAck? {
      DriverAcknowledges(s);
    } else {
      DriverReads(s);
    }
  }

  lemma FinalizerKeepsSystem(s: System)
    requires SystemInv(s)
    ensures SystemInv(s.(dev := Step(s.dev, FinalizerTurn)))
  {
    FinalizerKeepsControl(s.dev.ctl);
    SlotFrame(s.dev, Step(s.dev, FinalizerTurn));
    QuietStep(s, Step(s.dev, FinalizerTurn));
  }

  lemma OtherKeepsSystem(s: System)
    requires SystemInv(s)
    ensures SystemInv(s.(dev := Step(s.dev, OtherTurn)))
  {
    OtherKeepsControl(s.dev.ctl);
    SlotFrame(s.dev, Step(s.dev, OtherTurn));
    QuietStep(s, Step(s.dev, OtherTurn));
  }

  lemma AdvanceKeepsSystem(s: System, t: Turn)
    requires SystemInv(s)
    ensures SystemInv(Advance(s, t))
  {
    if Allowed(t) {
      match t
      case Driver => DriverKeepsSystem(s);
      case Forward(r) => ForwardKeepsSystem(s, r);
      case DeviceTurn(PumpTurn(input)) => PumpKeepsSystem(s, input);
      case DeviceTurn(HandlerTurn(window)) => HandlerKeepsSystem(s, window);
      case DeviceTurn(FinalizerTurn) => FinalizerKeepsSystem(s);
      case DeviceTurn(OtherTurn) => OtherKeepsSystem(s);
      case _ =>
    }
  }

  /** The system after any interleaving of turns. */
  function Play(turns: seq<Turn>): (s: System)
    ensures Sized(s.dev)
  {
    if turns == [] then Boot
    else Advance(Play(turns[..|turns| - 1]), turns[|turns| - 1])
  }

  lemma {:induction false} PlayKeepsSystem(turns: seq<Turn>)
    ensures SystemInv(Play(turns))
  {
    if turns == [] {
    } else {
      PlayKeepsSystem(turns[..|turns| - 1]);
      AdvanceKeepsSystem(Play(turns[..|turns| - 1]), turns[|turns| - 1]);
    }
  }

  /** Delivery: what the driver receives is a prefix of what was read from the host, each event
      whole and once, with at most one event published but not received, and at most one more
      read but not published, whatever the 32-bit sequence number has wrapped to. */
  lemma DeliveredInOrder(turns: seq<Turn>)
    ensures var s := Play(turns);
      && s.guest.received <= s.dev.hostRead
      && |s.guest.received| <= s.dev.ctl.published <= |s.guest.received| + 1
      && s.dev.ctl.published <= |s.dev.hostRead| <= s.dev.ctl.published + 1
      && s.dev.seqNo == s.dev.ctl.published % U32_MODULUS
  {
    PlayKeepsSystem(turns);
  }

  /** The driver is never left waiting: an event it has not received raises the interrupt as soon
      as the big lock is free, and once it has all events the pump may fetch the next. */
  lemma DriverIsNotified(turns: seq<Turn>)
    ensures var s := Play(turns);
      s.dev.ctl.bql.Nobody? && !s.dev.ctl.fin.Finished? && s.guest.at.Sampling? ==>
        s.dev.ctl.irq == (|s.guest.received| < s.dev.ctl.published)
  {
    PlayKeepsSystem(turns);
  }
}
