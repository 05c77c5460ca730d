/** What the DCE guest device can always still do: shut down, and deliver the event it has. From
    every reachable state there is a schedule that gets there without help of the host. */
module DceProgress {
  import opened Environment
  import opened DceGuest

  // ---------- Shutting down ----------

  function FinalizerLeft(f: FinalizerAt): nat {
    match f
    case NotStarted => 7
    case SetStopping => 6
    case FinLock => 5
    case Broadcast => 4
    case FinUnlock => 3
    case Join => 2
    case LowerIrq => 1
    case Finished => 0
  }

  /** How many steps the pump has until it exits once it is to stop, but for copying. */
  function PumpToExit(p: PumpAt): nat {
    match p
    case Exited => 0
    case Top => 1
    case Poll => 2
    case WaitUnlock => 2
    case TestStopping => 3
    case TestAcked => 4
    case WaitLock => 5
    case Relock => 5
    case Waiting => 6
    case EnterWait => 7
    case UnlockBql => 6
    case UnlockEvt => 7
    case RaiseIrq => 8
    case ClearAcked => 9
    case LockEvt => 10
    case StoreSeq => 11
    case BumpSeq => 12
    case StoreSize => 13
    case StoreIface => 14
    case CopyPayload => 15
    case LockBql => 16
  }

  /** Payload bytes of the event in hand that are still to be copied. */
  function CopyLeft(d: Device): nat {
    if (d.ctl.pump.LockBql? || d.ctl.pump.CopyPayload?) && d.copied < |d.ev.payload|
    then |d.ev.payload| - d.copied else 0
  }

  predicate WantsEvtLock(p: PumpAt) {
    p.LockEvt? || p.WaitLock? || p.Relock?
  }

  /** Who has to move for the finalizer to get on. */
  function Mover(c: Control): Holder {
    if c.fin.FinLock? && !c.evtLock.Nobody? then c.evtLock
    else if c.fin.Join? && !c.pump.Exited? then
      if WantsEvtLock(c.pump) && !c.evtLock.Nobody? then c.evtLock
      else if c.pump.LockBql? && !c.bql.Nobody? then c.bql
      else PumpThread
    else Finalizer
  }

  /** The pump's part of what the finalizer waits for. */
  function PumpDelay(d: Device): nat {
    if d.ctl.fin.FinLock? then EvtHold(d.ctl.pump)
    else if d.ctl.fin.Join? then PumpToExit(d.ctl.pump) + CopyLeft(d)
    else 0
  }

  /** How many steps the pump holds the event lock for. */
  function EvtHold(p: PumpAt): nat {
    match p
    case ClearAcked => 3
    case RaiseIrq => 2
    case UnlockEvt => 1
    case TestAcked => 3
    case TestStopping => 2
    case EnterWait => 1
    case WaitUnlock => 1
    case _ => 0
  }

  function OthersDelay(c: Control): nat {
    HandlerLeft(c.handler) + if c.bql.Elsewhere? then 1 else 0
  }

  ghost predicate CloserToEnd(d': Device, d: Device) {
    var f, f' := FinalizerLeft(d.ctl.fin), FinalizerLeft(d'.ctl.fin);
    || f' < f
    || (f' == f && PumpDelay(d') < PumpDelay(d))
    || (f' == f && PumpDelay(d') == PumpDelay(d) && OthersDelay(d'.ctl) < OthersDelay(d.ctl))
  }

  lemma PumpMovesOn(d: Device)
    requires Inv(d) && Mover(d.ctl).PumpThread?
    ensures CloserToEnd(PumpActs(d, None), d)
  {
    var c, c' := d.ctl, PumpActs(d, None).ctl;
    assert c'.fin == c.fin;
    match c.pump
    case CopyPayload =>
    case LockBql =>
    case _ =>
  }

  lemma HandlerMovesOn(d: Device)
    requires Inv(d) && Mover(d.ctl).Vcpu?
    ensures CloserToEnd(HandlerActs(d, []), d)
  {
    match d.ctl.handler
    case Dispatch =>
    case AckSignal =>
    case _ =>
  }

  lemma FinalizerMovesOn(d: Device)
    requires Inv(d) && Mover(d.ctl).Finalizer? && !d.ctl.fin.Finished?
    ensures CloserToEnd(Step(d, FinalizerTurn), d)
  {
    match d.ctl.fin
    case FinLock =>
    case Join =>
    case _ =>
  }

  lemma MoverMoves(d: Device)
    requires Inv(d) && !d.ctl.fin.Finished?
    ensures CloserToEnd(Step(d, TurnOf(Mover(d.ctl))), d)
  {
    match Mover(d.ctl)
    case PumpThread => PumpMovesOn(d);
    case Vcpu => HandlerMovesOn(d);
    case Finalizer => FinalizerMovesOn(d);
    case Elsewhere =>
  }

  lemma {:induction false} MoversFinish(d: Device) returns (more: seq<Action>)
    requires Inv(d)
    ensures From(d, more).ctl.fin.Finished?
    ensures forall a :: a in more ==> IsTurn(a)
    decreases FinalizerLeft(d.ctl.fin), PumpDelay(d), OthersDelay(d.ctl)
  {
    if d.ctl.fin.Finished? {
      more := [];
    } else {
      var a := TurnOf(Mover(d.ctl));
      MoverMoves(d);
      StepKeepsInv(d, a);
      var rest := MoversFinish(Step(d, a));
      more := [a] + rest;
      assert more[1..] == rest;
    }
  }

  /** The join in the finalizer ends: from every reachable state, whatever the guest has written
      and wherever each thread is, the device can be shut down by steps of its own threads. */
  lemma FinalizationEnds(actions: seq<Action>) returns (more: seq<Action>)
    ensures Run(actions + more).ctl.fin.Finished?
    ensures forall a :: a in more ==> IsTurn(a)
  {
    RunKeepsInv(actions);
    more := MoversFinish(Run(actions));
    RunGoesOn(actions, more);
  }

  // ---------- Delivering ----------

  /** How many steps the pump has until it polls for the next event, but for copying. */
  function PumpToPoll(c: Control): nat {
    match c.pump
    case Poll => 0
    case Exited => 0
    case Top => 1
    case WaitUnlock => 2
    case TestAcked => if c.acked then 3 else 8
    case TestStopping => 7
    case EnterWait => 6
    case Waiting => 5
    case Relock => if c.acked then 4 else 9
    case WaitLock => 10
    case UnlockBql => 11
    case UnlockEvt => 12
    case RaiseIrq => 13
    case ClearAcked => 14
    case LockEvt => 15
    case StoreSeq => 16
    case BumpSeq => 17
    case StoreSize => 18
    case StoreIface => 19
    case CopyPayload => 20
    case LockBql => 21
  }

  /** How many steps the driver has until it samples with nothing left to take. */
  function DriverLeft(s: System): nat {
    var g := s.guest;
    var pending := |g.received| < |s.dev.hostRead|;
    match g.at
    case AwaitAck => if pending then EVT_MAX + 16 else 1
    case Sampling => if pending then EVT_MAX + 15 else 0
    case ReadSeq => EVT_MAX + 14
    case ReadIface => EVT_MAX + 13
    case ReadSize => EVT_MAX + 12
    case ReadPayload => 11 + if |g.got| < EVT_MAX then EVT_MAX - |g.got| else 0
    case SendAck => 10
  }

  function DeliveryLeft(s: System): nat {
    PumpToPoll(s.dev.ctl) + CopyLeft(s.dev) + OthersDelay(s.dev.ctl) + DriverLeft(s)
  }

  /** Whose turn brings delivery on. */
  function Next(s: System): Turn {
    var c := s.dev.ctl;
    if c.handler.AckLock? && !c.evtLock.Nobody? then DeviceTurn(PumpTurn(None))
    else if !c.handler.Idle? then DeviceTurn(HandlerTurn([]))
    else if c.bql.Elsewhere? then DeviceTurn(OtherTurn)
    else if c.bql.PumpThread? then DeviceTurn(PumpTurn(None))
    else if !s.guest.at.Sampling? || c.irq then Driver
    else DeviceTurn(PumpTurn(None))
  }

  /** Everything read is received and the pump is ready for the next event. */
  ghost predicate Delivered(s: System) {
    s.guest.received == s.dev.hostRead && s.guest.at.Sampling? && s.dev.ctl.pump.Poll?
    && !s.dev.ctl.irq
  }

  /** The one turn that brings nothing nearer is polling when there is nothing to poll for. */
  ghost predicate AtRest(s: System) {
    Next(s) == DeviceTurn(PumpTurn(None)) && s.dev.ctl.pump.Poll? && s.dev.ctl.handler.Idle?
  }

  lemma RestIsDelivered(s: System)
    requires SystemInv(s) && !s.dev.ctl.stopping && AtRest(s)
    ensures Delivered(s)
  {
  }

  ghost predicate CloserToRest(s': System, s: System) {
    && DeliveryLeft(s') < DeliveryLeft(s)
    && s'.dev.hostRead == s.dev.hostRead && s'.dev.ctl.stopping == s.dev.ctl.stopping
  }

  /** The pump has no lock to wait for and nothing to be woken from. */
  ghost predicate Unhindered(c: Control) {
    && !c.pump.Poll? && !c.pump.Waiting? && !c.pump.Exited?
    && (WantsEvtLock(c.pump) ==> c.evtLock.Nobody?)
    && (c.pump.LockBql? ==> c.bql.Nobody?)
    && (c.pump.Relock? ==> c.acked)
  }

  lemma PumpIsUnhindered(s: System)
    requires SystemInv(s) && !s.dev.ctl.stopping && !AtRest(s)
    requires Next(s) == DeviceTurn(PumpTurn(None))
    ensures Unhindered(s.dev.ctl)
  {
  }

  lemma PumpStepDelivers(c: Control, copied: bool)
    requires ControlInv(c) && !c.stopping && Unhindered(c)
    ensures
      var c' := PumpStep(c, false, copied);
      && OthersDelay(c') == OthersDelay(c) && c'.stopping == c.stopping
      && (if c.pump.CopyPayload? && !copied then c' == c else PumpToPoll(c') < PumpToPoll(c))
      && (c'.pump.CopyPayload? ==> c.pump.LockBql? || c.pump.CopyPayload?) && !c'.pump.LockBql?
  {
    match c.pump
    case TestAcked =>
    case TestStopping =>
    case _ =>
  }

  lemma PumpDelivers(s: System)
    requires SystemInv(s) && !s.dev.ctl.stopping && !AtRest(s)
    requires Next(s) == DeviceTurn(PumpTurn(None))
    ensures CloserToRest(Advance(s, Next(s)), s)
  {
    PumpIsUnhindered(s);
    PumpStepDelivers(s.dev.ctl, s.dev.copied >= |s.dev.ev.payload|);
    PumpOnlyCopies(s.dev);
  }

  lemma PumpOnlyCopies(d: Device)
    requires Sized(d)
    ensures
      var d' := PumpActs(d, None);
      && d'.hostRead == d.hostRead && d'.ev == d.ev
      && d'.copied == d.copied
           + (if d.ctl.pump.CopyPayload? && d.copied < |d.ev.payload| then 1 else 0)
  {
    match d.ctl.pump
    case CopyPayload =>
    case Poll =>
    case _ =>
  }

  lemma HandlerStepDelivers(c: Control, toAck: bool, matches: bool)
    requires ControlInv(c) && !c.handler.Idle?
    requires c.handler.AckLock? ==> c.evtLock.Nobody?
    ensures
      var c' := HandlerStep(c, toAck, matches);
      && PumpToPoll(c') + OthersDelay(c') < PumpToPoll(c) + OthersDelay(c)
      && (c'.pump == c.pump || c'.pump.Relock?) && c'.stopping == c.stopping
  {
    match c.handler
    case Dispatch =>
    case AckSet =>
    case AckSignal =>
    case _ =>
  }

  lemma HandlerDelivers(s: System)
    requires SystemInv(s) && !s.dev.ctl.stopping && Next(s) == DeviceTurn(HandlerTurn([]))
    ensures CloserToRest(Advance(s, Next(s)), s)
  {
    var d := s.dev;
    HandlerStepDelivers(d.ctl, InWindow(d.request) && d.request.addr == EVT_ACK,
      Load32(d.mem, EVT_ACK) == d.seqNo);
    HandlerOnlyWrites(d);
  }

  lemma HandlerOnlyWrites(d: Device)
    requires Sized(d)
    ensures var d' := HandlerActs(d, []); d' == d.(ctl := d'.ctl, mem := d'.mem)
  {
  }

  lemma DriverDelivers(s: System)
    requires SystemInv(s) && !s.dev.ctl.stopping && Next(s) == Driver
    ensures CloserToRest(Advance(s, Next(s)), s)
  {
    match s.guest.at
    case SendAck =>
    case ReadPayload =>
    case _ =>
  }

  lemma NextDelivers(s: System)
    requires SystemInv(s) && !s.dev.ctl.stopping && !AtRest(s)
    ensures CloserToRest(Advance(s, Next(s)), s)
  {
    match Next(s)
    case Driver => DriverDelivers(s);
    case DeviceTurn(PumpTurn(_)) => PumpDelivers(s);
    case DeviceTurn(HandlerTurn(_)) => HandlerDelivers(s);
    case _ =>
  }

  /** Where `turns` lead from `s`. */
  function PlayFrom(s: System, turns: seq<Turn>): (s': System)
    requires Sized(s.dev)
    decreases |turns|
  {
    if turns == [] then s else PlayFrom(Advance(s, turns[0]), turns[1..])
  }

  lemma {:induction false} PlayGoesOn(turns: seq<Turn>, more: seq<Turn>)
    ensures Play(turns + more) == PlayFrom(Play(turns), more)
    decreases |more|
  {
    if more == [] {
      assert turns + more == turns;
    } else {
      assert (turns + [more[0]])[..|turns|] == turns;
      assert turns + more == turns + [more[0]] + more[1..];
      PlayGoesOn(turns + [more[0]], more[1..]);
    }
  }

  /** A turn of the driver, or of the device without anything new from the host. */
  predicate IsOwnTurn(t: Turn) {
    t.Driver? || (t.DeviceTurn? && IsTurn(t.action))
  }

  lemma {:induction false} TurnsDeliver(s: System) returns (more: seq<Turn>)
    requires SystemInv(s) && !s.dev.ctl.stopping
    ensures Delivered(PlayFrom(s, more)) && PlayFrom(s, more).dev.hostRead == s.dev.hostRead
    ensures forall t :: t in more ==> IsOwnTurn(t)
    decreases DeliveryLeft(s)
  {
    if AtRest(s) {
      RestIsDelivered(s);
      more := [];
    } else {
      NextDelivers(s);
      AdvanceKeepsSystem(s, Next(s));
      var rest := TurnsDeliver(Advance(s, Next(s)));
      more := [Next(s)] + rest;
      assert more[1..] == rest;
    }
  }

  /** No event gets stuck: until the device is told to stop, from every state that any interleaving
      leads to, the driver and the device can go on until the driver has every event that was
      read from the host and the pump polls for the next one. */
  lemma EverythingIsDelivered(turns: seq<Turn>) returns (more: seq<Turn>)
    requires !Play(turns).dev.ctl.stopping
    ensures Play(turns + more).guest.received == Play(turns).dev.hostRead
    ensures Play(turns + more).dev.ctl.pump.Poll? && !Play(turns + more).dev.ctl.irq
    ensures forall t :: t in more ==> IsOwnTurn(t)
  {
    PlayKeepsSystem(turns);
    more := TurnsDeliver(Play(turns));
    PlayGoesOn(turns, more);
  }
}
