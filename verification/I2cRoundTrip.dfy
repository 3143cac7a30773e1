/** Writing a register and reading it back, against slaves that keep what they are sent and a controller that reports
    a completion only for the transfer it is busy with. */
module I2cRoundTrip {
  import opened Bytes
  import opened I2cAccess

  // ----- Honest controllers -----

  /** A completion is reported only of a transfer in progress, and in its direction. Everything else is free: other
      events, their number and order, and when the slave takes or gives the bytes. */
  predicate HonestStep(s: State, step: Step) {
    step.Interrupt? ==>
      && (step.event.completeSend ==> s.controller.Busy? && s.controller.transfer.Send?)
      && (step.event.completeRecv ==> s.controller.Busy? && s.controller.transfer.Recv?)
  }

  predicate Honest(s: State, steps: seq<Step>) {
    steps == [] ||
    (Honest(s, steps[..|steps| - 1]) && HonestStep(Delivered(s, steps[..|steps| - 1]), steps[|steps| - 1]))
  }

  predicate HonestPolls(s: State, sending: bool, polls: seq<Poll>)
    decreases |polls|
  {
    polls == [] ||
    var seen := Delivered(s, polls[0].beforeFlag);
    Honest(s, polls[0].beforeFlag) &&
    (Flag(seen, sending) ||
     var counted := Delivered(seen, polls[0].beforeCount);
     Honest(seen, polls[0].beforeCount) &&
     (counted.totalErrorCount != 0 || HonestPolls(counted, sending, polls[1..])))
  }

  predicate HonestTransfer(s: State, t: Transfer, sch: Schedule) {
    var begun := Begun(s, t, sch.early);
    && Honest(Cleared(s, t), sch.early)
    && HonestPolls(begun, t.Send?, sch.polls)
    && Honest(Polled(begun, t.Send?, sch.polls).0, sch.busy)
  }

  // ----- A transfer that is reported complete has taken place -----

  /** The slaves and the buffer after `t`, started when the slaves were `slaves`. */
  ghost predicate Finished(s: State, slaves: Slaves, t: Transfer) {
    && s.slaves == Effect(slaves, t)
    && (t.Recv? ==> s.received == Fetched(At(slaves, t.addr), |t.buffer|))
  }

  /** While `t` is in progress its flag stays down. */
  ghost predicate InFlight(s: State, slaves: Slaves, t: Transfer) {
    if s.controller.Free? then Finished(s, slaves, t)
    else
      && s.controller.transfer == t && !Flag(s, t.Send?)
      && if s.controller.done then Finished(s, slaves, t) else s.slaves == slaves
  }

  lemma InFlightStep(s: State, slaves: Slaves, t: Transfer, step: Step)
    requires InFlight(s, slaves, t) && HonestStep(s, step)
    ensures InFlight(Taken(s, step), slaves, t)
  {}

  lemma {:induction false} InFlightDelivered(s: State, slaves: Slaves, t: Transfer, steps: seq<Step>)
    requires InFlight(s, slaves, t) && Honest(s, steps)
    ensures InFlight(Delivered(s, steps), slaves, t)
  {
    hide InFlight, HonestStep, Taken;
    if steps != [] {
      InFlightDelivered(s, slaves, t, steps[..|steps| - 1]);
      InFlightStep(Delivered(s, steps[..|steps| - 1]), slaves, t, steps[|steps| - 1]);
    }
  }

  lemma {:induction false} InFlightPolled(s: State, slaves: Slaves, t: Transfer, polls: seq<Poll>)
    requires InFlight(s, slaves, t) && HonestPolls(s, t.Send?, polls)
    ensures var (p, status) := Polled(s, t.Send?, polls);
            InFlight(p, slaves, t) && (status == Success ==> Flag(p, t.Send?))
    decreases |polls|
  {
    hide InFlight, Honest, Delivered, Flag;
    if polls != [] {
      var seen := Delivered(s, polls[0].beforeFlag);
      InFlightDelivered(s, slaves, t, polls[0].beforeFlag);
      if !Flag(seen, t.Send?) {
        var counted := Delivered(seen, polls[0].beforeCount);
        InFlightDelivered(seen, slaves, t, polls[0].beforeCount);
        if counted.totalErrorCount == 0 {
          InFlightPolled(counted, slaves, t, polls[1..]);
        }
      }
    }
  }

  /** Without a transfer in its own direction left over, the flag of a new one is still down when it starts, and a
      send finds the slaves as they were. */
  ghost predicate Fresh(s: State, sending: bool) {
    s.controller.Free? || (sending && s.controller.transfer.Recv?)
  }

  lemma {:induction false} FreshDelivered(s: State, sending: bool, steps: seq<Step>)
    requires Fresh(s, sending) && !Flag(s, sending) && Honest(s, steps)
    ensures var d := Delivered(s, steps); Fresh(d, sending) && !Flag(d, sending) && d.slaves == s.slaves
  {
    if steps != [] {
      FreshDelivered(s, sending, steps[..|steps| - 1]);
    }
  }

  /** A call that returns success has carried out exactly its own transfer, and nothing is left in progress. */
  lemma TransferDone(s: State, t: Transfer, sch: Schedule)
    requires Fresh(s, t.Send?) && HonestTransfer(s, t, sch) && Transferred(s, t, sch).1 == Success
    ensures var (r, _) := Transferred(s, t, sch);
            r.controller.Free? && Finished(r, s.slaves, t)
  {
    hide Honest, HonestPolls, Delivered, Polled;
    FreshDelivered(Cleared(s, t), t.Send?, sch.early);
    var begun := Begun(s, t, sch.early);
    InFlightPolled(begun, s.slaves, t, sch.polls);
    var p := Polled(begun, t.Send?, sch.polls).0;
    InFlightDelivered(p, s.slaves, t, sch.busy);
    IdleDelivered(p, sch.busy);
  }

  lemma {:induction false} IdleDelivered(s: State, steps: seq<Step>)
    requires s.controller.Free? && Honest(s, steps)
    ensures var d := Delivered(s, steps); d.controller.Free? && d.slaves == s.slaves
  {
    if steps != [] {
      IdleDelivered(s, steps[..|steps| - 1]);
    }
  }

  // ----- The register round trip -----

  /** A write of a register, other events, and a read of it, each under its own schedule. */
  datatype Trip = Trip(write: Schedule, between: seq<Step>, garbage: seq<Byte>, select: Schedule, receive: Schedule)

  function AfterWrite(s: State, reg: Byte, data: Half, addr: Half, trip: Trip): State {
    Delivered(Transferred(s, WriteTransfer(reg, data, addr), trip.write).0, trip.between)
  }

  predicate Honestly(s: State, reg: Byte, data: Half, addr: Half, trip: Trip): (b: bool)
    ensures b ==> |trip.garbage| == 2
  {
    var t, select := WriteTransfer(reg, data, addr), Send(addr, [reg]);
    var s1 := AfterWrite(s, reg, data, addr, trip);
    && |trip.garbage| == 2
    && HonestTransfer(s, t, trip.write) && Honest(Transferred(s, t, trip.write).0, trip.between)
    && HonestTransfer(s1, select, trip.select)
    && HonestTransfer(Transferred(s1, select, trip.select).0, Recv(addr, trip.garbage), trip.receive)
  }

  predicate BothSucceed(s: State, reg: Byte, data: Half, addr: Half, trip: Trip) {
    && Transferred(s, WriteTransfer(reg, data, addr), trip.write).1 == Success
    && PhyRead(AfterWrite(s, reg, data, addr, trip), reg, addr, trip.garbage, trip.select, trip.receive).1 == Success
  }

  /** What `I2cPhyRead` stores through `Data`. */
  function ValueRead(s: State, reg: Byte, data: Half, addr: Half, trip: Trip): Half
    requires |trip.garbage| == 2 && BothSucceed(s, reg, data, addr, trip)
  {
    var s1 := AfterWrite(s, reg, data, addr, trip);
    SizedPhyRead(s1, reg, addr, trip.garbage, trip.select, trip.receive);
    var bytes := PhyRead(s1, reg, addr, trip.garbage, trip.select, trip.receive).0.received;
    Joined(bytes[0], bytes[1])
  }

  /** A successful `I2cPhyWrite` leaves the two bytes of the value in the register, the high one first, and nothing else
      changed on the bus. */
  lemma PhyWriteStores(s: State, reg: Byte, data: Half, addr: Half, sch: Schedule)
    requires Fresh(s, true) && HonestTransfer(s, WriteTransfer(reg, data, addr), sch)
    requires Transferred(s, WriteTransfer(reg, data, addr), sch).1 == Success
    ensures var r := Transferred(s, WriteTransfer(reg, data, addr), sch).0;
            && r.controller.Free?
            && r.slaves == s.slaves[addr := Slave(reg, At(s.slaves, addr).registers[reg := [data / 256, data % 256]])]
  {
    hide HonestTransfer, Transferred;
    TransferDone(s, WriteTransfer(reg, data, addr), sch);
    assert [reg, data / 256, data % 256][1..] == [data / 256, data % 256];
  }

  /** A successful `I2cPhyRead` delivers the first two bytes of the register and changes nothing but the selection. */
  lemma PhyReadDelivers(s: State, reg: Byte, addr: Half, garbage: seq<Byte>, select: Schedule, receive: Schedule)
    requires Fresh(s, true) && |garbage| == 2 && HonestTransfer(s, Send(addr, [reg]), select)
    requires HonestTransfer(Transferred(s, Send(addr, [reg]), select).0, Recv(addr, garbage), receive)
    requires PhyRead(s, reg, addr, garbage, select, receive).1 == Success
    requires addr in s.slaves && reg in s.slaves[addr].registers && |s.slaves[addr].registers[reg]| >= 2
    ensures var r := PhyRead(s, reg, addr, garbage, select, receive).0;
            && r.received == s.slaves[addr].registers[reg][..2] && r.controller.Free?
            && r.slaves == s.slaves[addr := s.slaves[addr].(selected := reg)]
  {
    hide HonestTransfer, Transferred;
    var s1 := Transferred(s, Send(addr, [reg]), select).0;
    TransferDone(s, Send(addr, [reg]), select);
    TransferDone(s1, Recv(addr, garbage), receive);
  }

  lemma RoundTrip(s: State, reg: Byte, data: Half, addr: Half, trip: Trip)
    requires Fresh(s, true) && Honestly(s, reg, data, addr, trip) && BothSucceed(s, reg, data, addr, trip)
    ensures ValueRead(s, reg, data, addr, trip) == data
  {
    hide HonestTransfer, Honest, Transferred, Delivered, PhyRead;
    var s0 := Transferred(s, WriteTransfer(reg, data, addr), trip.write).0;
    PhyWriteStores(s, reg, data, addr, trip.write);
    IdleDelivered(s0, trip.between);
    var s1 := Delivered(s0, trip.between);
    PhyReadDelivers(s1, reg, addr, trip.garbage, trip.select, trip.receive);
  }

  // ----- ... fails exactly when a send was left over -----

  /** The event that ends a transfer. */
  function End(t: Transfer): Event {
    Event(t.Recv?, t.Send?, false)
  }

  /** The completion arrives before the first look at the flag. */
  function Prompt(t: Transfer): Schedule {
    Schedule([], [Poll([Interrupt(End(t))], [])], [])
  }

  lemma PromptTransfer(s: State, t: Transfer)
    ensures HonestTransfer(s, t, Prompt(t))
    ensures var (r, status) := Transferred(s, t, Prompt(t));
            status == Success && r.controller.Free? && Finished(r, s.slaves, t)
  {
    var begun, step := Begun(s, t, []), Interrupt(End(t));
    assert [step][..0] == [];
    assert Honest(begun, []) && Delivered(begun, []) == begun && HonestStep(begun, step);
    assert Honest(begun, [step]);
    assert Delivered(begun, [step]) == Taken(begun, step);
  }

  /** The completion of the transfer left over is taken for that of the new one, which has not taken place. */
  lemma StaleTransfer(s: State, t: Transfer)
    requires s.controller.Busy? && s.controller.transfer.Send? && t.Send?
    ensures var sch := Schedule([Interrupt(End(t))], [Poll([], [])], []);
            && HonestTransfer(s, t, sch)
            && Transferred(s, t, sch) == (Started(Delivered(Cleared(s, t), sch.early), t), Success)
            && Delivered(Cleared(s, t), sch.early).slaves == Performed(s).slaves
  {
    var step := Interrupt(End(t));
    assert [step][..0] == [];
    assert Delivered(Cleared(s, t), [step]) == Taken(Cleared(s, t), step);
  }

  /** A trip on which the write is lost. */
  function LostTrip(reg: Byte, addr: Half): Trip {
    Trip(Schedule([Interrupt(Event(false, true, false))], [Poll([], [])], []), [], [0, 0],
         Prompt(Send(addr, [reg])), Prompt(Recv(addr, [0, 0])))
  }

  lemma LostWrite(s: State, reg: Byte, data: Half, addr: Half)
    requires !Fresh(s, true)
    ensures var trip := LostTrip(reg, addr);
            && Honestly(s, reg, data, addr, trip) && BothSucceed(s, reg, data, addr, trip)
            && var bytes := Fetched(At(Effect(Performed(s).slaves, Send(addr, [reg])), addr), 2);
               ValueRead(s, reg, data, addr, trip) == Joined(bytes[0], bytes[1])
  {
    hide HonestTransfer, Transferred, Effect;
    var trip := LostTrip(reg, addr);
    var t, select, receive := WriteTransfer(reg, data, addr), Send(addr, [reg]), Recv(addr, [0, 0]);
    StaleTransfer(s, t);
    var s1 := AfterWrite(s, reg, data, addr, trip);
    PromptTransfer(s1, select);
    var s2 := Transferred(s1, select, trip.select).0;
    PromptTransfer(s2, receive);
  }

  /** What is written is read back, whatever the interrupts, if and only if no send was left in progress, by a write
      that had failed, when the write began. */
  lemma RoundTripIff(s: State, reg: Byte, addr: Half)
    ensures (forall data: Half, trip: Trip ::
               Honestly(s, reg, data, addr, trip) && BothSucceed(s, reg, data, addr, trip) ==>
               ValueRead(s, reg, data, addr, trip) == data)
            <==> Fresh(s, true)
  {
    hide Honestly, BothSucceed, ValueRead, Effect;
    if Fresh(s, true) {
      forall data: Half, trip: Trip | Honestly(s, reg, data, addr, trip) && BothSucceed(s, reg, data, addr, trip)
        ensures ValueRead(s, reg, data, addr, trip) == data
      {
        RoundTrip(s, reg, data, addr, trip);
      }
    } else {
      var trip := LostTrip(reg, addr);
      LostWrite(s, reg, 0, addr);
      LostWrite(s, reg, 1, addr);
      assert BothSucceed(s, reg, 0, addr, trip) && BothSucceed(s, reg, 1, addr, trip);
      assert ValueRead(s, reg, 0, addr, trip) == ValueRead(s, reg, 1, addr, trip);
    }
  }
}
