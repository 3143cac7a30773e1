/** `i2c_access.c`: three flags that an interrupt handler writes and two polling loops read.

    The driver and the bus are a controller that carries out one transfer at a time against slaves with registers.
    A schedule says what happens between any two accesses to the flags: the controller gets on with its transfer, or
    the handler is called with some event word. A loop whose schedule has run out is still waiting. */
module I2cAccess {
  import opened Bytes

  /** The three bits of the driver's event word that the handler looks at. */
  datatype Event = Event(completeRecv: bool, completeSend: bool, slaveReady: bool)

  datatype Transfer =
    | Send(addr: Half, bytes: seq<Byte>)
    | Recv(addr: Half, buffer: seq<Byte>)

  /** `done` once the slave has taken or given the bytes and only the completion is still to be reported. */
  datatype Controller = Free | Busy(transfer: Transfer, done: bool)

  /** The first byte sent selects a register, further ones are stored there. */
  datatype Slave = Slave(selected: Byte, registers: map<Byte, seq<Byte>>)

  type Slaves = map<Half, Slave>

  /** The fields of XIIC_LIB, with the controller and the slaves behind `I2cInstance`; `received` is what stands at
      the address given to the last receive. */
  datatype State = State(transmitComplete: bool, receiveComplete: bool, totalErrorCount: Word,
                         controller: Controller, slaves: Slaves, received: seq<Byte>)

  datatype Step = Progress | Interrupt(event: Event)

  /** What happens before the flag is read, and before the error count is read, in one turn of a polling loop. */
  datatype Poll = Poll(beforeFlag: seq<Step>, beforeCount: seq<Step>)

  /** `early` falls between clearing the flag and starting the transfer, `busy` into the wait for an idle bus. */
  datatype Schedule = Schedule(early: seq<Step>, polls: seq<Poll>, busy: seq<Step>)

  datatype Status = Success | Failure | Waiting

  // ----- The slaves and the controller -----

  function At(slaves: Slaves, addr: Half): Slave {
    if addr in slaves then slaves[addr] else Slave(0, map[])
  }

  function Stored(slave: Slave, bytes: seq<Byte>): Slave {
    if bytes == [] then slave
    else if |bytes| == 1 then slave.(selected := bytes[0])
    else Slave(bytes[0], slave.registers[bytes[0] := bytes[1..]])
  }

  /** The bytes of the selected register; an idle bus reads as ones. */
  function Fetched(slave: Slave, count: nat): (bytes: seq<Byte>)
    ensures |bytes| == count
  {
    var value := if slave.selected in slave.registers then slave.registers[slave.selected] else [];
    seq(count, k requires 0 <= k < count => if k < |value| then value[k] else 0xFF)
  }

  /** What a transfer makes of the slaves. */
  function Effect(slaves: Slaves, t: Transfer): Slaves {
    if t.Send? then slaves[t.addr := Stored(At(slaves, t.addr), t.bytes)] else slaves
  }

  function Performed(s: State): State {
    if s.controller.Free? || s.controller.done then s
    else
      var t := s.controller.transfer;
      s.(controller := Busy(t, true), slaves := Effect(s.slaves, t),
         received := if t.Recv? then Fetched(At(s.slaves, t.addr), |t.buffer|) else s.received)
  }

  // ----- The handler and the polling loops as functions of the state -----

  function Handled(s: State, e: Event): State {
    if e.completeRecv then s.(receiveComplete := true)
    else if e.completeSend then s.(transmitComplete := true)
    else if !e.slaveReady then s.(totalErrorCount := (s.totalErrorCount + 1) % 0x1_0000_0000)
    else s
  }

  /** The event reports the end of the transfer the controller is busy with. */
  predicate Reports(c: Controller, e: Event) {
    c.Busy? && if c.transfer.Send? then e.completeSend else e.completeRecv
  }

  function Taken(s: State, step: Step): State {
    match step
    case Progress => Performed(s)
    case Interrupt(e) => Handled(if Reports(s.controller, e) then Performed(s).(controller := Free) else s, e)
  }

  function Delivered(s: State, steps: seq<Step>): State {
    if steps == [] then s else Taken(Delivered(s, steps[..|steps| - 1]), steps[|steps| - 1])
  }

  predicate Flag(s: State, sending: bool) {
    if sending then s.transmitComplete else s.receiveComplete
  }

  function Polled(s: State, sending: bool, polls: seq<Poll>): (State, Status)
    decreases |polls|
  {
    if polls == [] then (s, Waiting)
    else
      var seen := Delivered(s, polls[0].beforeFlag);
      if Flag(seen, sending) then (seen, Success)
      else
        var counted := Delivered(seen, polls[0].beforeCount);
        if counted.totalErrorCount != 0 then (counted, Failure) else Polled(counted, sending, polls[1..])
  }

  function Cleared(s: State, t: Transfer): State {
    if t.Send? then s.(transmitComplete := false) else s.(receiveComplete := false)
  }

  function Started(s: State, t: Transfer): State {
    s.(controller := Busy(t, false), received := if t.Recv? then t.buffer else s.received)
  }

  function Begun(s: State, t: Transfer, early: seq<Step>): State {
    Started(Delivered(Cleared(s, t), early), t)
  }

  /** A whole call of `I2cWriteData` or `I2cReadData`. */
  function Transferred(s: State, t: Transfer, sch: Schedule): (State, Status) {
    var (p, status) := Polled(Begun(s, t, sch.early), t.Send?, sch.polls);
    (if status.Success? then Delivered(p, sch.busy) else p, status)
  }

  /** Two bytes, most significant first. */
  function Joined(high: Byte, low: Byte): Half {
    (high as int) * 256 + low
  }

  function WriteTransfer(reg: Byte, data: Half, addr: Half): Transfer {
    Send(addr, [reg, data / 256, data % 256])
  }

  /** `I2cPhyRead`: the register is selected by a send of one byte; the buffer's old contents are `garbage`. */
  function PhyRead(s: State, reg: Byte, addr: Half, garbage: seq<Byte>, select: Schedule, receive: Schedule)
    : (State, Status)
  {
    var (s1, status) := Transferred(s, Send(addr, [reg]), select);
    if !status.Success? then (s1, status) else Transferred(s1, Recv(addr, garbage), receive)
  }

  // ----- The receive buffer keeps its size -----

  ghost predicate Sized(s: State, n: nat) {
    && |s.received| == n
    && (s.controller.Busy? && s.controller.transfer.Recv? ==> |s.controller.transfer.buffer| == n)
  }

  lemma {:induction false} SizedDelivered(s: State, steps: seq<Step>, n: nat)
    requires Sized(s, n)
    ensures Sized(Delivered(s, steps), n)
  {
    if steps != [] {
      SizedDelivered(s, steps[..|steps| - 1], n);
    }
  }

  lemma {:induction false} SizedPolled(s: State, sending: bool, polls: seq<Poll>, n: nat)
    requires Sized(s, n)
    ensures Sized(Polled(s, sending, polls).0, n)
    decreases |polls|
  {
    hide Sized, Delivered, Flag;
    if polls != [] {
      var seen := Delivered(s, polls[0].beforeFlag);
      SizedDelivered(s, polls[0].beforeFlag, n);
      SizedDelivered(seen, polls[0].beforeCount, n);
      SizedPolled(Delivered(seen, polls[0].beforeCount), sending, polls[1..], n);
    }
  }

  lemma SizedTransferred(s: State, addr: Half, buffer: seq<Byte>, sch: Schedule)
    ensures |Transferred(s, Recv(addr, buffer), sch).0.received| == |buffer|
  {
    hide Polled, Delivered;
    var begun := Begun(s, Recv(addr, buffer), sch.early);
    SizedPolled(begun, false, sch.polls, |buffer|);
    SizedDelivered(Polled(begun, false, sch.polls).0, sch.busy, |buffer|);
  }

  /** A register read that succeeds leaves two bytes in the buffer. */
  lemma SizedPhyRead(s: State, reg: Byte, addr: Half, garbage: seq<Byte>, select: Schedule, receive: Schedule)
    ensures var (r, status) := PhyRead(s, reg, addr, garbage, select, receive);
            status == Success ==> |r.received| == |garbage|
  {
    hide Transferred;
    SizedTransferred(Transferred(s, Send(addr, [reg]), select).0, addr, garbage, receive);
  }

  // ----- The code -----

  class XiicLib {
    var transmitComplete: bool
    var receiveComplete: bool
    var totalErrorCount: Word
    var controller: Controller
    var slaves: Slaves
    var received: seq<Byte>

    /** `I2cSetupHardware`, once the driver and the interrupt system are up. */
    constructor (slaves: Slaves)
      ensures Now() == State(false, false, 0, Free, slaves, [])
    {
      totalErrorCount, transmitComplete, receiveComplete := 0, false, false;
      controller, this.slaves, received := Free, slaves, [];
    }

    function Now(): State
      reads this
    {
      State(transmitComplete, receiveComplete, totalErrorCount, controller, slaves, received)
    }

    method StatusHandler(event: Event)
      modifies `transmitComplete, `receiveComplete, `totalErrorCount
      ensures Now() == Handled(old(Now()), event)
    {
      if event.completeRecv {
        receiveComplete := true;
      } else if event.completeSend {
        transmitComplete := true;
      } else if !event.slaveReady {
        totalErrorCount := (totalErrorCount + 1) % 0x1_0000_0000;
      }
    }

    /** The controller carries out what it is busy with, at most once. */
    method Perform()
      modifies `controller, `slaves, `received
      ensures Now() == Performed(old(Now()))
    {
      if controller.Busy? && !controller.done {
        var t := controller.transfer;
        if t.Recv? {
          received := Fetched(At(slaves, t.addr), |t.buffer|);
        }
        slaves := Effect(slaves, t);
        controller := Busy(t, true);
      }
    }

    /** What goes on beside the program. */
    method Interleave(steps: seq<Step>)
      modifies this
      ensures Now() == Delivered(old(Now()), steps)
    {
      hide Handled, Performed;
      for i := 0 to |steps|
        invariant Now() == Delivered(old(Now()), steps[..i])
      {
        ghost var before := Now();
        if steps[i].Interrupt? {
          if Reports(controller, steps[i].event) {
            Perform();
            controller := Free;
          }
          StatusHandler(steps[i].event);
        } else {
          Perform();
        }
        assert Now() == Taken(before, steps[i]);
        assert steps[..i + 1][..i] == steps[..i];
      }
      assert steps[..|steps|] == steps;
    }

    method I2cWriteData(wrBuffer: array<Byte>, slaveAddr: Half, sch: Schedule) returns (status: Status)
      modifies this
      ensures (Now(), status) == Transferred(old(Now()), Send(slaveAddr, wrBuffer[..]), sch)
    {
      hide Delivered;
      ghost var t := Send(slaveAddr, wrBuffer[..]);
      transmitComplete := false;
      Interleave(sch.early);
      controller := Busy(Send(slaveAddr, wrBuffer[..]), false);
      ghost var begun := Now();
      assert begun == Begun(old(Now()), t, sch.early);
      var i := 0;
      while i < |sch.polls|
        invariant i <= |sch.polls|
        invariant Polled(Now(), true, sch.polls[i..]) == Polled(begun, true, sch.polls)
      {
        Interleave(sch.polls[i].beforeFlag);
        if transmitComplete {
          Interleave(sch.busy);
          return Success;
        }
        Interleave(sch.polls[i].beforeCount);
        if totalErrorCount != 0 {
          return Failure;
        }
        assert sch.polls[i..][1..] == sch.polls[i + 1..];
        i := i + 1;
      }
      status := Waiting;
    }

    method I2cReadData(rdBuffer: array<Byte>, slaveAddr: Half, sch: Schedule) returns (status: Status)
      modifies this, rdBuffer
      ensures (Now(), status) == Transferred(old(Now()), Recv(slaveAddr, old(rdBuffer[..])), sch)
      ensures rdBuffer[..] == Now().received
    {
      hide Delivered;
      ghost var t := Recv(slaveAddr, rdBuffer[..]);
      receiveComplete := false;
      Interleave(sch.early);
      controller, received := Busy(Recv(slaveAddr, rdBuffer[..]), false), rdBuffer[..];
      ghost var begun := Now();
      assert begun == Begun(old(Now()), t, sch.early);
      status := Waiting;
      var i := 0;
      while status == Waiting && i < |sch.polls|
        invariant i <= |sch.polls| && rdBuffer[..] == old(rdBuffer[..])
        invariant if status == Waiting then Polled(Now(), false, sch.polls[i..]) == Polled(begun, false, sch.polls)
                  else (Now(), status) == Transferred(old(Now()), t, sch)
      {
        Interleave(sch.polls[i].beforeFlag);
        if receiveComplete {
          Interleave(sch.busy);
          status := Success;
        } else {
          Interleave(sch.polls[i].beforeCount);
          if totalErrorCount != 0 {
            status := Failure;
          } else {
            assert sch.polls[i..][1..] == sch.polls[i + 1..];
            i := i + 1;
          }
        }
      }
      SizedTransferred(old(Now()), slaveAddr, old(rdBuffer[..]), sch);
      assert (Now(), status) == Transferred(old(Now()), t, sch);
      // What the controller has stored through the pointer by now.
      forall k | 0 <= k < rdBuffer.Length {
        rdBuffer[k] := received[k];
      }
    }

    method I2cPhyWrite(reg: Byte, data: Half, slaveAddr: Half, sch: Schedule) returns (status: Status)
      modifies this
      ensures (Now(), status) == Transferred(old(Now()), WriteTransfer(reg, data, slaveAddr), sch)
    {
      var wrBuffer := new Byte[3];
      wrBuffer[0] := reg;
      wrBuffer[1] := data / 256;
      wrBuffer[2] := data % 256;
      assert wrBuffer[..] == [reg, data / 256, data % 256];
      status := I2cWriteData(wrBuffer, slaveAddr, sch);
    }

    /** `data` points to the caller's variable; a read that does not succeed leaves it alone. */
    method I2cPhyRead(reg: Byte, data: array<Half>, slaveAddr: Half, select: Schedule, receive: Schedule)
      returns (status: Status)
      requires data.Length == 1
      modifies this, data
      ensures exists garbage :: |garbage| == 2 && (Now(), status) == PhyRead(old(Now()), reg, slaveAddr, garbage, select, receive)
      ensures status == Success ==> |received| == 2 && data[0] == (received[0] as int) * 256 + received[1]
      ensures status != Success ==> data[..] == old(data[..])
    {
      hide Transferred;
      var wrBuffer, rdBuffer := new Byte[1], new Byte[2];
      ghost var garbage := rdBuffer[..];
      wrBuffer[0] := reg;
      assert wrBuffer[..] == [reg];
      status := I2cWriteData(wrBuffer, slaveAddr, select);
      if status != Success {
        assert (Now(), status) == PhyRead(old(Now()), reg, slaveAddr, garbage, select, receive);
        return;
      }
      status := I2cReadData(rdBuffer, slaveAddr, receive);
      assert (Now(), status) == PhyRead(old(Now()), reg, slaveAddr, garbage, select, receive);
      if status != Success {
        return;
      }
      assert received == rdBuffer[..];
      data[0] := Joined(rdBuffer[0], rdBuffer[1]);
    }
  }
}
