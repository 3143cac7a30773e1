/** `si5324.c`: programming the clock chip from a table, one I2C write per entry, up to the first that fails. */
module Si5324 {
  import opened Bytes
  import opened I2cAccess
  import opened I2cRoundTrip

  const IIC_SLAVE_ADDR: Half := 0x68
  const IIC_MUX_ADDRESS: Half := 0x74
  const IIC_CHANNEL_ADDRESS: Byte := 0x10

  datatype Si324Info = Si324Info(regIndex: Word, value: Word)

  const INIT_TABLE: seq<Si324Info> := [
    Si324Info(0, 0x54), Si324Info(1, 0xE4), Si324Info(2, 0x12), Si324Info(3, 0x15), Si324Info(4, 0x92),
    Si324Info(5, 0xed), Si324Info(6, 0x2d), Si324Info(7, 0x2a), Si324Info(8, 0x00), Si324Info(9, 0xc0),
    Si324Info(10, 0x08), Si324Info(11, 0x40), Si324Info(19, 0x29), Si324Info(20, 0x3e), Si324Info(21, 0xff),
    Si324Info(22, 0xdf), Si324Info(23, 0x1f), Si324Info(24, 0x3f), Si324Info(25, 0x60), Si324Info(31, 0x00),
    Si324Info(32, 0x00), Si324Info(33, 0x05), Si324Info(34, 0x00), Si324Info(35, 0x00), Si324Info(36, 0x05),
    Si324Info(40, 0xc2), Si324Info(41, 0x22), Si324Info(42, 0xdf), Si324Info(43, 0x00), Si324Info(44, 0x77),
    Si324Info(45, 0x0b), Si324Info(46, 0x00), Si324Info(47, 0x77), Si324Info(48, 0x0b), Si324Info(55, 0x00),
    Si324Info(131, 0x1f), Si324Info(132, 0x02), Si324Info(137, 0x01), Si324Info(138, 0x0f), Si324Info(139, 0xff),
    Si324Info(142, 0x00), Si324Info(143, 0x00), Si324Info(136, 0x40) ]

  function MuxTransfer(): Transfer {
    Send(IIC_MUX_ADDRESS, [IIC_CHANNEL_ADDRESS])
  }

  /** `WrBuffer` holds two `u8`. */
  function EntryTransfer(entry: Si324Info): Transfer {
    Send(IIC_SLAVE_ADDR, [entry.regIndex % 256, entry.value % 256])
  }

  // ----- The code -----

  /** The writes from entry `k` on: final state, status, and how many entries have been written successfully. */
  function Programmed(s: State, table: seq<Si324Info>, k: nat, writes: seq<Schedule>): (State, Status, nat)
    requires k <= |table| == |writes|
    decreases |table| - k
  {
    if k == |table| then (s, Success, k)
    else
      var (s1, status) := Transferred(s, EntryTransfer(table[k]), writes[k]);
      if status.Success? then Programmed(s1, table, k + 1, writes) else (s1, status, k)
  }

  /** All of `ProgramSi5324` after a successful set-up. */
  function Run(slaves: Slaves, table: seq<Si324Info>, mux: Schedule, writes: seq<Schedule>): (State, Status, nat)
    requires |table| == |writes|
  {
    var (s, status) := Transferred(State(false, false, 0, Free, slaves, []), MuxTransfer(), mux);
    if status.Success? then Programmed(s, table, 0, writes) else (s, status, 0)
  }

  method MuxInit(lib: XiicLib, mux: Schedule) returns (status: Status)
    modifies lib
    ensures (lib.Now(), status) == Transferred(old(lib.Now()), MuxTransfer(), mux)
  {
    hide Transferred;
    var wrBuffer := new Byte[1];
    wrBuffer[0] := IIC_CHANNEL_ADDRESS;
    assert wrBuffer[..] == [IIC_CHANNEL_ADDRESS];
    status := lib.I2cWriteData(wrBuffer, IIC_MUX_ADDRESS, mux);
  }

  /** `setUp` is the outcome of `I2cSetupHardware`; the library instance is local, the slaves remain. */
  method ProgramSi5324(setUp: bool, slaves: Slaves, table: seq<Si324Info>, mux: Schedule, writes: seq<Schedule>)
    returns (status: Status, after: Slaves)
    requires |table| == |writes|
    ensures !setUp ==> status == Failure && after == slaves
    ensures setUp ==> var (s, outcome, _) := Run(slaves, table, mux, writes); status == outcome && after == s.slaves
  {
    hide Transferred;
    if !setUp {
      return Failure, slaves;
    }
    var lib := new XiicLib(slaves);
    var wrBuffer := new Byte[2];
    status := MuxInit(lib, mux);
    if status != Success {
      return status, lib.slaves;
    }
    ghost var s0 := lib.Now();
    var index := 0;
    while index < |table|
      invariant index <= |table|
      invariant Programmed(lib.Now(), table, index, writes) == Programmed(s0, table, 0, writes)
    {
      wrBuffer[0] := table[index].regIndex % 256;
      wrBuffer[1] := table[index].value % 256;
      assert wrBuffer[..] == [table[index].regIndex % 256, table[index].value % 256];
      status := lib.I2cWriteData(wrBuffer, IIC_SLAVE_ADDR, writes[index]);
      if status != Success {
        return status, lib.slaves;
      }
      index := index + 1;
    }
    return Success, lib.slaves;
  }

  // ----- Prefixes of the table -----

  /** The slaves after the mux and the first `k` entries. */
  function Applied(slaves: Slaves, table: seq<Si324Info>, k: nat): Slaves
    requires k <= |table|
  {
    if k == 0 then Effect(slaves, MuxTransfer()) else Effect(Applied(slaves, table, k - 1), EntryTransfer(table[k - 1]))
  }

  predicate HonestWrites(s: State, table: seq<Si324Info>, k: nat, writes: seq<Schedule>)
    requires k <= |table| == |writes|
    decreases |table| - k
  {
    k == |table| ||
    var t := EntryTransfer(table[k]);
    HonestTransfer(s, t, writes[k]) &&
    (Transferred(s, t, writes[k]).1.Success? ==>
       HonestWrites(Transferred(s, t, writes[k]).0, table, k + 1, writes))
  }

  predicate HonestRun(slaves: Slaves, table: seq<Si324Info>, mux: Schedule, writes: seq<Schedule>)
    requires |table| == |writes|
  {
    var s := State(false, false, 0, Free, slaves, []);
    HonestTransfer(s, MuxTransfer(), mux) && HonestWrites(Transferred(s, MuxTransfer(), mux).0, table, 0, writes)
  }

  /** A transfer that does not succeed leaves the slaves as they were, or as if it had succeeded. */
  lemma TransferTried(s: State, t: Transfer, sch: Schedule)
    requires Fresh(s, t.Send?) && HonestTransfer(s, t, sch)
    ensures var r := Transferred(s, t, sch).0; r.slaves == s.slaves || r.slaves == Effect(s.slaves, t)
  {
    hide Honest, HonestPolls, Delivered, Polled;
    FreshDelivered(Cleared(s, t), t.Send?, sch.early);
    var begun := Begun(s, t, sch.early);
    InFlightPolled(begun, s.slaves, t, sch.polls);
    if Transferred(s, t, sch).1.Success? {
      TransferDone(s, t, sch);
    }
  }

  /** The writes reach the chip in the order of the table and form a prefix of it: the entries written successfully
      and at most the one that failed. */
  lemma {:induction false} ProgrammedPrefix(s: State, base: Slaves, table: seq<Si324Info>, k: nat, writes: seq<Schedule>)
    requires k <= |table| == |writes| && s.controller.Free? && s.slaves == Applied(base, table, k)
    requires HonestWrites(s, table, k, writes)
    ensures var (r, status, n) := Programmed(s, table, k, writes);
            && k <= n <= |table| && (status == Success <==> n == |table|)
            && (r.slaves == Applied(base, table, n) || (n < |table| && r.slaves == Applied(base, table, n + 1)))
    decreases |table| - k
  {
    hide HonestTransfer, Transferred, Effect;
    if k < |table| {
      var t := EntryTransfer(table[k]);
      TransferTried(s, t, writes[k]);
      if Transferred(s, t, writes[k]).1.Success? {
        TransferDone(s, t, writes[k]);
        ProgrammedPrefix(Transferred(s, t, writes[k]).0, base, table, k + 1, writes);
      }
    }
  }

  // ----- The whole table -----

  ghost predicate Distinct(table: seq<Si324Info>) {
    && (forall a :: 0 <= a < |table| ==> table[a].regIndex < 256 && table[a].value < 256)
    && (forall a, b :: 0 <= a < b < |table| ==> table[a].regIndex != table[b].regIndex)
  }

  /** Registers overwritten by the first `k` entries. */
  function Overlaid(registers: map<Byte, seq<Byte>>, table: seq<Si324Info>, k: nat): map<Byte, seq<Byte>>
    requires k <= |table|
  {
    if k == 0 then registers
    else Overlaid(registers, table, k - 1)[table[k - 1].regIndex % 256 := [table[k - 1].value % 256]]
  }

  /** Only the chip changes after the mux, and of the chip only its registers' contents. */
  lemma {:induction false} AppliedRegisters(base: Slaves, table: seq<Si324Info>, k: nat)
    requires k <= |table|
    ensures var before, after := Applied(base, table, 0), Applied(base, table, k);
            && At(after, IIC_SLAVE_ADDR).registers == Overlaid(At(before, IIC_SLAVE_ADDR).registers, table, k)
            && forall addr: Half :: addr != IIC_SLAVE_ADDR ==> At(after, addr) == At(before, addr)
  {
    if k > 0 {
      AppliedRegisters(base, table, k - 1);
      var entry := table[k - 1];
      assert [entry.regIndex % 256, entry.value % 256][1..] == [entry.value % 256];
    }
  }

  /** In the end a register of the table holds its value. */
  lemma {:induction false} EntryHeld(registers: map<Byte, seq<Byte>>, table: seq<Si324Info>, k: nat, a: nat)
    requires Distinct(table) && a < k <= |table|
    ensures table[a].regIndex in Overlaid(registers, table, k)
    ensures Overlaid(registers, table, k)[table[a].regIndex] == [table[a].value]
  {
    if a < k - 1 {
      EntryHeld(registers, table, k - 1, a);
    }
  }

  /** Every other register is as it was. */
  lemma {:induction false} OthersKept(registers: map<Byte, seq<Byte>>, table: seq<Si324Info>, k: nat, reg: Byte)
    requires Distinct(table) && k <= |table| && forall a :: 0 <= a < k ==> table[a].regIndex != reg
    ensures reg in Overlaid(registers, table, k) <==> reg in registers
    ensures reg in registers ==> Overlaid(registers, table, k)[reg] == registers[reg]
  {
    if k > 0 {
      OthersKept(registers, table, k - 1, reg);
    }
  }

  lemma TableIncreasing(a: nat)
    requires a < 41
    ensures INIT_TABLE[a].regIndex < INIT_TABLE[a + 1].regIndex < 256 && INIT_TABLE[a + 1].value < 256
    ensures INIT_TABLE[a].regIndex != INIT_TABLE[42].regIndex
  {}

  lemma {:induction false} Increasing(a: nat, b: nat)
    requires a < b < 42
    ensures INIT_TABLE[a].regIndex < INIT_TABLE[b].regIndex
  {
    hide INIT_TABLE;
    TableIncreasing(b - 1);
    if a + 1 < b {
      Increasing(a, b - 1);
    }
  }

  lemma TableEnds()
    ensures |INIT_TABLE| == 43 && INIT_TABLE[0] == Si324Info(0, 0x54) && INIT_TABLE[42] == Si324Info(136, 0x40)
  {}

  /** Every entry fits two bytes and names a register of its own, although the last one is out of order. */
  lemma TableDistinct()
    ensures |INIT_TABLE| == 43 && Distinct(INIT_TABLE)
  {
    hide INIT_TABLE;
    TableEnds();
    forall a | 0 <= a < 43 ensures INIT_TABLE[a].regIndex < 256 && INIT_TABLE[a].value < 256 {
      if 0 < a < 42 {
        TableIncreasing(a - 1);
      }
    }
    forall a, b | 0 <= a < b < 43 ensures INIT_TABLE[a].regIndex != INIT_TABLE[b].regIndex {
      if b < 42 {
        Increasing(a, b);
      } else if a < 41 {
        TableIncreasing(a);
      } else {
        TableEnd();
      }
    }
  }

  lemma TableEnd()
    ensures |INIT_TABLE| == 43 && INIT_TABLE[41].regIndex != INIT_TABLE[42].regIndex
  {}

  /** The multiplexer is switched to channel 0x10 before anything is written to the chip. */
  lemma MuxFirst(slaves: Slaves, mux: Schedule, writes: seq<Schedule>)
    requires |writes| == |INIT_TABLE| && HonestRun(slaves, INIT_TABLE, mux, writes)
    ensures var (s, status, _) := Run(slaves, INIT_TABLE, mux, writes);
            && (status == Success || At(s.slaves, 0x68) != At(slaves, 0x68) ==> At(s.slaves, 0x74).selected == 0x10)
            && forall addr: Half :: addr != 0x68 && addr != 0x74 ==> At(s.slaves, addr) == At(slaves, addr)
  {
    hide HonestTransfer, Transferred, Effect, INIT_TABLE;
    var s0 := State(false, false, 0, Free, slaves, []);
    TransferTried(s0, MuxTransfer(), mux);
    MuxSelected(slaves);
    if Transferred(s0, MuxTransfer(), mux).1.Success? {
      TransferDone(s0, MuxTransfer(), mux);
      ProgrammedPrefix(Transferred(s0, MuxTransfer(), mux).0, slaves, INIT_TABLE, 0, writes);
      var n := Run(slaves, INIT_TABLE, mux, writes).2;
      AppliedRegisters(slaves, INIT_TABLE, n);
      if n < |INIT_TABLE| {
        AppliedRegisters(slaves, INIT_TABLE, n + 1);
      }
    }
  }

  lemma MuxSelected(slaves: Slaves)
    ensures var after := Effect(slaves, MuxTransfer());
            && At(after, 0x74) == At(slaves, 0x74).(selected := 0x10)
            && forall addr: Half :: addr != 0x74 ==> At(after, addr) == At(slaves, addr)
  {}

  /** Success means all 43 entries were written, and then the chip holds the table; otherwise the slaves are as a
      prefix of the writes left them. */
  lemma ProgramExactly(slaves: Slaves, mux: Schedule, writes: seq<Schedule>)
    requires |writes| == |INIT_TABLE| && HonestRun(slaves, INIT_TABLE, mux, writes)
    ensures var (s, status, n) := Run(slaves, INIT_TABLE, mux, writes);
            var chip := At(s.slaves, 0x68).registers;
            && n <= |INIT_TABLE| && (status == Success <==> n == |INIT_TABLE|)
            && (status == Success ==>
                  s.slaves == Applied(slaves, INIT_TABLE, n) && At(s.slaves, 0x74).selected == 0x10 &&
                  forall a :: 0 <= a < |INIT_TABLE| ==>
                    INIT_TABLE[a].regIndex in chip && chip[INIT_TABLE[a].regIndex] == [INIT_TABLE[a].value])
            && (status != Success ==>
                  (n == 0 && s.slaves == slaves) || s.slaves == Applied(slaves, INIT_TABLE, n)
                  || s.slaves == Applied(slaves, INIT_TABLE, n + 1))
  {
    hide HonestTransfer, Transferred, Effect, INIT_TABLE, Distinct;
    MuxFirst(slaves, mux, writes);
    var s0 := State(false, false, 0, Free, slaves, []);
    TableDistinct();
    TransferTried(s0, MuxTransfer(), mux);
    if Transferred(s0, MuxTransfer(), mux).1.Success? {
      TransferDone(s0, MuxTransfer(), mux);
      ProgrammedPrefix(Transferred(s0, MuxTransfer(), mux).0, slaves, INIT_TABLE, 0, writes);
      AppliedRegisters(slaves, INIT_TABLE, |INIT_TABLE|);
      var before := At(Applied(slaves, INIT_TABLE, 0), IIC_SLAVE_ADDR).registers;
      forall a | 0 <= a < |INIT_TABLE|
        ensures var chip := Overlaid(before, INIT_TABLE, |INIT_TABLE|);
                INIT_TABLE[a].regIndex in chip && chip[INIT_TABLE[a].regIndex] == [INIT_TABLE[a].value]
      {
        EntryHeld(before, INIT_TABLE, |INIT_TABLE|, a);
      }
    }
  }
}
