/** The simulated data-triggered netlist moves every row exactly as `TriggeredChain` says. */
module TriggeredDetector {
  import opened Vhdl
  import opened Names
  import opened Hex
  import opened Signatures
  import opened TriggeredChain
  import opened TriggeredGenerator
  import opened TriggeredNetlist

  function PortEnv(p: Pins): Env {
    map[Show(Reset) := Bit(p.reset), Show(DataIn) := Vector(p.data)]
  }

  function PortEnvs(trace: seq<Pins>): seq<Env> {
    seq(|trace|, t requires 0 <= t < |trace| => PortEnv(trace[t]))
  }

  function CmpName(hexList: seq<string>, i: nat, k: nat): Name
    requires i < |hexList|
  {
    Cmp(i, Slice(hexList[i], k), k)
  }

  // ----- The invariant -----

  ghost predicate RowIs(hexList: seq<string>, env: Env, p: Pins, i: nat, row: Row)
    requires Admissible(hexList) && i < |hexList|
  {
    && RowOk(Signature(hexList, i), p, row)
    && (forall k :: 0 <= k < |row.stages| ==> Get(env, Show(CmpName(hexList, i, k))) == Bit(row.stages[k]))
    && Get(env, Show(Output(i))) == Bit(row.latched)
  }

  ghost predicate Settled(hexList: seq<string>, env: Env, p: Pins) {
    && Admissible(hexList)
    && env.Keys == Compiled(hexList).Objects()
    && GatesLag(Netlist(hexList), env, env)
    && Get(env, Show(Reset)) == Bit(p.reset) && Get(env, Show(DataIn)) == Vector(p.data)
  }

  ghost predicate Inv(hexList: seq<string>, env: Env, p: Pins, i: nat, row: Row) {
    Settled(hexList, env, p) && i < |hexList| && RowIs(hexList, env, p, i, row)
  }

  lemma InvParts(hexList: seq<string>, env: Env, p: Pins, i: nat, row: Row)
    requires Inv(hexList, env, p, i, row)
    ensures Settled(hexList, env, p) && Admissible(hexList) && i < |hexList|
    ensures RowOk(Signature(hexList, i), p, row) && Get(env, Show(Output(i))) == Bit(row.latched)
    ensures Stages(hexList[i]) == |row.stages|
  {
    hide Show, Netlist;
    StagesSignature(hexList, i);
  }

  lemma SettledLag(hexList: seq<string>, env: Env, p: Pins)
    requires Settled(hexList, env, p)
    ensures Admissible(hexList) && GatesLag(Netlist(hexList), env, env) && Get(env, Show(Reset)) == Bit(p.reset)
  {}

  lemma CompareRead(hexList: seq<string>, env: Env, p: Pins, i: nat, row: Row, k: nat)
    requires Inv(hexList, env, p, i, row) && k < |row.stages|
    ensures i < |hexList| && HasStage(hexList, i, k) && IsDriven(hexList, CmpName(hexList, i, k))
    ensures Get(env, Show(CmpName(hexList, i, k))) == Bit(row.stages[k])
  {
    hide Show, Netlist;
    InvParts(hexList, env, p, i, row);
  }

  // ----- Reading gates -----

  lemma GateRead(hexList: seq<string>, prev: Env, cur: Env, n: Name)
    requires GatesLag(Netlist(hexList), prev, cur) && IsDriven(hexList, n) && Driver(hexList, n).Combinational()
    ensures Get(cur, Show(n)) == Body(Driver(hexList, n), prev, prev)
  {
    hide Show, Netlist, Driver;
    DriverInNetlist(hexList, n);
    DriverTarget(hexList, n);
  }

  lemma FrontLag(hexList: seq<string>, prev: Env, cur: Env)
    requires GatesLag(Netlist(hexList), prev, cur)
    ensures Get(cur, Show(Enable)) == Bit(Get(prev, Show(DataIn)) != Vector(0))
    ensures Get(cur, Show(Input)) == Get(prev, Show(DataIn))
  {
    hide Show, Netlist;
    GateRead(hexList, prev, cur, Enable);
    GateRead(hexList, prev, cur, Input);
  }

  lemma EnAndLag(hexList: seq<string>, prev: Env, cur: Env, i: nat, k: nat)
    requires GatesLag(Netlist(hexList), prev, cur) && HasStage(hexList, i, k)
    ensures Get(cur, Show(EnAnd(i, k))) ==
            AndLogic(Get(prev, Show(Enable)), Get(prev, Show(CmpName(hexList, i, k))))
  {
    hide Show, Netlist;
    GateRead(hexList, prev, cur, EnAnd(i, k));
  }

  lemma MatchLag(hexList: seq<string>, prev: Env, cur: Env, i: nat)
    requires GatesLag(Netlist(hexList), prev, cur) && NoBlank(hexList) && i < |hexList|
    ensures Stages(hexList[i]) > 0
    ensures Get(cur, Show(Match(i))) ==
            if Get(prev, Show(Reset)) == Low then Get(prev, Show(CmpName(hexList, i, Stages(hexList[i]) - 1))) else Low
  {
    hide Show, Netlist;
    LastStage(hexList, i);
    GateRead(hexList, prev, cur, Match(i));
  }

  lemma FrontRead(hexList: seq<string>, env: Env, p: Pins)
    requires Settled(hexList, env, p)
    ensures Get(env, Show(Enable)) == Bit(p.data != 0) && Get(env, Show(Input)) == Vector(p.data)
  {
    hide Show, Netlist;
    FrontLag(hexList, env, env);
  }

  lemma EnAndRead(hexList: seq<string>, env: Env, p: Pins, i: nat, row: Row, k: nat)
    requires Inv(hexList, env, p, i, row) && k < |row.stages|
    ensures Get(env, Show(EnAnd(i, k))) == Bit(p.data != 0 && row.stages[k])
  {
    hide Show, Netlist, Inv;
    InvParts(hexList, env, p, i, row);
    FrontRead(hexList, env, p);
    CompareRead(hexList, env, p, i, row, k);
    EnAndLag(hexList, env, env, i, k);
  }

  /** The settled match signal is the last comparator, gated by reset. */
  lemma MatchRead(hexList: seq<string>, env: Env, p: Pins, i: nat, row: Row)
    requires Inv(hexList, env, p, i, row)
    ensures |row.stages| > 0
    ensures Get(env, Show(Match(i))) == Bit(!p.reset && row.stages[|row.stages| - 1])
  {
    hide Show, Netlist, Inv, CmpName, GatesLag, Compiled, RowOk;
    InvParts(hexList, env, p, i, row);
    SettledLag(hexList, env, p);
    MatchLag(hexList, env, env, i);
    CompareRead(hexList, env, p, i, row, |row.stages| - 1);
  }

  // ----- The port change -----

  /** The environment in which the ports have changed and nothing has reacted yet. */
  function Struck(env: Env, q: Pins): Env {
    env + PortEnv(q)
  }

  lemma PortsOnly(hexList: seq<string>, env: Env, q: Pins, n: Name)
    requires HexTexts(hexList) && IsDriven(hexList, n)
    ensures Get(Struck(env, q), Show(n)) == Get(env, Show(n))
  {
    hide Show, Netlist;
    DrivenValid(hexList, n);
    forall m: Name | m in {Reset, DataIn} ensures Show(m) != Show(n) {
      if Show(m) == Show(n) {
        ShowEqual(m, n);
      }
    }
  }

  lemma PortNamesDiffer()
    ensures Show(Reset) != Show(DataIn)
  {}

  lemma PinsMoved(hexList: seq<string>, env: Env, p: Pins, q: Pins)
    requires Settled(hexList, env, p)
    ensures Struck(env, q).Keys == env.Keys
    ensures Get(Struck(env, q), Show(Reset)) == Bit(q.reset)
    ensures Get(Struck(env, q), Show(DataIn)) == Vector(q.data)
    ensures GatesLag(Netlist(hexList), env, Struck(env, q))
  {
    hide Show, Netlist;
    PortNamesDiffer();
    NetlistDeclared(hexList, env);
    InputsUndriven(hexList);
    forall s | s in Netlist(hexList) ensures Get(Struck(env, q), s.target) == Get(env, s.target) {
      assert Driven(Netlist(hexList), s.target);
    }
  }

  // ----- The first delta cycle: a change of reset has run the comparators -----

  function First(hexList: seq<string>, env: Env, q: Pins): Env {
    Delta(Netlist(hexList), env, Struck(env, q))
  }

  lemma Executed(hexList: seq<string>, prev: Env, cur: Env, n: Name)
    requires Admissible(hexList) && IsDriven(hexList, n) && cur.Keys == Compiled(hexList).Objects()
    ensures Get(Delta(Netlist(hexList), prev, cur), Show(n)) == Exec(Driver(hexList, n), prev, cur)
  {
    hide Show, Netlist, Driver, Exec;
    NetlistOneDriver(hexList);
    NetlistDeclared(hexList, cur);
    DriverInNetlist(hexList, n);
    DriverTarget(hexList, n);
    DeltaDriven(Netlist(hexList), prev, cur, Driver(hexList, n));
  }

  lemma FirstPins(hexList: seq<string>, env: Env, p: Pins, q: Pins)
    requires Settled(hexList, env, p)
    ensures var next := First(hexList, env, q);
            && next.Keys == env.Keys && GatesLag(Netlist(hexList), Struck(env, q), next)
            && Get(next, Show(Reset)) == Bit(q.reset)
            && Get(next, Show(DataIn)) == Vector(q.data)
            && Get(next, Show(Enable)) == Bit(q.data != 0)
            && Get(next, Show(Input)) == Vector(q.data)
  {
    hide Show, Netlist, Struck;
    var cur := Struck(env, q);
    PinsMoved(hexList, env, p, q);
    NetlistOneDriver(hexList);
    NetlistDeclared(hexList, cur);
    InputsUndriven(hexList);
    DeltaFree(Netlist(hexList), env, cur, Show(Reset));
    DeltaFree(Netlist(hexList), env, cur, Show(DataIn));
    DeltaKeepsLag(Netlist(hexList), env, cur);
    FrontLag(hexList, cur, First(hexList, env, q));
  }

  lemma CompareDriver(hexList: seq<string>, i: nat, k: nat)
    requires HasStage(hexList, i, k)
    ensures var s, n := Driver(hexList, CmpName(hexList, i, k)), CmpName(hexList, i, k);
            && s.LatchedCompare? && s.target == Show(n) && s.reset == Show(Reset) && s.data == Show(Input)
            && s.enable == (if k == 0 then Show(Enable) else Show(EnAnd(i, k - 1)))
            && s.sig == Slice(hexList[i], k)
  {
    hide Show, Slice;
  }

  /** What comparator `k` is enabled by, before the event. */
  lemma EnableRead(hexList: seq<string>, env: Env, p: Pins, i: nat, row: Row, k: nat)
    requires Inv(hexList, env, p, i, row) && k < |row.stages|
    ensures Get(env, if k == 0 then Show(Enable) else Show(EnAnd(i, k - 1))) ==
            Bit(p.data != 0 && (k == 0 || row.stages[k - 1]))
  {
    hide Show, Netlist, Inv, Settled, RowOk, CmpName;
    InvParts(hexList, env, p, i, row);
    if k == 0 {
      FrontRead(hexList, env, p);
    } else {
      EnAndRead(hexList, env, p, i, row, k - 1);
    }
  }

  lemma FirstCompare(hexList: seq<string>, env: Env, p: Pins, i: nat, row: Row, q: Pins, sig: Line, k: nat)
    requires Inv(hexList, env, p, i, row) && HexTexts(hexList) && i < |hexList|
    requires sig == Signature(hexList, i) && k < |row.stages| == |sig|
    ensures Get(First(hexList, env, q), Show(CmpName(hexList, i, k))) == Bit(Woken(sig, p, row.stages, q)[k])
  {
    hide Show, Netlist, Inv, Struck, Slice, CmpName, Driver, GatesLag, Compiled;
    InvParts(hexList, env, p, i, row);
    LiteralOfSlice(hexList, i, k);
    var n, cur := CmpName(hexList, i, k), Struck(env, q);
    CompareRead(hexList, env, p, i, row, k);
    EnableRead(hexList, env, p, i, row, k);
    FrontRead(hexList, env, p);
    PinsMoved(hexList, env, p, q);
    PortsOnly(hexList, env, q, n);
    PortsOnly(hexList, env, q, Input);
    PortsOnly(hexList, env, q, if k == 0 then Enable else EnAnd(i, k - 1));
    CompareDriver(hexList, i, k);
    Executed(hexList, env, cur, n);
    CompareExec(Driver(hexList, n), env, cur);
  }

  /** A comparator runs on an event of reset or of the byte. */
  lemma CompareExec(s: Stmt, prev: Env, cur: Env)
    requires s.LatchedCompare?
    ensures Exec(s, prev, cur) ==
            if !Event(prev, cur, s.reset) && !Event(prev, cur, s.data) then Get(cur, s.target)
            else if Get(cur, s.reset) == High then Low
            else if Get(cur, s.enable) == High then Equal(Get(cur, s.data), s.sig)
            else Get(cur, s.target)
  {
    assert s.reset in s.Sensitivity() && s.data in s.Sensitivity();
  }

  lemma PullExec(s: Stmt, prev: Env, cur: Env)
    requires s.LevelPullUp?
    ensures Exec(s, prev, cur) ==
            if !Event(prev, cur, s.enable) && !Event(prev, cur, s.reset) && !Event(prev, cur, s.match_) then Get(cur, s.target)
            else if Get(cur, s.reset) == High then Low
            else if Get(cur, s.enable) == High && Get(cur, s.match_) == High then High
            else Get(cur, s.target)
  {
    assert s.enable in s.Sensitivity() && s.reset in s.Sensitivity() && s.match_ in s.Sensitivity();
  }

  lemma PullDriver(hexList: seq<string>, i: nat)
    requires i < |hexList|
    ensures Driver(hexList, Output(i)) ==
            LevelPullUp(Show(PullLabel(i)), Show(Enable), Show(Reset), Show(Match(i)), Show(Output(i)))
  {
    hide Show;
  }

  /** What an output does in a delta cycle. */
  lemma PullExecuted(hexList: seq<string>, prev: Env, cur: Env, i: nat)
    requires Admissible(hexList) && i < |hexList| && cur.Keys == Compiled(hexList).Objects()
    ensures var old_ := Get(cur, Show(Output(i)));
            Get(Delta(Netlist(hexList), prev, cur), Show(Output(i))) ==
            if !Event(prev, cur, Show(Enable)) && !Event(prev, cur, Show(Reset)) && !Event(prev, cur, Show(Match(i))) then old_
            else if Get(cur, Show(Reset)) == High then Low
            else if Get(cur, Show(Enable)) == High && Get(cur, Show(Match(i))) == High then High
            else old_
  {
    hide Show, Netlist, Driver, Exec, Event, Compiled;
    PullDriver(hexList, i);
    Executed(hexList, prev, cur, Output(i));
    PullExec(Driver(hexList, Output(i)), prev, cur);
  }

  lemma FirstOutput(hexList: seq<string>, env: Env, p: Pins, i: nat, row: Row, q: Pins)
    requires Inv(hexList, env, p, i, row)
    ensures Get(First(hexList, env, q), Show(Output(i))) == Bit(!q.reset && row.latched)
  {
    hide Show, Netlist, Inv, Struck, Compiled;
    InvParts(hexList, env, p, i, row);
    PinsMoved(hexList, env, p, q);
    MatchRead(hexList, env, p, i, row);
    PortsOnly(hexList, env, q, Output(i));
    PortsOnly(hexList, env, q, Match(i));
    PortsOnly(hexList, env, q, Enable);
    PullExecuted(hexList, env, Struck(env, q), i);
  }

  // ----- The second delta cycle: the byte has run the comparators -----

  function Second(hexList: seq<string>, env: Env, q: Pins): Env {
    Delta(Netlist(hexList), Struck(env, q), First(hexList, env, q))
  }

  lemma FirstEnAnd(hexList: seq<string>, env: Env, p: Pins, i: nat, row: Row, q: Pins, k: nat)
    requires Inv(hexList, env, p, i, row) && k < |row.stages|
    ensures Get(First(hexList, env, q), Show(EnAnd(i, k))) == Bit(p.data != 0 && row.stages[k])
  {
    hide Show, Netlist, Inv, Struck, First, CmpName, Settled, RowOk;
    InvParts(hexList, env, p, i, row);
    FirstPins(hexList, env, p, q);
    FrontRead(hexList, env, p);
    CompareRead(hexList, env, p, i, row, k);
    PortsOnly(hexList, env, q, Enable);
    PortsOnly(hexList, env, q, CmpName(hexList, i, k));
    EnAndLag(hexList, Struck(env, q), First(hexList, env, q), i, k);
  }

  /** In the second delta cycle stage 0 sees the new enable, every other stage the one of before the event. */
  lemma FirstEnable(hexList: seq<string>, env: Env, p: Pins, i: nat, row: Row, q: Pins, k: nat)
    requires Inv(hexList, env, p, i, row) && k < |row.stages|
    ensures Get(First(hexList, env, q), if k == 0 then Show(Enable) else Show(EnAnd(i, k - 1))) ==
            Bit(if k == 0 then q.data != 0 else p.data != 0 && row.stages[k - 1])
  {
    hide Show, Netlist, Inv, Struck, First, CmpName, Settled, RowOk;
    InvParts(hexList, env, p, i, row);
    if k == 0 {
      FirstPins(hexList, env, p, q);
    } else {
      FirstEnAnd(hexList, env, p, i, row, q, k - 1);
    }
  }

  lemma SecondCompare(hexList: seq<string>, env: Env, p: Pins, i: nat, row: Row, q: Pins, sig: Line, k: nat)
    requires Inv(hexList, env, p, i, row) && HexTexts(hexList) && i < |hexList|
    requires sig == Signature(hexList, i) && k < |row.stages| == |sig|
    ensures Get(Second(hexList, env, q), Show(CmpName(hexList, i, k))) == Bit(Compared(sig, p, row.stages, q)[k])
  {
    hide Show, Netlist, Inv, Struck, First, Slice, Compiled, Driver, CmpName;
    InvParts(hexList, env, p, i, row);
    LiteralOfSlice(hexList, i, k);
    var n, cur, next := CmpName(hexList, i, k), Struck(env, q), First(hexList, env, q);
    CompareRead(hexList, env, p, i, row, k);
    FrontRead(hexList, env, p);
    PinsMoved(hexList, env, p, q);
    FirstPins(hexList, env, p, q);
    PortsOnly(hexList, env, q, Input);
    FirstCompare(hexList, env, p, i, row, q, sig, k);
    FirstEnable(hexList, env, p, i, row, q, k);
    CompareDriver(hexList, i, k);
    Executed(hexList, cur, next, n);
    CompareExec(Driver(hexList, n), cur, next);
  }

  lemma FirstMatch(hexList: seq<string>, env: Env, p: Pins, i: nat, row: Row, q: Pins)
    requires Inv(hexList, env, p, i, row)
    ensures |row.stages| > 0
    ensures Get(First(hexList, env, q), Show(Match(i))) == Bit(!q.reset && row.stages[|row.stages| - 1])
  {
    hide Show, Netlist, Inv, Struck, First, CmpName, Settled, RowOk, GatesLag, Compiled;
    InvParts(hexList, env, p, i, row);
    PinsMoved(hexList, env, p, q);
    FirstPins(hexList, env, p, q);
    MatchLag(hexList, Struck(env, q), First(hexList, env, q), i);
    CompareRead(hexList, env, p, i, row, |row.stages| - 1);
    PortsOnly(hexList, env, q, CmpName(hexList, i, |row.stages| - 1));
  }

  lemma SecondPins(hexList: seq<string>, env: Env, p: Pins, q: Pins)
    requires Settled(hexList, env, p)
    ensures var cur, next := First(hexList, env, q), Second(hexList, env, q);
            && next.Keys == env.Keys && GatesLag(Netlist(hexList), cur, next)
            && EventsFrom(Netlist(hexList), cur, next, RankBy(RankOf), 2)
            && Get(next, Show(Reset)) == Bit(q.reset)
            && Get(next, Show(DataIn)) == Vector(q.data)
            && Get(next, Show(Enable)) == Bit(q.data != 0)
  {
    hide Show, Netlist, RankBy, Struck, First;
    var net, start, cur := Netlist(hexList), Struck(env, q), First(hexList, env, q);
    PinsMoved(hexList, env, p, q);
    FirstPins(hexList, env, p, q);
    NetlistOneDriver(hexList);
    NetlistDeclared(hexList, cur);
    InputsUndriven(hexList);
    DeltaFree(net, start, cur, Show(Reset));
    DeltaFree(net, start, cur, Show(DataIn));
    DeltaKeepsLag(net, start, cur);
    FrontLag(hexList, cur, Second(hexList, env, q));
    EventsRise(hexList, env, p, q);
  }

  lemma EventsRise(hexList: seq<string>, env: Env, p: Pins, q: Pins)
    requires Settled(hexList, env, p)
    ensures EventsFrom(Netlist(hexList), First(hexList, env, q), Second(hexList, env, q), RankBy(RankOf), 2)
  {
    hide Show, Netlist, RankBy, Struck;
    var net, start, cur := Netlist(hexList), Struck(env, q), First(hexList, env, q);
    PinsMoved(hexList, env, p, q);
    FirstPins(hexList, env, p, q);
    NetlistOneDriver(hexList);
    NetlistRanked(hexList);
    NetlistDeclared(hexList, start);
    NetlistDeclared(hexList, cur);
    DeltaRaisesEvents(net, env, start, RankBy(RankOf), 4, 0);
    DeltaRaisesEvents(net, start, cur, RankBy(RankOf), 4, 1);
  }

  lemma TwoDeltas(hexList: seq<string>, env: Env, p: Pins, q: Pins, limit: nat)
    requires Settled(hexList, env, p) && limit >= 2
    ensures Apply(Netlist(hexList), env, PortEnv(q), limit) ==
            Settle(Netlist(hexList), First(hexList, env, q), Second(hexList, env, q), limit - 2)
  {
    hide Show, Netlist, Settle, GatesLag, PortEnv, Compiled, Delta;
    PinsMoved(hexList, env, p, q);
    FirstPins(hexList, env, p, q);
    NetlistOneDriver(hexList);
    NetlistDeclared(hexList, Struck(env, q));
    NetlistDeclared(hexList, First(hexList, env, q));
    SettleUnfold(Netlist(hexList), env, Struck(env, q), limit);
    SettleUnfold(Netlist(hexList), Struck(env, q), First(hexList, env, q), limit - 1);
  }

  lemma SecondOutput(hexList: seq<string>, env: Env, p: Pins, i: nat, row: Row, q: Pins)
    requires Inv(hexList, env, p, i, row)
    ensures |row.stages| > 0
    ensures Get(Second(hexList, env, q), Show(Output(i))) ==
            Bit(!q.reset && (row.latched || (q.data != 0 && row.stages[|row.stages| - 1])))
  {
    hide Show, Netlist, Inv, Struck, First, Compiled;
    InvParts(hexList, env, p, i, row);
    FrontRead(hexList, env, p);
    MatchRead(hexList, env, p, i, row);
    PortsOnly(hexList, env, q, Enable);
    PortsOnly(hexList, env, q, Match(i));
    PinsMoved(hexList, env, p, q);
    FirstPins(hexList, env, p, q);
    FirstOutput(hexList, env, p, i, row, q);
    FirstMatch(hexList, env, p, i, row, q);
    PullExecuted(hexList, Struck(env, q), First(hexList, env, q), i);
  }

  // ----- The rest: comparators and enable are final, the match travels to the output -----

  /** Where an output can stand while matches travel to it: `high` is what becomes of it, `held` what the last
      comparator holds for good. */
  ghost predicate OutputPending(hexList: seq<string>, prev: Env, cur: Env, i: nat, q: Pins, high: bool, held: bool)
    requires i < |hexList| && Stages(hexList[i]) > 0
  {
    var out, live := Get(cur, Show(Output(i))), Get(cur, Show(Match(i))) == High;
    && Get(cur, Show(Reset)) == Bit(q.reset) && Get(cur, Show(Enable)) == Bit(q.data != 0)
    && Get(cur, Show(CmpName(hexList, i, Stages(hexList[i]) - 1))) == Bit(held)
    && (out == High || out == Low)
    && (q.reset ==> !high && !live && !held && out == Low)
    && (!q.reset ==> (high <==> out == High || (q.data != 0 && (live || held))))
    && (!q.reset && Get(prev, Show(Enable)) == High && Get(prev, Show(Match(i))) == High ==> out == High)
  }

  lemma RankedAtMost2(hexList: seq<string>, i: nat)
    requires Admissible(hexList) && i < |hexList|
    ensures Stages(hexList[i]) > 0
    ensures RankBy(RankOf)(Show(Reset)) == 0 && RankBy(RankOf)(Show(DataIn)) == 0 && RankBy(RankOf)(Show(Enable)) == 1
    ensures forall k :: HasStage(hexList, i, k) ==> RankBy(RankOf)(Show(CmpName(hexList, i, k))) == 2
  {
    hide Show, RankBy, Slice;
    StagesSignature(hexList, i);
    RankByShow(RankOf, Reset);
    RankByShow(RankOf, DataIn);
    RankByShow(RankOf, Enable);
    forall k | HasStage(hexList, i, k) ensures RankBy(RankOf)(Show(CmpName(hexList, i, k))) == 2 {
      SliceText(hexList[i], k);
      RankByShow(RankOf, CmpName(hexList, i, k));
    }
  }

  lemma PendingStep(hexList: seq<string>, prev: Env, cur: Env, low: nat, i: nat, q: Pins, high: bool, held: bool)
    requires Admissible(hexList) && i < |hexList| && Stages(hexList[i]) > 0
    requires cur.Keys == Compiled(hexList).Objects() && GatesLag(Netlist(hexList), prev, cur)
    requires EventsFrom(Netlist(hexList), prev, cur, RankBy(RankOf), low) && low >= 2
    requires OutputPending(hexList, prev, cur, i, q, high, held)
    ensures var next := Delta(Netlist(hexList), prev, cur);
            && next.Keys == cur.Keys && GatesLag(Netlist(hexList), cur, next)
            && EventsFrom(Netlist(hexList), cur, next, RankBy(RankOf), low + 1)
            && OutputPending(hexList, cur, next, i, q, high, held)
  {
    hide Show, Netlist, RankBy, CmpName, Compiled;
    var net, next := Netlist(hexList), Delta(Netlist(hexList), prev, cur);
    NetlistOneDriver(hexList);
    NetlistRanked(hexList);
    NetlistDeclared(hexList, cur);
    DeltaKeepsLag(net, prev, cur);
    DeltaRaisesEvents(net, prev, cur, RankBy(RankOf), 4, low);
    RankedAtMost2(hexList, i);
    assert HasStage(hexList, i, Stages(hexList[i]) - 1);
    assert forall x :: RankBy(RankOf)(x) <= 2 ==> !Event(cur, next, x);
    MatchLag(hexList, cur, next, i);
    PullExecuted(hexList, prev, cur, i);
  }

  lemma {:induction false} SettleOutput(hexList: seq<string>, prev: Env, cur: Env, limit: nat, low: nat,
                                        i: nat, q: Pins, high: bool, held: bool)
    requires Admissible(hexList) && i < |hexList| && Stages(hexList[i]) > 0
    requires cur.Keys == Compiled(hexList).Objects() && GatesLag(Netlist(hexList), prev, cur)
    requires EventsFrom(Netlist(hexList), prev, cur, RankBy(RankOf), low) && low >= 2
    requires OutputPending(hexList, prev, cur, i, q, high, held)
    ensures var out := Settle(Netlist(hexList), prev, cur, limit);
            out.Stable? ==> Get(out.env, Show(Output(i))) == Bit(high)
    decreases limit
  {
    hide Show, Netlist, RankBy, Compiled, EventsFrom;
    if prev == cur {
      MatchLag(hexList, cur, cur, i);
    } else if limit > 0 {
      PendingStep(hexList, prev, cur, low, i, q, high, held);
      SettleOutput(hexList, cur, Delta(Netlist(hexList), prev, cur), limit - 1, low + 1, i, q, high, held);
    }
  }

  // ----- One port event, and whole runs -----

  lemma PendingStart(hexList: seq<string>, env: Env, p: Pins, i: nat, row: Row, q: Pins, sig: Line)
    requires Inv(hexList, env, p, i, row) && HexTexts(hexList) && i < |hexList|
    requires sig == Signature(hexList, i) && |row.stages| == |sig| == Stages(hexList[i]) > 0
    ensures OutputPending(hexList, First(hexList, env, q), Second(hexList, env, q), i, q,
                          RowStep(sig, p, row, q).latched, Compared(sig, p, row.stages, q)[|sig| - 1])
  {
    hide Show, Netlist, Inv, First, Second, RankBy, Compiled, Woken, Compared, Settled, CmpName, RowOk;
    InvParts(hexList, env, p, i, row);
    var cur, next := First(hexList, env, q), Second(hexList, env, q);
    SecondPins(hexList, env, p, q);
    FirstPins(hexList, env, p, q);
    FirstMatch(hexList, env, p, i, row, q);
    FirstCompare(hexList, env, p, i, row, q, sig, |sig| - 1);
    SecondCompare(hexList, env, p, i, row, q, sig, |sig| - 1);
    SecondOutput(hexList, env, p, i, row, q);
    MatchLag(hexList, cur, next, i);
    if q.reset {
      LowInReset(sig, p, row, q);
    }
  }

  lemma LowInReset(sig: Line, p: Pins, row: Row, q: Pins)
    requires RowOk(sig, p, row) && q.reset
    ensures Compared(sig, p, row.stages, q) == Cleared(|sig|)
  {}

  lemma OutputStep(hexList: seq<string>, env: Env, p: Pins, i: nat, row: Row, q: Pins, limit: nat)
    requires Inv(hexList, env, p, i, row) && limit >= 6
    ensures HexTexts(hexList) && i < |hexList| && |row.stages| == |Signature(hexList, i)| > 0
    ensures var out := Apply(Netlist(hexList), env, PortEnv(q), limit);
            out.Stable? ==> Get(out.env, Show(Output(i))) == Bit(RowStep(Signature(hexList, i), p, row, q).latched)
  {
    hide Show, Netlist, Inv, First, Second, RankBy, Compiled, OutputPending, Woken, Compared, Settled;
    InvParts(hexList, env, p, i, row);
    var sig := Signature(hexList, i);
    TwoDeltas(hexList, env, p, q, limit);
    SecondPins(hexList, env, p, q);
    FirstPins(hexList, env, p, q);
    SettledKeys(hexList, env, p);
    PendingStart(hexList, env, p, i, row, q, sig);
    SettleOutput(hexList, First(hexList, env, q), Second(hexList, env, q), limit - 2, 2, i, q,
                 RowStep(sig, p, row, q).latched, Compared(sig, p, row.stages, q)[|sig| - 1]);
  }

  lemma SettledKeys(hexList: seq<string>, env: Env, p: Pins)
    requires Settled(hexList, env, p)
    ensures Admissible(hexList) && env.Keys == Compiled(hexList).Objects()
  {}

  lemma SettledStep(hexList: seq<string>, env: Env, p: Pins, q: Pins, limit: nat)
    requires Settled(hexList, env, p) && limit >= 6
    ensures var out := Apply(Netlist(hexList), env, PortEnv(q), limit);
            && out.Stable? && Settled(hexList, out.env, q)
            && forall x :: RankBy(RankOf)(x) <= 2 ==> Get(out.env, x) == Get(Second(hexList, env, q), x)
  {
    hide Show, Netlist, First, Second, RankBy, Compiled;
    TwoDeltas(hexList, env, p, q, limit);
    SecondPins(hexList, env, p, q);
    FirstPins(hexList, env, p, q);
    NetlistOneDriver(hexList);
    NetlistRanked(hexList);
    NetlistDeclared(hexList, Second(hexList, env, q));
    RankByShow(RankOf, Reset);
    RankByShow(RankOf, DataIn);
    SettleGates(Netlist(hexList), First(hexList, env, q), Second(hexList, env, q), limit - 2, RankBy(RankOf), 4, 2);
  }

  lemma InvStep(hexList: seq<string>, env: Env, p: Pins, i: nat, row: Row, q: Pins, limit: nat)
    requires Inv(hexList, env, p, i, row) && limit >= 6
    ensures HexTexts(hexList) && i < |hexList| && |row.stages| == |Signature(hexList, i)| > 0
    ensures var out := Apply(Netlist(hexList), env, PortEnv(q), limit);
            out.Stable? && Inv(hexList, out.env, q, i, RowStep(Signature(hexList, i), p, row, q))
  {
    hide Show, Netlist, First, Second, RankBy, Compiled, CmpName, Settled, PortEnv, Apply, Woken, Compared;
    InvParts(hexList, env, p, i, row);
    var sig := Signature(hexList, i);
    SettledStep(hexList, env, p, q, limit);
    OutputStep(hexList, env, p, i, row, q, limit);
    RowStepOk(sig, p, row, q);
    RankedAtMost2(hexList, i);
    var out, stages := Apply(Netlist(hexList), env, PortEnv(q), limit).env, Compared(sig, p, row.stages, q);
    forall k | 0 <= k < |sig| ensures Get(out, Show(CmpName(hexList, i, k))) == Bit(stages[k]) {
      SecondCompare(hexList, env, p, i, row, q, sig, k);
    }
  }

  /** While reset is high no settling raises a comparator or an output. */
  lemma {:induction false} SettleInReset(hexList: seq<string>, prev: Env, cur: Env, limit: nat, n: Name)
    requires Admissible(hexList) && IsDriven(hexList, n) && (n.Cmp? || n.Output?)
    requires cur.Keys == Compiled(hexList).Objects()
    requires Get(cur, Show(Reset)) == High && Get(cur, Show(n)) == Low
    ensures var out := Settle(Netlist(hexList), prev, cur, limit);
            out.Stable? ==> Get(out.env, Show(n)) == Low
    decreases limit
  {
    hide Show, Netlist, Compiled, Slice;
    if prev != cur && limit > 0 {
      InputsUndriven(hexList);
      DeltaFree(Netlist(hexList), prev, cur, Show(Reset));
      Executed(hexList, prev, cur, n);
      DriverTarget(hexList, n);
      SettleInReset(hexList, cur, Delta(Netlist(hexList), prev, cur), limit - 1, n);
    }
  }

  // ----- Power-up and the first reset -----

  lemma StartLag(hexList: seq<string>, env: Env, p: Pins)
    requires Admissible(hexList) && env.Keys == Compiled(hexList).Objects()
    ensures var start := env + PortEnv(p);
            var next := Initialize(Netlist(hexList), start);
            && start.Keys == next.Keys == env.Keys && GatesLag(Netlist(hexList), start, next)
            && Get(next, Show(Reset)) == Bit(p.reset) && Get(next, Show(DataIn)) == Vector(p.data)
            && forall n :: p.reset && IsDriven(hexList, n) && (n.Cmp? || n.Output?) ==> Get(next, Show(n)) == Low
  {
    hide Show, Netlist, Compiled, Slice;
    var start := env + PortEnv(p);
    var net, next := Netlist(hexList), Initialize(Netlist(hexList), start);
    NetlistOneDriver(hexList);
    NetlistDeclared(hexList, env);
    InputsUndriven(hexList);
    PortNamesDiffer();
    NextValueFree(net, start, start, Show(Reset), true);
    NextValueFree(net, start, start, Show(DataIn), true);
    forall s | s in net ensures Get(next, s.target) == Body(s, start, start) {
      NextValueDriven(net, start, start, s, true);
    }
    forall n | p.reset && IsDriven(hexList, n) && (n.Cmp? || n.Output?) ensures Get(next, Show(n)) == Low {
      DriverInNetlist(hexList, n);
      DriverTarget(hexList, n);
    }
  }

  lemma StartEvents(hexList: seq<string>, env: Env, p: Pins)
    requires Admissible(hexList) && env.Keys == Compiled(hexList).Objects()
    ensures var start := env + PortEnv(p);
            EventsFrom(Netlist(hexList), start, Initialize(Netlist(hexList), start), RankBy(RankOf), 0)
  {
    hide Show, Netlist, RankBy;
    var start := env + PortEnv(p);
    var net, next := Netlist(hexList), Initialize(Netlist(hexList), start);
    forall x | Event(start, next, x) ensures Driven(net, x) {
      if !Driven(net, x) {
        NextValueFree(net, start, start, x, true);
      }
    }
  }

  /** Initialization settles, in reset or not. */
  lemma SettledStart(hexList: seq<string>, env: Env, p: Pins, limit: nat)
    requires Admissible(hexList) && env.Keys == Compiled(hexList).Objects() && limit >= 6
    ensures var out := PowerUp(Netlist(hexList), env, PortEnv(p), limit);
            out.Stable? && Settled(hexList, out.env, p)
  {
    hide Show, Netlist, RankBy, Compiled, Slice, PortEnv, Driver;
    var start := env + PortEnv(p);
    var net, next := Netlist(hexList), Initialize(Netlist(hexList), start);
    StartLag(hexList, env, p);
    NetlistOneDriver(hexList);
    NetlistRanked(hexList);
    NetlistDeclared(hexList, next);
    RankByShow(RankOf, Reset);
    RankByShow(RankOf, DataIn);
    StartEvents(hexList, env, p);
    SettleGates(net, start, next, limit, RankBy(RankOf), 4, 0);
  }

  /** Settling from an environment in reset in which a row is low leaves it low. */
  lemma RowCleared(hexList: seq<string>, prev: Env, cur: Env, limit: nat, i: nat, q: Pins)
    requires Admissible(hexList) && i < |hexList| && q.reset && cur.Keys == Compiled(hexList).Objects()
    requires Get(cur, Show(Reset)) == High && Settle(Netlist(hexList), prev, cur, limit).Stable?
    requires forall n :: IsDriven(hexList, n) && (n.Cmp? || n.Output?) ==> Get(cur, Show(n)) == Low
    requires Settled(hexList, Settle(Netlist(hexList), prev, cur, limit).env, q)
    ensures Inv(hexList, Settle(Netlist(hexList), prev, cur, limit).env, q, i,
                Row(Cleared(|Signature(hexList, i)|), false))
  {
    hide Show, Netlist, Compiled, Slice, Settled, Settle;
    StagesSignature(hexList, i);
    var out := Settle(Netlist(hexList), prev, cur, limit).env;
    SettleInReset(hexList, prev, cur, limit, Output(i));
    forall k | 0 <= k < |Signature(hexList, i)| ensures Get(out, Show(CmpName(hexList, i, k))) == Low {
      SettleInReset(hexList, prev, cur, limit, CmpName(hexList, i, k));
    }
  }

  lemma InvStart(hexList: seq<string>, env: Env, p: Pins, i: nat, limit: nat)
    requires Admissible(hexList) && env.Keys == Compiled(hexList).Objects() && i < |hexList| && limit >= 6 && p.reset
    ensures Signature(hexList, i) != []
    ensures var out := PowerUp(Netlist(hexList), env, PortEnv(p), limit);
            out.Stable? && Inv(hexList, out.env, p, i, Row(Cleared(|Signature(hexList, i)|), false))
  {
    hide Show, Netlist, Compiled, Slice, PortEnv, Settled, Inv;
    var start := env + PortEnv(p);
    StagesSignature(hexList, i);
    SettledStart(hexList, env, p, limit);
    StartLag(hexList, env, p);
    RowCleared(hexList, start, Initialize(Netlist(hexList), start), limit, i, p);
  }

  /** A rising reset clears every row, whatever was in it. */
  lemma InvReset(hexList: seq<string>, env: Env, p: Pins, i: nat, q: Pins, limit: nat)
    requires Settled(hexList, env, p) && i < |hexList| && limit >= 6 && !p.reset && q.reset
    ensures HexTexts(hexList) && Signature(hexList, i) != []
    ensures var out := Apply(Netlist(hexList), env, PortEnv(q), limit);
            out.Stable? && Inv(hexList, out.env, q, i, Row(Cleared(|Signature(hexList, i)|), false))
  {
    hide Show, Netlist, Compiled, Slice, PortEnv, Settled, Inv, First, Struck;
    SettledKeys(hexList, env, p);
    StagesSignature(hexList, i);
    SettledStep(hexList, env, p, q, limit);
    OneDelta(hexList, env, p, q, limit);
    FirstPins(hexList, env, p, q);
    forall n | IsDriven(hexList, n) && (n.Cmp? || n.Output?) ensures Get(First(hexList, env, q), Show(n)) == Low {
      FirstCleared(hexList, env, p, q, n);
    }
    RowCleared(hexList, Struck(env, q), First(hexList, env, q), limit - 1, i, q);
  }

  lemma OneDelta(hexList: seq<string>, env: Env, p: Pins, q: Pins, limit: nat)
    requires Settled(hexList, env, p) && limit >= 1
    ensures Apply(Netlist(hexList), env, PortEnv(q), limit) ==
            Settle(Netlist(hexList), Struck(env, q), First(hexList, env, q), limit - 1)
  {
    hide Show, Netlist, Settle, GatesLag, PortEnv, Compiled, Delta;
    PinsMoved(hexList, env, p, q);
    NetlistOneDriver(hexList);
    NetlistDeclared(hexList, Struck(env, q));
    SettleUnfold(Netlist(hexList), env, Struck(env, q), limit);
  }

  lemma FirstCleared(hexList: seq<string>, env: Env, p: Pins, q: Pins, n: Name)
    requires Settled(hexList, env, p) && !p.reset && q.reset
    requires IsDriven(hexList, n) && (n.Cmp? || n.Output?)
    ensures Get(First(hexList, env, q), Show(n)) == Low
  {
    hide Show, Netlist, Compiled, Slice, Struck, GatesLag;
    PinsMoved(hexList, env, p, q);
    Executed(hexList, env, Struck(env, q), n);
    var s := Driver(hexList, n);
    assert s.reset == Show(Reset) && s.reset in s.Sensitivity();
    assert Event(env, Struck(env, q), s.reset);
  }

  // ----- Whole runs -----

  /** Every settling of every run ends within the iteration limit. */
  lemma {:induction false} RunSettles(hexList: seq<string>, trace: seq<Pins>, limit: nat)
    requires Admissible(hexList) && trace != [] && limit >= 6
    ensures var out := Simulate(Compiled(hexList), PortEnvs(trace), limit);
            out.Stable? && Settled(hexList, out.env, trace[|trace| - 1])
  {
    hide Show, Netlist, PowerUp, Apply, Settled, Elaborate, PortEnv;
    var d, last := Compiled(hexList), |trace| - 1;
    if last == 0 {
      ElaborateKeys(d);
      SettledStart(hexList, Elaborate(d), trace[0], limit);
    } else {
      RunSettles(hexList, trace[..last], limit);
      assert PortEnvs(trace)[..last] == PortEnvs(trace[..last]);
      SettledStep(hexList, Simulate(d, PortEnvs(trace[..last]), limit).env, trace[last - 1], trace[last], limit);
    }
  }

  /** Refinement over whole runs: whatever happens on the ports, from the first reset on the simulated comparators and
      output of signature `i` are those of its row. */
  lemma {:induction false} RunRefines(hexList: seq<string>, trace: seq<Pins>, i: nat, limit: nat)
    requires Admissible(hexList) && i < |hexList| && Resets(trace) && limit >= 6
    ensures Signature(hexList, i) != []
    ensures var out := Simulate(Compiled(hexList), PortEnvs(trace), limit);
            out.Stable? && Inv(hexList, out.env, trace[|trace| - 1], i, RunRow(Signature(hexList, i), trace))
  {
    hide Show, Netlist, PowerUp, Apply, Inv, Settled, Elaborate, PortEnv, RowStep;
    var d, last := Compiled(hexList), |trace| - 1;
    StagesSignature(hexList, i);
    var init := trace[..last];
    if last == 0 {
      ElaborateKeys(d);
      InvStart(hexList, Elaborate(d), trace[0], i, limit);
    } else {
      assert PortEnvs(trace)[..last] == PortEnvs(init);
      RunSettles(hexList, init, limit);
      var env := Simulate(d, PortEnvs(init), limit).env;
      if Resets(init) {
        RunRefines(hexList, init, i, limit);
        InvStep(hexList, env, trace[last - 1], i, RunRow(Signature(hexList, i), init), trace[last], limit);
      } else {
        InvReset(hexList, env, trace[last - 1], i, trace[last], limit);
      }
    }
  }
}
