/** The clocked netlist is a well-formed synchronous circuit: one driver per signal, every signal that is read
    is declared and driven, no combinational loop. */
module ClockedNetlist {
  import opened Vhdl
  import opened Names
  import opened Hex
  import opened Signatures
  import opened ClockedGenerator

  /** The signals and output ports that statements drive. */
  ghost predicate IsDriven(hexList: seq<string>, n: Name) {
    match n
    case Input => true
    case Cmp(i, hex, k) => HasStage(hexList, i, k) && hex == Slice(hexList[i], k)
    case Stage(i, k) => HasStage(hexList, i, k)
    case AndOut(i, k) => HasStage(hexList, i, k)
    case Match(i) => i < |hexList|
    case Hold(i) => i < |hexList|
    case Output(i) => i < |hexList|
    case _ => false
  }

  /** The statement that drives a signal. */
  ghost function Driver(hexList: seq<string>, n: Name): Stmt
    requires IsDriven(hexList, n)
  {
    match n
    case Input => Assign(Show(Input), Show(DataIn))
    case Cmp(i, _, k) => StageStmts(i, hexList[i], k)[0]
    case Stage(i, k) => StageStmts(i, hexList[i], k)[1]
    case AndOut(i, k) => StageStmts(i, hexList[i], k)[2]
    case Match(i) => MatchStmt(hexList, i)
    case Hold(i) => PullStmts(|hexList|)[i]
    case Output(i) => OutputStmts(|hexList|)[i]
  }

  lemma DriverTarget(hexList: seq<string>, n: Name)
    requires IsDriven(hexList, n)
    ensures Driver(hexList, n).target == Show(n)
  {
    hide Show;
  }

  lemma DrivenValid(hexList: seq<string>, n: Name)
    requires HexTexts(hexList) && IsDriven(hexList, n)
    ensures n.Valid()
  {
    if n.Cmp? {
      SliceText(hexList[n.i], n.k);
    }
  }

  ghost predicate Emitted(hexList: seq<string>, s: Stmt) {
    exists n: Name :: IsDriven(hexList, n) && s == Driver(hexList, n)
  }

  // ----- The netlist holds exactly the drivers -----

  lemma {:induction false} ChainEmitted(hexList: seq<string>, i: nat, stages: nat)
    requires i < |hexList| && stages <= Stages(hexList[i])
    ensures forall s :: s in ChainStmts(i, hexList[i], stages) ==> Emitted(hexList, s)
    ensures forall k :: 0 <= k < stages ==> forall s :: s in StageStmts(i, hexList[i], k) ==>
              s in ChainStmts(i, hexList[i], stages)
  {
    hide Show;
    if stages > 0 {
      ChainEmitted(hexList, i, stages - 1);
      StageEmitted(hexList, i, stages - 1);
    }
  }

  lemma StageEmitted(hexList: seq<string>, i: nat, k: nat)
    requires HasStage(hexList, i, k)
    ensures forall s :: s in StageStmts(i, hexList[i], k) ==> Emitted(hexList, s)
  {
    hide Show;
    assert IsDriven(hexList, Cmp(i, Slice(hexList[i], k), k));
    assert IsDriven(hexList, Stage(i, k));
    assert IsDriven(hexList, AndOut(i, k));
    var stmts := StageStmts(i, hexList[i], k);
    assert Driver(hexList, Cmp(i, Slice(hexList[i], k), k)) == stmts[0];
    assert Driver(hexList, Stage(i, k)) == stmts[1];
    assert Driver(hexList, AndOut(i, k)) == stmts[2];
  }

  lemma {:induction false} PortsEmitted(hexList: seq<string>, count: nat)
    requires count <= |hexList|
    ensures forall s :: s in PortStmts(hexList, count) ==> Emitted(hexList, s)
    ensures forall i, k :: 0 <= i < count && HasStage(hexList, i, k) ==>
              forall s :: s in StageStmts(i, hexList[i], k) ==> s in PortStmts(hexList, count)
    ensures forall i :: 0 <= i < count ==> MatchStmt(hexList, i) in PortStmts(hexList, count)
  {
    hide Show, StageStmts, Slice;
    if count > 0 {
      PortsEmitted(hexList, count - 1);
      ChainEmitted(hexList, count - 1, Stages(hexList[count - 1]));
      assert IsDriven(hexList, Match(count - 1));
    }
  }

  lemma NetlistEmitted(hexList: seq<string>, s: Stmt)
    requires s in Netlist(hexList)
    ensures Emitted(hexList, s)
  {
    hide Show, PortStmts;
    PortsEmitted(hexList, |hexList|);
    var count := |hexList|;
    if s == Assign(Show(Input), Show(DataIn)) {
      assert IsDriven(hexList, Input) && s == Driver(hexList, Input);
    } else if s in PullStmts(count) {
      var i :| 0 <= i < count && s == PullStmts(count)[i];
      assert IsDriven(hexList, Hold(i));
    } else if s in OutputStmts(count) {
      var i :| 0 <= i < count && s == OutputStmts(count)[i];
      assert IsDriven(hexList, Output(i));
    }
  }

  lemma DriverInNetlist(hexList: seq<string>, n: Name)
    requires IsDriven(hexList, n)
    ensures Driver(hexList, n) in Netlist(hexList)
  {
    hide Show, PortStmts;
    PortsEmitted(hexList, |hexList|);
    var s := Driver(hexList, n);
    match n {
      case Cmp(i, _, k) => assert s in StageStmts(i, hexList[i], k);
      case Stage(i, k) => assert s in StageStmts(i, hexList[i], k);
      case AndOut(i, k) => assert s in StageStmts(i, hexList[i], k);
      case Hold(i) => assert s in PullStmts(|hexList|);
      case Output(i) => assert s in OutputStmts(|hexList|);
      case _ =>
    }
  }

  lemma DriverUnique(hexList: seq<string>, s: Stmt, n: Name)
    requires HexTexts(hexList) && s in Netlist(hexList) && n.Valid() && s.target == Show(n)
    ensures IsDriven(hexList, n) && s == Driver(hexList, n)
  {
    hide Show, Netlist;
    NetlistEmitted(hexList, s);
    var m: Name :| IsDriven(hexList, m) && s == Driver(hexList, m);
    DriverTarget(hexList, m);
    DrivenValid(hexList, m);
    ShowEqual(m, n);
  }

  /** No two statements drive one signal. */
  lemma NetlistOneDriver(hexList: seq<string>)
    requires HexTexts(hexList)
    ensures OneDriver(Netlist(hexList))
  {
    hide Show, Netlist;
    forall s, t | s in Netlist(hexList) && t in Netlist(hexList) && s.target == t.target ensures s == t {
      NetlistEmitted(hexList, s);
      var m: Name :| IsDriven(hexList, m) && s == Driver(hexList, m);
      DriverTarget(hexList, m);
      DrivenValid(hexList, m);
      DriverUnique(hexList, t, m);
    }
  }

  // ----- Rank: the clock cuts every loop -----

  ghost function RankOf(n: Name): nat {
    match n
    case Input => 1
    case Stage(_, _) => 1
    case Output(_) => 1
    case Cmp(_, _, _) => 2
    case AndOut(_, _) => 3
    case Match(_) => 4
    case Hold(_) => 5
    case _ => 0
  }

  lemma DriverRanked(hexList: seq<string>, n: Name)
    requires HexTexts(hexList) && IsDriven(hexList, n)
    ensures RankedStmt(Driver(hexList, n), RankBy(RankOf), 5)
    ensures SynchronousStmt(Driver(hexList, n), Show(Clk), Show(Reset))
  {
    hide Show, RankBy;
    DriverTarget(hexList, n);
    DrivenValid(hexList, n);
    RankByShow(RankOf, n);
    RankByShow(RankOf, Clk);
    RankByShow(RankOf, Reset);
    RankByShow(RankOf, DataIn);
    RankByShow(RankOf, Input);
    match n {
      case AndOut(i, k) =>
        SliceText(hexList[i], k);
        RankByShow(RankOf, Stage(i, k));
        RankByShow(RankOf, Cmp(i, Slice(hexList[i], k), k));
      case Match(i) => RankByShow(RankOf, AndOut(i, LeftoverStage(hexList, i + 1)));
      case Hold(i) => RankByShow(RankOf, Match(i));
      case _ =>
    }
  }

  /** Every settling of the emitted netlist ends: waking signals rank strictly below the signal they drive. */
  lemma NetlistRanked(hexList: seq<string>)
    requires HexTexts(hexList)
    ensures Ranked(Netlist(hexList), RankBy(RankOf), 5)
    ensures Synchronous(Netlist(hexList), Show(Clk), Show(Reset))
  {
    hide Show, RankBy, Netlist;
    forall s | s in Netlist(hexList)
      ensures RankedStmt(s, RankBy(RankOf), 5) && SynchronousStmt(s, Show(Clk), Show(Reset))
    {
      NetlistEmitted(hexList, s);
      var n: Name :| IsDriven(hexList, n) && s == Driver(hexList, n);
      DriverRanked(hexList, n);
    }
  }

  lemma InputsUndriven(hexList: seq<string>)
    requires HexTexts(hexList)
    ensures forall n: Name :: n in {Clk, Reset, DataIn} ==> !Driven(Netlist(hexList), Show(n))
  {
    hide Show, Netlist;
    forall n: Name | n in {Clk, Reset, DataIn} ensures !Driven(Netlist(hexList), Show(n)) {
      if Driven(Netlist(hexList), Show(n)) {
        var s :| s in Netlist(hexList) && s.target == Show(n);
        DriverUnique(hexList, s, n);
      }
    }
  }
}
