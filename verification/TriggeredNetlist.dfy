/** The data-triggered netlist: one driver per signal, every driven signal declared, and no process that wakes itself. */
module TriggeredNetlist {
  import opened Vhdl
  import opened Names
  import opened Hex
  import opened Signatures
  import opened TriggeredGenerator

  ghost predicate IsDriven(hexList: seq<string>, n: Name) {
    match n
    case Enable => true
    case Input => true
    case Cmp(i, hex, k) => HasStage(hexList, i, k) && hex == Slice(hexList[i], k)
    case EnAnd(i, k) => HasStage(hexList, i, k)
    case Match(i) => i < |hexList|
    case Output(i) => i < |hexList|
    case _ => false
  }

  ghost function Driver(hexList: seq<string>, n: Name): Stmt
    requires IsDriven(hexList, n)
  {
    match n
    case Enable => FrontStmts()[0]
    case Input => FrontStmts()[1]
    case Cmp(i, _, k) => StageStmts(i, hexList[i], k)[0]
    case EnAnd(i, k) => StageStmts(i, hexList[i], k)[1]
    case Match(i) => MatchStmt(hexList, i)
    case Output(i) => PullStmts(|hexList|)[i]
  }

  lemma DriverTarget(hexList: seq<string>, n: Name)
    requires IsDriven(hexList, n)
    ensures Driver(hexList, n).target == Show(n)
  {
    hide Show;
  }

  lemma DrivenValid(hexList: seq<string>, n: Name)
    requires HexTexts(hexList) && IsDriven(hexList, n)
    ensures n.Valid()
  {
    if n.Cmp? {
      SliceText(hexList[n.i], n.k);
    }
  }

  ghost predicate Emitted(hexList: seq<string>, s: Stmt) {
    exists n: Name :: IsDriven(hexList, n) && s == Driver(hexList, n)
  }

  // ----- The netlist holds exactly the drivers -----

  lemma StageEmitted(hexList: seq<string>, i: nat, k: nat)
    requires HasStage(hexList, i, k)
    ensures forall s :: s in StageStmts(i, hexList[i], k) ==> Emitted(hexList, s)
  {
    hide Show;
    assert IsDriven(hexList, Cmp(i, Slice(hexList[i], k), k)) && IsDriven(hexList, EnAnd(i, k));
    var stmts := StageStmts(i, hexList[i], k);
    assert Driver(hexList, Cmp(i, Slice(hexList[i], k), k)) == stmts[0] && Driver(hexList, EnAnd(i, k)) == stmts[1];
  }

  lemma {:induction false} ChainEmitted(hexList: seq<string>, i: nat, stages: nat)
    requires i < |hexList| && stages <= Stages(hexList[i])
    ensures forall s :: s in ChainStmts(i, hexList[i], stages) ==> Emitted(hexList, s)
    ensures forall k :: 0 <= k < stages ==> forall s :: s in StageStmts(i, hexList[i], k) ==>
              s in ChainStmts(i, hexList[i], stages)
  {
    hide Show;
    if stages > 0 {
      ChainEmitted(hexList, i, stages - 1);
      StageEmitted(hexList, i, stages - 1);
    }
  }

  lemma {:induction false} PortsEmitted(hexList: seq<string>, count: nat)
    requires count <= |hexList|
    ensures forall s :: s in PortStmts(hexList, count) ==> Emitted(hexList, s)
    ensures forall i, k :: 0 <= i < count && HasStage(hexList, i, k) ==>
              forall s :: s in StageStmts(i, hexList[i], k) ==> s in PortStmts(hexList, count)
    ensures forall i :: 0 <= i < count ==> MatchStmt(hexList, i) in PortStmts(hexList, count)
  {
    hide Show, StageStmts, Slice;
    if count > 0 {
      PortsEmitted(hexList, count - 1);
      ChainEmitted(hexList, count - 1, Stages(hexList[count - 1]));
      assert IsDriven(hexList, Match(count - 1));
    }
  }

  lemma NetlistEmitted(hexList: seq<string>, s: Stmt)
    requires s in Netlist(hexList)
    ensures Emitted(hexList, s)
  {
    hide Show, PortStmts;
    PortsEmitted(hexList, |hexList|);
    if s in FrontStmts() {
      assert IsDriven(hexList, Enable) && IsDriven(hexList, Input);
      assert s == Driver(hexList, Enable) || s == Driver(hexList, Input);
    } else if s in PullStmts(|hexList|) {
      var i :| 0 <= i < |hexList| && s == PullStmts(|hexList|)[i];
      assert IsDriven(hexList, Output(i));
    }
  }

  lemma DriverInNetlist(hexList: seq<string>, n: Name)
    requires IsDriven(hexList, n)
    ensures Driver(hexList, n) in Netlist(hexList)
  {
    hide Show, PortStmts;
    PortsEmitted(hexList, |hexList|);
    var s := Driver(hexList, n);
    if n.PerStage() {
      assert s in StageStmts(n.i, hexList[n.i], n.k);
    } else if n.Output? {
      assert s in PullStmts(|hexList|);
    } else if !n.Match? {
      assert s in FrontStmts();
    }
  }

  lemma DriverUnique(hexList: seq<string>, s: Stmt, n: Name)
    requires HexTexts(hexList) && s in Netlist(hexList) && n.Valid() && s.target == Show(n)
    ensures IsDriven(hexList, n) && s == Driver(hexList, n)
  {
    hide Show, Netlist;
    NetlistEmitted(hexList, s);
    var m: Name :| IsDriven(hexList, m) && s == Driver(hexList, m);
    DriverTarget(hexList, m);
    DrivenValid(hexList, m);
    ShowEqual(m, n);
  }

  /** No two statements drive one signal. */
  lemma NetlistOneDriver(hexList: seq<string>)
    requires HexTexts(hexList)
    ensures OneDriver(Netlist(hexList))
  {
    hide Show, Netlist;
    forall s, t | s in Netlist(hexList) && t in Netlist(hexList) && s.target == t.target ensures s == t {
      NetlistEmitted(hexList, s);
      var m: Name :| IsDriven(hexList, m) && s == Driver(hexList, m);
      DriverTarget(hexList, m);
      DrivenValid(hexList, m);
      DriverUnique(hexList, t, m);
    }
  }

  // ----- Rank: a comparator is not woken by the comparator that enables it -----

  ghost function RankOf(n: Name): nat {
    match n
    case Enable => 1
    case Input => 1
    case Cmp(_, _, _) => 2
    case EnAnd(_, _) => 3
    case Match(_) => 3
    case Output(_) => 4
    case _ => 0
  }

  lemma DriverRanked(hexList: seq<string>, n: Name)
    requires HexTexts(hexList) && IsDriven(hexList, n)
    requires NoBlank(hexList)
    ensures RankedStmt(Driver(hexList, n), RankBy(RankOf), 4)
  {
    hide Show, RankBy, Slice;
    DriverTarget(hexList, n);
    DrivenValid(hexList, n);
    RankByShow(RankOf, n);
    RankByShow(RankOf, Reset);
    RankByShow(RankOf, DataIn);
    RankByShow(RankOf, Input);
    RankByShow(RankOf, Enable);
    match n {
      case EnAnd(i, k) =>
        SliceText(hexList[i], k);
        RankByShow(RankOf, Cmp(i, Slice(hexList[i], k), k));
      case Match(i) =>
        LastStage(hexList, i);
        SliceText(hexList[i], Stages(hexList[i]) - 1);
        RankByShow(RankOf, Cmp(i, Slice(hexList[i], Stages(hexList[i]) - 1), Stages(hexList[i]) - 1));
      case Output(i) => RankByShow(RankOf, Match(i));
      case _ =>
    }
  }

  /** Every settling of the emitted netlist ends. */
  lemma NetlistRanked(hexList: seq<string>)
    requires HexTexts(hexList) && NoBlank(hexList)
    ensures Ranked(Netlist(hexList), RankBy(RankOf), 4)
  {
    hide Show, RankBy, Netlist;
    forall s | s in Netlist(hexList) ensures RankedStmt(s, RankBy(RankOf), 4) {
      NetlistEmitted(hexList, s);
      var n: Name :| IsDriven(hexList, n) && s == Driver(hexList, n);
      DriverRanked(hexList, n);
    }
  }

  // ----- The enable chain -----

  /** Comparator `k` ranks behind the conjunction that enables it, and that behind comparator `k-1`. */
  ghost function ReadRankOf(hexList: seq<string>): Name -> nat {
    n => ReadRankAt(hexList, n)
  }

  ghost function ReadRankAt(hexList: seq<string>, n: Name): nat {
    match n
    case Enable => 1
    case Input => 1
    case Cmp(_, _, k) => 2 * k + 2
    case EnAnd(_, k) => 2 * k + 3
    case Match(i) => if i < |hexList| then 2 * Stages(hexList[i]) + 1 else 0
    case Output(i) => if i < |hexList| then 2 * Stages(hexList[i]) + 2 else 0
    case _ => 0
  }

  lemma DriverReads(hexList: seq<string>, n: Name, x: string)
    requires HexTexts(hexList) && NoBlank(hexList) && IsDriven(hexList, n) && x in Driver(hexList, n).Reads()
    ensures RankBy(ReadRankOf(hexList))(x) < RankBy(ReadRankOf(hexList))(Driver(hexList, n).target)
  {
    hide Show, RankBy, Slice;
    var rankOf := ReadRankOf(hexList);
    DriverTarget(hexList, n);
    DrivenValid(hexList, n);
    RankByShow(rankOf, n);
    RankByShow(rankOf, Reset);
    RankByShow(rankOf, DataIn);
    RankByShow(rankOf, Input);
    RankByShow(rankOf, Enable);
    match n {
      case Cmp(i, _, k) => RankByShow(rankOf, if k == 0 then Enable else EnAnd(i, k - 1));
      case EnAnd(i, k) =>
        SliceText(hexList[i], k);
        RankByShow(rankOf, Cmp(i, Slice(hexList[i], k), k));
      case Match(i) =>
        LastStage(hexList, i);
        SliceText(hexList[i], Stages(hexList[i]) - 1);
        RankByShow(rankOf, Cmp(i, Slice(hexList[i], Stages(hexList[i]) - 1), Stages(hexList[i]) - 1));
      case Output(i) => RankByShow(rankOf, Match(i));
      case _ =>
    }
  }

  /** No signal depends on itself: the enable chain goes from stage to stage. */
  lemma EnableChainAcyclic(hexList: seq<string>)
    requires HexTexts(hexList) && NoBlank(hexList)
    ensures ReadsRanked(Netlist(hexList), RankBy(ReadRankOf(hexList)))
  {
    hide Show, RankBy, Netlist, Driver, ReadRankOf;
    forall s, x | s in Netlist(hexList) && x in s.Reads()
      ensures RankBy(ReadRankOf(hexList))(x) < RankBy(ReadRankOf(hexList))(s.target)
    {
      NetlistEmitted(hexList, s);
      var n: Name :| IsDriven(hexList, n) && s == Driver(hexList, n);
      DriverReads(hexList, n, x);
    }
  }

  lemma InputsUndriven(hexList: seq<string>)
    requires HexTexts(hexList)
    ensures !Driven(Netlist(hexList), Show(Reset)) && !Driven(Netlist(hexList), Show(DataIn))
  {
    hide Show, Netlist;
    forall n: Name | n in {Reset, DataIn} ensures !Driven(Netlist(hexList), Show(n)) {
      if Driven(Netlist(hexList), Show(n)) {
        var s :| s in Netlist(hexList) && s.target == Show(n);
        DriverUnique(hexList, s, n);
      }
    }
  }

  // ----- Every driven signal is declared, or is an output port -----

  lemma {:induction false} StageDeclared(i: nat, h: string, stages: nat, k: nat)
    requires k < stages
    ensures forall d :: d in StageDecl(i, h, k) ==> d in StageDecls(i, h, stages)
  {
    hide Show, Slice;
    if k < stages - 1 {
      StageDeclared(i, h, stages - 1, k);
    }
  }

  lemma {:induction false} ChainDeclared(hexList: seq<string>, count: nat, i: nat, k: nat)
    requires count <= |hexList| && i < count && HasStage(hexList, i, k)
    ensures forall d :: d in StageDecl(i, hexList[i], k) ==> d in ChainDecls(hexList, count)
  {
    hide Show, Slice, StageDecl;
    if i < count - 1 {
      ChainDeclared(hexList, count - 1, i, k);
    } else {
      StageDeclared(i, hexList[i], Stages(hexList[i]), k);
    }
  }

  lemma DeclaredObject(hexList: seq<string>, d: Decl)
    requires d in Signals(hexList)
    ensures d.name in Compiled(hexList).Objects()
  {}

  lemma OutputDeclared(hexList: seq<string>, i: nat)
    requires i < |hexList|
    ensures Show(Output(i)) in Compiled(hexList).Objects()
  {
    hide Show;
    assert OutputNames(|hexList|)[i] in OutputNames(|hexList|);
  }

  lemma DrivenDeclared(hexList: seq<string>, n: Name)
    requires IsDriven(hexList, n)
    ensures Show(n) in Compiled(hexList).Objects()
  {
    hide Show, Slice, Compiled;
    if n.PerStage() {
      ChainDeclared(hexList, |hexList|, n.i, n.k);
      var decl := StageDecl(n.i, hexList[n.i], n.k);
      var d := if n.Cmp? then decl[1] else decl[0];
      assert d in decl;
      DeclaredObject(hexList, d);
    } else if n.Match? {
      assert MatchDecls(|hexList|)[n.i] in MatchDecls(|hexList|);
      DeclaredObject(hexList, MatchDecls(|hexList|)[n.i]);
    } else if n.Output? {
      OutputDeclared(hexList, n.i);
    } else {
      assert Decl(Show(n), Undefined) in FrontDecls();
      DeclaredObject(hexList, Decl(Show(n), Undefined));
    }
  }

  lemma NetlistDeclared(hexList: seq<string>, env: Env)
    requires HexTexts(hexList) && env.Keys == Compiled(hexList).Objects()
    ensures Declared(Netlist(hexList), env) && Show(Reset) in env && Show(DataIn) in env
  {
    hide Show, Netlist;
    forall s | s in Netlist(hexList) ensures s.target in env {
      NetlistEmitted(hexList, s);
      var n: Name :| IsDriven(hexList, n) && s == Driver(hexList, n);
      DriverTarget(hexList, n);
      DrivenDeclared(hexList, n);
    }
  }
}
