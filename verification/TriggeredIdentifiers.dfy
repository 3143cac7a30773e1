/** The identifiers of the data-triggered netlist: no two are the same, each is legal, and all that are read exist. */
module TriggeredIdentifiers {
  import opened Vhdl
  import opened Names
  import opened Hex
  import opened Signatures
  import opened NameLists
  import opened TriggeredGenerator
  import opened TriggeredNetlist

  // ----- The lists of names -----

  ghost function SignalNames(hexList: seq<string>): seq<Name> {
    [Enable, Input] + BlockNames(Declaration(false), hexList, |hexList|) + RowNames(Matches, |hexList|)
  }

  ghost function LabelNames(hexList: seq<string>): seq<Name> {
    BlockNames(Label(false), hexList, |hexList|) + RowNames(Pulls, |hexList|)
  }

  ghost function TargetNames(hexList: seq<string>): seq<Name> {
    [Enable, Input] + BlockNames(Target(false), hexList, |hexList|) + RowNames(Ports, |hexList|)
  }

  lemma SignalNamesDistinct(hexList: seq<string>)
    requires HexTexts(hexList)
    ensures var names := SignalNames(hexList);
            && Distinct(names) && AllComplete(names)
            && forall n :: n in names ==> n.Enable? || n.Input? || OfKind(Declaration(false), n) || n.Spare? || n.Match?
  {
    hide BlockNames;
    var count := |hexList|;
    BlockDistinct(Declaration(false), hexList, count);
    var block := BlockNames(Declaration(false), hexList, count);
    DistinctConcat([Enable, Input], block);
    DistinctConcat([Enable, Input] + block, RowNames(Matches, count));
  }

  lemma LabelNamesDistinct(hexList: seq<string>)
    requires HexTexts(hexList)
    ensures var names := LabelNames(hexList);
            && Distinct(names) && AllComplete(names)
            && forall n :: n in names ==> OfKind(Label(false), n) || n.PullLabel?
  {
    hide BlockNames;
    BlockDistinct(Label(false), hexList, |hexList|);
    DistinctConcat(BlockNames(Label(false), hexList, |hexList|), RowNames(Pulls, |hexList|));
  }

  lemma TargetNamesDistinct(hexList: seq<string>)
    requires HexTexts(hexList)
    ensures Distinct(TargetNames(hexList)) && AllComplete(TargetNames(hexList))
  {
    hide BlockNames;
    var count := |hexList|;
    BlockDistinct(Target(false), hexList, count);
    var block := BlockNames(Target(false), hexList, count);
    DistinctConcat([Enable, Input], block);
    DistinctConcat([Enable, Input] + block, RowNames(Ports, count));
  }

  // ----- The emitted strings are the names printed -----

  lemma StagePrinted(i: nat, h: string, k: nat)
    ensures DeclNames(StageDecl(i, h, k)) == Shows(StageNames(Declaration(false), i, h, k))
    ensures Labels(StageStmts(i, h, k)) == Shows(StageNames(Label(false), i, h, k))
    ensures Targets(StageStmts(i, h, k)) == Shows(StageNames(Target(false), i, h, k))
  {
    hide Show, Slice;
    var s := StageStmts(i, h, k);
    assert Labels(s[..0]) == [];
    assert s[..1][..0] == s[..0] && s[..2][..1] == s[..1] && s[..2] == s;
    assert Labels(s[..1]) == [s[0].instance];
  }

  lemma {:induction false} ChainPrinted(i: nat, h: string, stages: nat)
    ensures DeclNames(StageDecls(i, h, stages)) == Shows(ChainNames(Declaration(false), i, h, stages))
    ensures Labels(ChainStmts(i, h, stages)) == Shows(ChainNames(Label(false), i, h, stages))
    ensures Targets(ChainStmts(i, h, stages)) == Shows(ChainNames(Target(false), i, h, stages))
  {
    hide Show, Slice, StageDecl, StageStmts, StageNames, Shows, DeclNames, Labels, Targets;
    NothingPrinted();
    if stages > 0 {
      var k := stages - 1;
      ChainPrinted(i, h, k);
      StagePrinted(i, h, k);
      DeclNamesConcat(StageDecls(i, h, k), StageDecl(i, h, k));
      LabelsConcat(ChainStmts(i, h, k), StageStmts(i, h, k));
      TargetsConcat(ChainStmts(i, h, k), StageStmts(i, h, k));
      ShowsConcat(ChainNames(Declaration(false), i, h, k), StageNames(Declaration(false), i, h, k));
      ShowsConcat(ChainNames(Label(false), i, h, k), StageNames(Label(false), i, h, k));
      ShowsConcat(ChainNames(Target(false), i, h, k), StageNames(Target(false), i, h, k));
    }
  }

  lemma TailPrinted(hexList: seq<string>, i: nat)
    requires i < |hexList|
    ensures DeclNames([Decl(Show(Spare(i)), Low)]) == Shows(TailNames(Declaration(false), i))
    ensures Labels([MatchStmt(hexList, i)]) == Shows(TailNames(Label(false), i))
    ensures Targets([MatchStmt(hexList, i)]) == Shows(TailNames(Target(false), i))
  {
    hide Show, Slice;
    NoLabel(MatchStmt(hexList, i));
  }

  lemma {:induction false} BlockDeclsPrinted(hexList: seq<string>, count: nat)
    requires count <= |hexList|
    ensures DeclNames(ChainDecls(hexList, count)) == Shows(BlockNames(Declaration(false), hexList, count))
  {
    hide Show, StageDecls, ChainNames, Stages, Shows, DeclNames, TailNames;
    NothingPrinted();
    if count > 0 {
      BlockNamesShown(Declaration(false), hexList, count);
      var i := count - 1;
      var chain := StageDecls(i, hexList[i], Stages(hexList[i]));
      BlockDeclsPrinted(hexList, i);
      ChainPrinted(i, hexList[i], Stages(hexList[i]));
      TailPrinted(hexList, i);
      DeclNamesConcat(ChainDecls(hexList, i), chain);
      DeclNamesConcat(ChainDecls(hexList, i) + chain, [Decl(Show(Spare(i)), Low)]);
    }
  }

  lemma {:induction false} BlockStmtsPrinted(hexList: seq<string>, count: nat)
    requires count <= |hexList|
    ensures Labels(PortStmts(hexList, count)) == Shows(BlockNames(Label(false), hexList, count))
    ensures Targets(PortStmts(hexList, count)) == Shows(BlockNames(Target(false), hexList, count))
  {
    hide Show, ChainStmts, ChainNames, Stages, Shows, Labels, Targets, TailNames, MatchStmt;
    NothingPrinted();
    if count > 0 {
      BlockNamesShown(Label(false), hexList, count);
      BlockNamesShown(Target(false), hexList, count);
      var i := count - 1;
      var front, chain, last := PortStmts(hexList, i), ChainStmts(i, hexList[i], Stages(hexList[i])), MatchStmt(hexList, i);
      BlockStmtsPrinted(hexList, i);
      ChainPrinted(i, hexList[i], Stages(hexList[i]));
      TailPrinted(hexList, i);
      LabelsConcat(front, chain);
      LabelsConcat(front + chain, [last]);
      TargetsConcat(front, chain);
      TargetsConcat(front + chain, [last]);
    }
  }

  lemma RowsPrinted(count: nat)
    ensures DeclNames(MatchDecls(count)) == Shows(RowNames(Matches, count))
    ensures Labels(PullStmts(count)) == Shows(RowNames(Pulls, count))
    ensures Targets(PullStmts(count)) == OutputNames(count) == Shows(RowNames(Ports, count))
  {
    hide Show, Labels;
    RowLabels(PullStmts(count), Pulls, count);
  }

  lemma FrontPrinted()
    ensures DeclNames(FrontDecls()) == Shows([Enable, Input])
    ensures Targets(FrontStmts()) == Shows([Enable, Input])
    ensures Labels(FrontStmts()) == []
  {
    hide Show;
    NoLabel(FrontStmts()[0]);
    NoLabel(FrontStmts()[1]);
    LabelsConcat([FrontStmts()[0]], [FrontStmts()[1]]);
    assert FrontStmts() == [FrontStmts()[0]] + [FrontStmts()[1]];
  }

  lemma SignalsPrinted(hexList: seq<string>)
    ensures DeclNames(Signals(hexList)) == Shows(SignalNames(hexList))
  {
    hide Show, ChainDecls, BlockNames, MatchDecls, FrontDecls, RowNames, Shows, DeclNames;
    var count := |hexList|;
    var chains, block := ChainDecls(hexList, count), BlockNames(Declaration(false), hexList, count);
    FrontPrinted();
    BlockDeclsPrinted(hexList, count);
    RowsPrinted(count);
    DeclNamesConcat(FrontDecls(), chains);
    DeclNamesConcat(FrontDecls() + chains, MatchDecls(count));
    ShowsConcat([Enable, Input], block);
    ShowsConcat([Enable, Input] + block, RowNames(Matches, count));
  }

  lemma NetlistPrinted(hexList: seq<string>)
    ensures Labels(Netlist(hexList)) == Shows(LabelNames(hexList))
    ensures Targets(Netlist(hexList)) == Shows(TargetNames(hexList))
  {
    hide Show, PortStmts, BlockNames, PullStmts, FrontStmts, RowNames, Labels, Shows, Targets;
    var count := |hexList|;
    var front, ports, pulls := FrontStmts(), PortStmts(hexList, count), PullStmts(count);
    FrontPrinted();
    BlockStmtsPrinted(hexList, count);
    RowsPrinted(count);
    LabelsConcat(front, ports);
    LabelsConcat(front + ports, pulls);
    TargetsConcat(front, ports);
    TargetsConcat(front + ports, pulls);
    var labels, targets := BlockNames(Label(false), hexList, count), BlockNames(Target(false), hexList, count);
    ShowsConcat(labels, RowNames(Pulls, count));
    ShowsConcat([Enable, Input], targets);
    ShowsConcat([Enable, Input] + targets, RowNames(Ports, count));
  }

  // ----- The theorems -----

  /** Ports, signals, labels and component names of the architecture, in one declarative region. */
  ghost function Identifiers(d: Design): seq<string> {
    d.inputs + d.outputs + DeclNames(d.signals) + Labels(d.stmts) + ["byte_compare", "pull_up_module"]
  }

  ghost function IdentifierNames(hexList: seq<string>): seq<Name> {
    [Reset, DataIn] + RowNames(Ports, |hexList|) + SignalNames(hexList) + LabelNames(hexList) + [CompareCell, PullUpCell]
  }

  lemma IdentifierNamesDistinct(hexList: seq<string>)
    requires HexTexts(hexList)
    ensures Distinct(IdentifierNames(hexList)) && AllComplete(IdentifierNames(hexList))
  {
    hide SignalNames, LabelNames;
    SignalNamesDistinct(hexList);
    LabelNamesDistinct(hexList);
    var ports := [Reset, DataIn] + RowNames(Ports, |hexList|);
    DistinctConcat([Reset, DataIn], RowNames(Ports, |hexList|));
    DistinctConcat(ports, SignalNames(hexList));
    DistinctConcat(ports + SignalNames(hexList), LabelNames(hexList));
    DistinctConcat(ports + SignalNames(hexList) + LabelNames(hexList), [CompareCell, PullUpCell]);
  }

  lemma PortsPrinted(hexList: seq<string>)
    requires hexList != []
    ensures Compiled(hexList).inputs == Shows([Reset, DataIn])
    ensures Compiled(hexList).outputs == Shows(RowNames(Ports, |hexList|))
  {
    hide Show, Netlist, Signals;
  }

  lemma CellsPrinted()
    ensures Shows([CompareCell, PullUpCell]) == ["byte_compare", "pull_up_module"]
  {
    assert Show(CompareCell) == "byte_compare" && Show(PullUpCell) == "pull_up_module";
  }

  lemma IdentifiersPrinted(hexList: seq<string>)
    requires hexList != []
    ensures Identifiers(Compiled(hexList)) == Shows(IdentifierNames(hexList))
  {
    hide Show, Shows, SignalNames, LabelNames, Netlist, Signals, Outputs, RowNames;
    SignalsPrinted(hexList);
    NetlistPrinted(hexList);
    PortsPrinted(hexList);
    CellsPrinted();
    var inputs, outputs := [Reset, DataIn], RowNames(Ports, |hexList|);
    ShowsConcat(inputs, outputs);
    ShowsConcat(inputs + outputs, SignalNames(hexList));
    ShowsConcat(inputs + outputs + SignalNames(hexList), LabelNames(hexList));
    ShowsConcat(inputs + outputs + SignalNames(hexList) + LabelNames(hexList), [CompareCell, PullUpCell]);
  }

  /** No capture: all identifiers are legal, and no two agree, not even up to letter case. */
  lemma NoCapture(hexList: seq<string>)
    requires HexTexts(hexList) && hexList != []
    ensures Legible(Identifiers(Compiled(hexList)))
  {
    hide Show, IdentifierNames, Identifiers, Legible;
    IdentifierNamesDistinct(hexList);
    IdentifiersPrinted(hexList);
    ShownLegible(IdentifierNames(hexList));
  }

  /** Every driven signal is driven by exactly one statement. */
  lemma DrivenOnce(hexList: seq<string>)
    requires HexTexts(hexList)
    ensures DistinctTargets(Netlist(hexList))
  {
    hide Show, Netlist, TargetNames;
    TargetNamesDistinct(hexList);
    NetlistPrinted(hexList);
    ShownTargets(Netlist(hexList), TargetNames(hexList));
  }

  ghost predicate ReadsDriven(hexList: seq<string>, x: string) {
    exists m: Name :: IsDriven(hexList, m) && Show(m) == x
  }

  lemma DriverReadsDriven(hexList: seq<string>, n: Name, x: string)
    requires NoBlank(hexList) && IsDriven(hexList, n) && x in Driver(hexList, n).Reads()
    ensures x == Show(Reset) || x == Show(DataIn) || ReadsDriven(hexList, x)
  {
    hide Show, Slice, Driver, ReadsDriven;
    if n.PerStage() {
      StageReads(hexList, n, x);
    } else {
      OtherReads(hexList, n, x);
    }
  }

  lemma StageReads(hexList: seq<string>, n: Name, x: string)
    requires IsDriven(hexList, n) && n.PerStage() && x in Driver(hexList, n).Reads()
    ensures x == Show(Reset) || ReadsDriven(hexList, x)
  {
    hide Show, Slice;
    assert IsDriven(hexList, Enable) && IsDriven(hexList, Input);
    if n.Cmp? {
      assert n.k > 0 ==> IsDriven(hexList, EnAnd(n.i, n.k - 1));
    } else {
      assert IsDriven(hexList, Cmp(n.i, Slice(hexList[n.i], n.k), n.k));
    }
  }

  lemma OtherReads(hexList: seq<string>, n: Name, x: string)
    requires NoBlank(hexList) && IsDriven(hexList, n) && !n.PerStage() && x in Driver(hexList, n).Reads()
    ensures x == Show(Reset) || x == Show(DataIn) || ReadsDriven(hexList, x)
  {
    hide Show, Slice;
    assert IsDriven(hexList, Enable);
    if n.Match? {
      LastStage(hexList, n.i);
      var last := Stages(hexList[n.i]) - 1;
      assert IsDriven(hexList, Cmp(n.i, Slice(hexList[n.i], last), last));
    } else if n.Output? {
      assert IsDriven(hexList, Match(n.i));
    }
  }

  lemma NoBlankClosed(hexList: seq<string>)
    requires HexTexts(hexList) && NoBlank(hexList)
    ensures Closed(Compiled(hexList))
  {
    hide Show, Netlist, Outputs, Signals, Driver;
    var d := Compiled(hexList);
    forall s, x | s in d.stmts && x in s.Reads()
      ensures x in d.Objects() && (x in d.inputs || Driven(d.stmts, x))
    {
      NetlistEmitted(hexList, s);
      var n: Name :| IsDriven(hexList, n) && s == Driver(hexList, n);
      DriverReadsDriven(hexList, n, x);
      if x !in d.inputs {
        var m: Name :| IsDriven(hexList, m) && Show(m) == x;
        DriverInNetlist(hexList, m);
        DriverTarget(hexList, m);
        DrivenDeclared(hexList, m);
      }
    }
  }

  /** A blank signature leaves its match reading a comparison without digits, which nothing declares. */
  lemma ClosedIffNoBlank(hexList: seq<string>)
    requires HexTexts(hexList)
    ensures Closed(Compiled(hexList)) <==> NoBlank(hexList)
  {
    hide Show, Netlist, Outputs, Signals;
    var d := Compiled(hexList);
    if NoBlank(hexList) {
      NoBlankClosed(hexList);
    } else {
      var i :| 0 <= i < |hexList| && hexList[i] == "";
      var last := LeftoverStage(hexList, i + 1);
      var read := Cmp(i, Slice(hexList[i], last), last);
      assert read.hex == "";
      DriverInNetlist(hexList, Match(i));
      assert Show(read) in Driver(hexList, Match(i)).Reads();
      if Driven(Netlist(hexList), Show(read)) {
        var s :| s in Netlist(hexList) && s.target == Show(read);
        DriverUnique(hexList, s, read);
      }
      InputsDiffer(read);
    }
  }

  lemma InputsDiffer(n: Name)
    requires n.Cmp? && n.Valid()
    ensures Show(n) !in [Show(Reset), Show(DataIn)]
  {
    hide Show;
    forall m: Name | m in {Reset, DataIn} ensures Show(m) != Show(n) {
      if Show(m) == Show(n) {
        ShowEqual(m, n);
      }
    }
  }
}
