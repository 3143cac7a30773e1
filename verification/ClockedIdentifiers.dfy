/** No two identifiers of the emitted architecture are the same, and each is legal. */
module ClockedIdentifiers {
  import opened Vhdl
  import opened Names
  import opened Hex
  import opened Signatures
  import opened ClockedGenerator
  import opened ClockedNetlist
  import opened ClockedDetector
  import opened NameLists

  // ----- The lists of names -----

  ghost function SignalNames(hexList: seq<string>): seq<Name> {
    [Input] + BlockNames(Declaration(true), hexList, |hexList|)
      + RowNames(Matches, |hexList|) + RowNames(Holds, |hexList|)
  }

  ghost function LabelNames(hexList: seq<string>): seq<Name> {
    BlockNames(Label(true), hexList, |hexList|)
      + RowNames(Pulls, |hexList|) + RowNames(Flops, |hexList|)
  }

  ghost function TargetNames(hexList: seq<string>): seq<Name> {
    [Input] + BlockNames(Target(true), hexList, |hexList|)
      + RowNames(Holds, |hexList|) + RowNames(Ports, |hexList|)
  }

  lemma SignalNamesDistinct(hexList: seq<string>)
    requires HexTexts(hexList)
    ensures var names := SignalNames(hexList);
            Distinct(names) && AllComplete(names)
    ensures forall n :: n in SignalNames(hexList) ==> n.Input? || OfKind(Declaration(true), n) || n.Match? || n.Hold?
  {
    hide BlockNames;
    var count := |hexList|;
    BlockDistinct(Declaration(true), hexList, count);
    var block := BlockNames(Declaration(true), hexList, count);
    DistinctConcat([Input], block);
    DistinctConcat([Input] + block, RowNames(Matches, count));
    DistinctConcat([Input] + block + RowNames(Matches, count), RowNames(Holds, count));
  }

  lemma LabelNamesDistinct(hexList: seq<string>)
    requires HexTexts(hexList)
    ensures var names := LabelNames(hexList);
            && Distinct(names) && AllComplete(names)
            && forall n :: n in names ==> OfKind(Label(true), n) || n.PullLabel? || n.OutputLabel?
  {
    hide BlockNames;
    var count := |hexList|;
    BlockDistinct(Label(true), hexList, count);
    var block := BlockNames(Label(true), hexList, count);
    DistinctConcat(block, RowNames(Pulls, count));
    DistinctConcat(block + RowNames(Pulls, count), RowNames(Flops, count));
  }

  lemma TargetNamesDistinct(hexList: seq<string>)
    requires HexTexts(hexList)
    ensures Distinct(TargetNames(hexList)) && AllComplete(TargetNames(hexList))
  {
    hide BlockNames;
    var count := |hexList|;
    BlockDistinct(Target(true), hexList, count);
    var block := BlockNames(Target(true), hexList, count);
    DistinctConcat([Input], block);
    DistinctConcat([Input] + block, RowNames(Holds, count));
    DistinctConcat([Input] + block + RowNames(Holds, count), RowNames(Ports, count));
  }

  // ----- The emitted strings are the names printed -----

  lemma {:induction false} ChainDeclsPrinted(i: nat, h: string, stages: nat)
    ensures DeclNames(StageDecls(i, h, stages)) == Shows(ChainNames(Declaration(true), i, h, stages))
  {
    hide Show, Slice, StageDecl, StageNames, Shows, DeclNames;
    NothingPrinted();
    if stages > 0 {
      ChainDeclsPrinted(i, h, stages - 1);
      StagePrinted(i, h, stages - 1);
      DeclNamesConcat(StageDecls(i, h, stages - 1), StageDecl(i, h, stages - 1));
      ShowsConcat(ChainNames(Declaration(true), i, h, stages - 1), StageNames(Declaration(true), i, h, stages - 1));
    }
  }

  lemma {:induction false} ChainLabelsPrinted(i: nat, h: string, stages: nat)
    ensures Labels(ChainStmts(i, h, stages)) == Shows(ChainNames(Label(true), i, h, stages))
  {
    hide Show, Slice, StageStmts, StageNames, Shows, Labels;
    NothingPrinted();
    if stages > 0 {
      ChainLabelsPrinted(i, h, stages - 1);
      StagePrinted(i, h, stages - 1);
      LabelsConcat(ChainStmts(i, h, stages - 1), StageStmts(i, h, stages - 1));
      ShowsConcat(ChainNames(Label(true), i, h, stages - 1), StageNames(Label(true), i, h, stages - 1));
    }
  }

  lemma {:induction false} ChainTargetsPrinted(i: nat, h: string, stages: nat)
    ensures Targets(ChainStmts(i, h, stages)) == Shows(ChainNames(Target(true), i, h, stages))
  {
    hide Show, Slice, StageStmts, StageNames, Shows, Targets;
    NothingPrinted();
    if stages > 0 {
      ChainTargetsPrinted(i, h, stages - 1);
      StagePrinted(i, h, stages - 1);
      TargetsConcat(ChainStmts(i, h, stages - 1), StageStmts(i, h, stages - 1));
      ShowsConcat(ChainNames(Target(true), i, h, stages - 1), StageNames(Target(true), i, h, stages - 1));
    }
  }

  lemma StagePrinted(i: nat, h: string, k: nat)
    ensures DeclNames(StageDecl(i, h, k)) == Shows(StageNames(Declaration(true), i, h, k))
    ensures Labels(StageStmts(i, h, k)) == Shows(StageNames(Label(true), i, h, k))
    ensures Targets(StageStmts(i, h, k)) == Shows(StageNames(Target(true), i, h, k))
  {
    hide Show, Slice;
    var s := StageStmts(i, h, k);
    assert Labels(s[..0]) == [];
    assert s[..1][..0] == s[..0] && s[..2][..1] == s[..1] && s[..3] == s;
    assert Labels(s[..1]) == [s[0].instance];
    assert Labels(s[..2]) == [s[0].instance, s[1].instance];
  }

  lemma MatchPrinted(s: Stmt, i: nat)
    requires s.Assign? && s.target == Show(Match(i))
    ensures Labels([s]) == [] && Targets([s]) == Shows([Match(i)]) && Shows([]) == []
  {
    hide Show;
    NoLabel(s);
  }

  lemma {:induction false} BlockDeclsPrinted(hexList: seq<string>, count: nat)
    requires count <= |hexList|
    ensures DeclNames(ChainDecls(hexList, count)) == Shows(BlockNames(Declaration(true), hexList, count))
  {
    hide Show, StageDecls, ChainNames, Stages, Shows, DeclNames;
    NothingPrinted();
    if count > 0 {
      BlockNamesShown(Declaration(true), hexList, count);
      var i := count - 1;
      BlockDeclsPrinted(hexList, i);
      ChainDeclsPrinted(i, hexList[i], Stages(hexList[i]));
      DeclNamesConcat(ChainDecls(hexList, i), StageDecls(i, hexList[i], Stages(hexList[i])));
    }
  }

  lemma {:induction false} BlockLabelsPrinted(hexList: seq<string>, count: nat)
    requires count <= |hexList|
    ensures Labels(PortStmts(hexList, count)) == Shows(BlockNames(Label(true), hexList, count))
  {
    hide Show, ChainStmts, ChainNames, Stages, Shows, Labels, LeftoverStage;
    NothingPrinted();
    if count > 0 {
      BlockNamesShown(Label(true), hexList, count);
      var i := count - 1;
      var chain, last := ChainStmts(i, hexList[i], Stages(hexList[i])), MatchStmt(hexList, i);
      BlockLabelsPrinted(hexList, i);
      ChainLabelsPrinted(i, hexList[i], Stages(hexList[i]));
      MatchPrinted(last, i);
      LabelsConcat(PortStmts(hexList, i), chain);
      LabelsConcat(PortStmts(hexList, i) + chain, [last]);
    }
  }

  lemma {:induction false} BlockTargetsPrinted(hexList: seq<string>, count: nat)
    requires count <= |hexList|
    ensures Targets(PortStmts(hexList, count)) == Shows(BlockNames(Target(true), hexList, count))
  {
    hide Show, ChainStmts, ChainNames, Stages, Shows, Targets, LeftoverStage;
    NothingPrinted();
    if count > 0 {
      BlockNamesShown(Target(true), hexList, count);
      var i := count - 1;
      var chain, last := ChainStmts(i, hexList[i], Stages(hexList[i])), MatchStmt(hexList, i);
      BlockTargetsPrinted(hexList, i);
      ChainTargetsPrinted(i, hexList[i], Stages(hexList[i]));
      MatchPrinted(last, i);
      TargetsConcat(PortStmts(hexList, i), chain);
      TargetsConcat(PortStmts(hexList, i) + chain, [last]);
    }
  }

  lemma LatchesPrinted(count: nat)
    ensures Labels(PullStmts(count)) == Shows(RowNames(Pulls, count))
    ensures Labels(OutputStmts(count)) == Shows(RowNames(Flops, count))
    ensures Targets(PullStmts(count)) == Shows(RowNames(Holds, count))
    ensures Targets(OutputStmts(count)) == Shows(RowNames(Ports, count))
  {
    hide Show, Labels;
    RowLabels(PullStmts(count), Pulls, count);
    RowLabels(OutputStmts(count), Flops, count);
  }

  lemma RowsDeclared(count: nat)
    ensures DeclNames(MatchDecls(count)) == Shows(RowNames(Matches, count))
    ensures DeclNames(HoldDecls(count)) == Shows(RowNames(Holds, count))
    ensures OutputNames(count) == Shows(RowNames(Ports, count))
  {
    hide Show;
  }

  lemma InputPrinted()
    ensures DeclNames([Decl(Show(Input), Undefined)]) == Shows([Input])
    ensures Targets([Assign(Show(Input), Show(DataIn))]) == Shows([Input])
    ensures Labels([Assign(Show(Input), Show(DataIn))]) == []
  {
    hide Show;
    NoLabel(Assign(Show(Input), Show(DataIn)));
  }

  lemma SignalsPrinted(hexList: seq<string>)
    ensures DeclNames(Signals(hexList)) == Shows(SignalNames(hexList))
  {
    hide Show, ChainDecls, BlockNames, MatchDecls, HoldDecls, RowNames, Shows, DeclNames;
    var count := |hexList|;
    var first, chains := [Decl(Show(Input), Undefined)], ChainDecls(hexList, count);
    var block := BlockNames(Declaration(true), hexList, count);
    InputPrinted();
    BlockDeclsPrinted(hexList, count);
    RowsDeclared(count);
    DeclNamesConcat(first, chains);
    DeclNamesConcat(first + chains, MatchDecls(count));
    DeclNamesConcat(first + chains + MatchDecls(count), HoldDecls(count));
    ShowsConcat([Input], block);
    ShowsConcat([Input] + block, RowNames(Matches, count));
    ShowsConcat([Input] + block + RowNames(Matches, count), RowNames(Holds, count));
  }

  lemma NetlistPrinted(hexList: seq<string>)
    ensures Labels(Netlist(hexList)) == Shows(LabelNames(hexList))
    ensures Targets(Netlist(hexList)) == Shows(TargetNames(hexList))
  {
    hide Show, PortStmts, BlockNames, PullStmts, OutputStmts, RowNames, Labels, Shows, Targets;
    var count := |hexList|;
    var first := [Assign(Show(Input), Show(DataIn))];
    var ports, pulls, outs := PortStmts(hexList, count), PullStmts(count), OutputStmts(count);
    InputPrinted();
    BlockLabelsPrinted(hexList, count);
    BlockTargetsPrinted(hexList, count);
    LatchesPrinted(count);
    LabelsConcat(first, ports);
    LabelsConcat(first + ports, pulls);
    LabelsConcat(first + ports + pulls, outs);
    TargetsConcat(first, ports);
    TargetsConcat(first + ports, pulls);
    TargetsConcat(first + ports + pulls, outs);
    var labels, targets := BlockNames(Label(true), hexList, count), BlockNames(Target(true), hexList, count);
    ShowsConcat(labels, RowNames(Pulls, count));
    ShowsConcat(labels + RowNames(Pulls, count), RowNames(Flops, count));
    ShowsConcat([Input], targets);
    ShowsConcat([Input] + targets, RowNames(Holds, count));
    ShowsConcat([Input] + targets + RowNames(Holds, count), RowNames(Ports, count));
  }

  // ----- The theorems -----

  /** Ports, signals, labels and component names of an architecture, in one declarative region. */
  ghost function Identifiers(d: Design): seq<string> {
    d.inputs + d.outputs + DeclNames(d.signals) + Labels(d.stmts) + ["byte_compare", "FF", "pull_up_module"]
  }

  ghost function IdentifierNames(hexList: seq<string>): seq<Name> {
    [Clk, Reset, DataIn] + RowNames(Ports, |hexList|) + SignalNames(hexList) + LabelNames(hexList)
      + [CompareCell, FlipFlopCell, PullUpCell]
  }

  lemma IdentifierNamesDistinct(hexList: seq<string>)
    requires HexTexts(hexList)
    ensures Distinct(IdentifierNames(hexList)) && AllComplete(IdentifierNames(hexList))
  {
    hide SignalNames, LabelNames;
    SignalNamesDistinct(hexList);
    LabelNamesDistinct(hexList);
    var ports := [Clk, Reset, DataIn] + RowNames(Ports, |hexList|);
    DistinctConcat([Clk, Reset, DataIn], RowNames(Ports, |hexList|));
    DistinctConcat(ports, SignalNames(hexList));
    DistinctConcat(ports + SignalNames(hexList), LabelNames(hexList));
    DistinctConcat(ports + SignalNames(hexList) + LabelNames(hexList), [CompareCell, FlipFlopCell, PullUpCell]);
  }

  lemma IdentifiersPrinted(hexList: seq<string>)
    requires hexList != []
    ensures Identifiers(Compiled(hexList)) == Shows(IdentifierNames(hexList))
  {
    hide Show, Shows, SignalNames, LabelNames, Netlist, Signals, Outputs, RowNames;
    SignalsPrinted(hexList);
    NetlistPrinted(hexList);
    PortsPrinted(hexList);
    CellsPrinted();
    var inputs, outputs := [Clk, Reset, DataIn], RowNames(Ports, |hexList|);
    ShowsConcat(inputs, outputs);
    ShowsConcat(inputs + outputs, SignalNames(hexList));
    ShowsConcat(inputs + outputs + SignalNames(hexList), LabelNames(hexList));
    ShowsConcat(inputs + outputs + SignalNames(hexList) + LabelNames(hexList),
                [CompareCell, FlipFlopCell, PullUpCell]);
  }

  lemma PortsPrinted(hexList: seq<string>)
    requires hexList != []
    ensures Compiled(hexList).inputs == Shows([Clk, Reset, DataIn])
    ensures Compiled(hexList).outputs == Shows(RowNames(Ports, |hexList|))
  {
    hide Show, Netlist, Signals;
  }

  lemma CellsPrinted()
    ensures Shows([CompareCell, FlipFlopCell, PullUpCell]) == ["byte_compare", "FF", "pull_up_module"]
  {
    assert Show(CompareCell) == "byte_compare" && Show(FlipFlopCell) == "FF" && Show(PullUpCell) == "pull_up_module";
  }

  /** No capture: all identifiers are legal, and no two agree, not even up to letter case. */
  lemma NoCapture(hexList: seq<string>)
    requires HexTexts(hexList) && hexList != []
    ensures Legible(Identifiers(Compiled(hexList)))
  {
    hide Show, IdentifierNames, Identifiers, Legible;
    IdentifierNamesDistinct(hexList);
    IdentifiersPrinted(hexList);
    ShownLegible(IdentifierNames(hexList));
  }

  /** Every driven signal is driven by exactly one statement. */
  lemma DrivenOnce(hexList: seq<string>)
    requires HexTexts(hexList)
    ensures DistinctTargets(Netlist(hexList))
  {
    hide Show, Netlist, TargetNames;
    TargetNamesDistinct(hexList);
    NetlistPrinted(hexList);
    ShownTargets(Netlist(hexList), TargetNames(hexList));
  }

  /** Output port `i` is declared once and driven by exactly one statement, the flip-flop FF_out_i behind its latch. */
  lemma OutputDrivenOnce(hexList: seq<string>, i: nat)
    requires HexTexts(hexList) && i < |hexList|
    ensures Compiled(hexList).outputs[i..i + 1] == [Show(Output(i))]
    ensures exists a :: 0 <= a < |Netlist(hexList)| && DrivesOutput(Netlist(hexList)[a], i)
    ensures forall a :: 0 <= a < |Netlist(hexList)| && Netlist(hexList)[a].target == Show(Output(i)) ==>
              DrivesOutput(Netlist(hexList)[a], i)
    ensures forall a, b :: 0 <= a < b < |Netlist(hexList)| ==>
              !(DrivesOutput(Netlist(hexList)[a], i) && DrivesOutput(Netlist(hexList)[b], i))
  {
    hide Show, Netlist, Driver;
    var net := Netlist(hexList);
    OutputDriver(hexList, i);
    DriverInNetlist(hexList, Output(i));
    DrivenOnce(hexList);
    forall a | 0 <= a < |net| && net[a].target == Show(Output(i)) ensures DrivesOutput(net[a], i) {
      DriverUnique(hexList, net[a], Output(i));
    }
  }

  ghost predicate DrivesOutput(s: Stmt, i: nat) {
    s == FlipFlop(Show(OutputLabel(i)), Show(Clk), Show(Reset), Signal(Show(Hold(i))), Show(Output(i)))
  }

  lemma OutputDriver(hexList: seq<string>, i: nat)
    requires i < |hexList|
    ensures IsDriven(hexList, Output(i)) && DrivesOutput(Driver(hexList, Output(i)), i)
  {}

  ghost predicate ReadsDriven(hexList: seq<string>, x: string) {
    exists m: Name :: IsDriven(hexList, m) && Show(m) == x
  }

  lemma InputReads(hexList: seq<string>, x: string)
    requires x in Driver(hexList, Input).Reads()
    ensures x == Show(DataIn)
  {
    hide Show;
  }

  lemma GateReads(hexList: seq<string>, n: Name, x: string)
    requires NoBlank(hexList) && IsDriven(hexList, n) && !n.Input?
    requires Driver(hexList, n).Combinational() && x in Driver(hexList, n).Reads()
    ensures ReadsDriven(hexList, x)
  {
    hide Show, Slice;
    if n.Cmp? {
      assert IsDriven(hexList, Input);
    } else if n.AndOut? {
      assert IsDriven(hexList, Stage(n.i, n.k)) && IsDriven(hexList, Cmp(n.i, Slice(hexList[n.i], n.k), n.k));
    } else {
      LastStage(hexList, n.i);
      assert IsDriven(hexList, AndOut(n.i, Stages(hexList[n.i]) - 1));
    }
  }

  lemma RegisterReads(hexList: seq<string>, n: Name, x: string)
    requires IsDriven(hexList, n) && Driver(hexList, n).EdgeTriggered() && x in Driver(hexList, n).Reads()
    ensures x == Show(Clk) || x == Show(Reset) || ReadsDriven(hexList, x)
  {
    hide Show, Slice;
    if n.Stage? {
      assert n.k > 0 ==> IsDriven(hexList, AndOut(n.i, n.k - 1));
    } else if n.Hold? {
      assert IsDriven(hexList, Match(n.i));
    } else {
      assert IsDriven(hexList, Hold(n.i));
    }
  }

  lemma NoBlankClosed(hexList: seq<string>)
    requires HexTexts(hexList) && NoBlank(hexList)
    ensures Closed(Compiled(hexList))
  {
    hide Show, Netlist, Outputs, Signals, Driver;
    var d := Compiled(hexList);
    forall s, x | s in d.stmts && x in s.Reads()
      ensures x in d.Objects() && (x in d.inputs || Driven(d.stmts, x))
    {
      NetlistEmitted(hexList, s);
      var n: Name :| IsDriven(hexList, n) && s == Driver(hexList, n);
      DriverRanked(hexList, n);
      if n.Input? {
        InputReads(hexList, x);
      } else if s.Combinational() {
        GateReads(hexList, n, x);
      } else {
        RegisterReads(hexList, n, x);
      }
      if x !in d.inputs {
        var m: Name :| IsDriven(hexList, m) && Show(m) == x;
        DriverInNetlist(hexList, m);
        DriverTarget(hexList, m);
        DrivenDeclared(hexList, m);
      }
    }
  }

  /** A blank signature leaves its match reading a signal that nothing declares: the emitted text is only
      well-formed without blank signatures. */
  lemma ClosedIffNoBlank(hexList: seq<string>)
    requires HexTexts(hexList)
    ensures Closed(Compiled(hexList)) <==> NoBlank(hexList)
  {
    hide Show, Netlist, Outputs, Signals;
    var d := Compiled(hexList);
    if NoBlank(hexList) {
      NoBlankClosed(hexList);
    } else {
      var i :| 0 <= i < |hexList| && hexList[i] == "";
      var read := AndOut(i, LeftoverStage(hexList, i + 1));
      DriverInNetlist(hexList, Match(i));
      assert Show(read) in Driver(hexList, Match(i)).Reads();
      if Driven(Netlist(hexList), Show(read)) {
        var s :| s in Netlist(hexList) && s.target == Show(read);
        DriverUnique(hexList, s, read);
      }
      InputsDiffer(read);
    }
  }

  lemma InputsDiffer(n: Name)
    requires n.AndOut?
    ensures Show(n) !in [Show(Clk), Show(Reset), Show(DataIn)]
  {
    hide Show;
    forall m: Name | m in {Clk, Reset, DataIn} ensures Show(m) != Show(n) {
      if Show(m) == Show(n) {
        ShowEqual(m, n);
      }
    }
  }
}
