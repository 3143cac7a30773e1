/** `seq_match.py` of the clocked detector: from hexadecimal signatures to an NFA netlist.
    Stage `k` of signature `i` is a byte comparator, a flip-flop that remembers that stage `k-1` matched on the
    previous clock, and their conjunction. */
module ClockedGenerator {
  import opened Vhdl
  import opened Names
  import opened Hex
  import opened Signatures

  // ----- What is emitted -----

  function StageStmts(i: nat, h: string, k: nat): seq<Stmt> {
    var hex := Slice(h, k);
    [ ByteCompare(Show(CompareLabel(i, hex, k)), Show(Input), hex, Show(Cmp(i, hex, k))),
      FlipFlop(Show(StageLabel(i, k)), Show(Clk), Show(Reset),
               if k == 0 then One else Signal(Show(AndOut(i, k - 1))), Show(Stage(i, k))),
      And(Show(AndLabel(i, k)), Show(AndOut(i, k)), Show(Stage(i, k)), Show(Cmp(i, hex, k))) ]
  }

  function ChainStmts(i: nat, h: string, stages: nat): seq<Stmt> {
    if stages == 0 then [] else ChainStmts(i, h, stages - 1) + StageStmts(i, h, stages - 1)
  }

  /** The match of signature `i` is the conjunction of the stage that `j` names after its chain. */
  function MatchStmt(hexList: seq<string>, i: nat): Stmt
    requires i < |hexList|
  {
    Assign(Show(Match(i)), Show(AndOut(i, LeftoverStage(hexList, i + 1))))
  }

  function PortStmts(hexList: seq<string>, count: nat): seq<Stmt>
    requires count <= |hexList|
  {
    if count == 0 then []
    else PortStmts(hexList, count - 1) + ChainStmts(count - 1, hexList[count - 1], Stages(hexList[count - 1]))
         + [MatchStmt(hexList, count - 1)]
  }

  function PullStmts(count: nat): seq<Stmt> {
    seq(count, i requires 0 <= i < count =>
      PullUp(Show(PullLabel(i)), Show(Clk), Show(Reset), Show(Match(i)), Show(Hold(i))))
  }

  function OutputStmts(count: nat): seq<Stmt> {
    seq(count, i requires 0 <= i < count =>
      FlipFlop(Show(OutputLabel(i)), Show(Clk), Show(Reset), Signal(Show(Hold(i))), Show(Output(i))))
  }

  function Netlist(hexList: seq<string>): seq<Stmt> {
    [Assign(Show(Input), Show(DataIn))] + PortStmts(hexList, |hexList|)
      + PullStmts(|hexList|) + OutputStmts(|hexList|)
  }

  function StageDecl(i: nat, h: string, k: nat): seq<Decl> {
    [ Decl(Show(Cmp(i, Slice(h, k), k)), Undefined), Decl(Show(Stage(i, k)), Low), Decl(Show(AndOut(i, k)), Low) ]
  }

  function StageDecls(i: nat, h: string, stages: nat): seq<Decl> {
    if stages == 0 then []
    else StageDecls(i, h, stages - 1) + StageDecl(i, h, stages - 1)
  }

  function ChainDecls(hexList: seq<string>, count: nat): seq<Decl>
    requires count <= |hexList|
  {
    if count == 0 then []
    else ChainDecls(hexList, count - 1) + StageDecls(count - 1, hexList[count - 1], Stages(hexList[count - 1]))
  }

  function MatchDecls(count: nat): seq<Decl> {
    seq(count, i requires 0 <= i < count => Decl(Show(Match(i)), Undefined))
  }

  function HoldDecls(count: nat): seq<Decl> {
    seq(count, i requires 0 <= i < count => Decl(Show(Hold(i)), Undefined))
  }

  function Signals(hexList: seq<string>): seq<Decl> {
    [Decl(Show(Input), Undefined)] + ChainDecls(hexList, |hexList|) + MatchDecls(|hexList|) + HoldDecls(|hexList|)
  }

  function OutputNames(count: nat): seq<string> {
    seq(count, i requires 0 <= i < count => Show(Output(i)))
  }

  /** The entity header; for an empty list the last index printed is -1. */
  function Outputs(count: nat): seq<string> {
    if count == 0 then ["output_-1"] else OutputNames(count)
  }

  function Compiled(hexList: seq<string>): Design {
    Design([Show(Clk), Show(Reset), Show(DataIn)], Outputs(|hexList|), Signals(hexList), Netlist(hexList))
  }

  lemma ChainNext(i: nat, h: string, k: nat)
    ensures ChainStmts(i, h, 0) == [] && ChainStmts(i, h, k + 1) == ChainStmts(i, h, k) + StageStmts(i, h, k)
    ensures StageDecls(i, h, 0) == [] && StageDecls(i, h, k + 1) == StageDecls(i, h, k) + StageDecl(i, h, k)
  {}

  // ----- The script's own loops -----

  /** The file being written. */
  class Emitter {
    var inputs: seq<string>
    var outputs: seq<string>
    var signals: seq<Decl>
    var stmts: seq<Stmt>

    constructor ()
      ensures inputs == [] && outputs == [] && signals == [] && stmts == []
    {
      inputs, outputs, signals, stmts := [], [], [], [];
    }

    method SeqDetectHeader(size: nat)
      modifies `inputs, `outputs
      ensures inputs == old(inputs) + [Show(Clk), Show(Reset), Show(DataIn)]
      ensures outputs == old(outputs) + Outputs(size)
    {
      hide Show;
      inputs := inputs + [Show(Clk), Show(Reset), Show(DataIn)];
      var last := if size == 0 then 0 else size - 1;
      for i := 0 to last
        invariant inputs == old(inputs) + [Show(Clk), Show(Reset), Show(DataIn)]
        invariant outputs == old(outputs) + OutputNames(i)
      {
        outputs := outputs + [Show(Output(i))];
      }
      outputs := outputs + [if size == 0 then "output_-1" else Show(Output(size - 1))];
    }

    method SeqDetectSignals(hexList: seq<string>) returns (ok: bool)
      modifies `signals
      ensures ok <==> EvenDigits(hexList)
      ensures ok ==> signals == old(signals) + [Decl(Show(Input), Undefined)] + ChainDecls(hexList, |hexList|)
    {
      hide Show, Slice, StageDecls, ChainStmts;
      signals := signals + [Decl(Show(Input), Undefined)];
      ghost var base := signals;
      for i := 0 to |hexList|
        invariant EvenDigits(hexList[..i])
        invariant signals == base + ChainDecls(hexList, i)
      {
        var h := hexList[i];
        if |h| % 2 != 0 {
          return false;
        }
        var j := 0;
        ghost var start := signals;
        ChainNext(i, h, 0);
        while j < |h|
          invariant j % 2 == 0 && j <= |h|
          invariant signals == start + StageDecls(i, h, j / 2)
        {
          ghost var before := signals;
          ChainNext(i, h, j / 2);
          signals := signals + [Decl(Show(Cmp(i, Slice(h, j / 2), j / 2)), Undefined)];
          signals := signals + [Decl(Show(Stage(i, j / 2)), Low)];
          signals := signals + [Decl(Show(AndOut(i, j / 2)), Low)];
          assert signals == before + StageDecl(i, h, j / 2);
          j := j + 2;
        }
      }
      ok := true;
    }

    /** The body of the inner loop of `seq_detect_ports`. */
    method SeqDetectStage(i: nat, h: string, j: nat)
      requires j % 2 == 0
      modifies `stmts
      ensures stmts == old(stmts) + StageStmts(i, h, j / 2)
    {
      hide Show, Slice;
      var hex := Slice(h, j / 2);
      stmts := stmts + [ByteCompare(Show(CompareLabel(i, hex, j / 2)), Show(Input), hex,
                                    Show(Cmp(i, hex, j / 2)))];
      if j == 0 {
        stmts := stmts + [FlipFlop(Show(StageLabel(i, j / 2)), Show(Clk), Show(Reset), One,
                                   Show(Stage(i, j / 2)))];
      } else {
        stmts := stmts + [FlipFlop(Show(StageLabel(i, j / 2)), Show(Clk), Show(Reset),
                                   Signal(Show(AndOut(i, j / 2 - 1))), Show(Stage(i, j / 2)))];
      }
      stmts := stmts + [And(Show(AndLabel(i, j / 2)), Show(AndOut(i, j / 2)), Show(Stage(i, j / 2)),
                            Show(Cmp(i, hex, j / 2)))];
    }

    method SeqDetectPorts(hexList: seq<string>) returns (ok: bool)
      modifies `stmts
      ensures ok <==> hexList == [] || hexList[0] != ""
      ensures ok ==> stmts == old(stmts) + PortStmts(hexList, |hexList|)
    {
      hide Show, Slice, StageStmts, ChainStmts, StageDecls, LeftoverStage;
      var j, bound := 0, false;
      for i := 0 to |hexList|
        invariant bound <==> i > 0
        invariant i > 0 ==> hexList[0] != "" && j == 2 * LeftoverStage(hexList, i)
        invariant stmts == old(stmts) + PortStmts(hexList, i)
      {
        var h := hexList[i];
        var next := 0;
        ghost var start := stmts;
        ChainNext(i, h, 0);
        while next < |h|
          invariant next % 2 == 0 && next / 2 <= Stages(h)
          invariant next == 0 ==> bound == (i > 0) && (bound ==> j == 2 * LeftoverStage(hexList, i))
          invariant next > 0 ==> bound && j == next - 2
          invariant stmts == start + ChainStmts(i, h, next / 2)
        {
          j, bound := next, true;
          ChainNext(i, h, j / 2);
          SeqDetectStage(i, h, j);
          next := next + 2;
        }
        LeftoverNext(hexList, i, next);
        if !bound {
          return false;
        }
        stmts := stmts + [Assign(Show(Match(i)), Show(AndOut(i, j / 2)))];
      }
      ok := true;
    }

    method PullUpSignals(count: nat)
      modifies `signals
      ensures signals == old(signals) + MatchDecls(count) + HoldDecls(count)
    {
      hide Show;
      for i := 0 to count
        invariant signals == old(signals) + MatchDecls(i)
      {
        signals := signals + [Decl(Show(Match(i)), Undefined)];
      }
      for i := 0 to count
        invariant signals == old(signals) + MatchDecls(count) + HoldDecls(i)
      {
        signals := signals + [Decl(Show(Hold(i)), Undefined)];
      }
    }

    method PullUpPort(count: nat)
      modifies `stmts
      ensures stmts == old(stmts) + PullStmts(count) + OutputStmts(count)
    {
      hide Show;
      for i := 0 to count
        invariant stmts == old(stmts) + PullStmts(i)
      {
        stmts := stmts + [PullUp(Show(PullLabel(i)), Show(Clk), Show(Reset), Show(Match(i)), Show(Hold(i)))];
      }
      for i := 0 to count
        invariant stmts == old(stmts) + PullStmts(count) + OutputStmts(i)
      {
        stmts := stmts + [FlipFlop(Show(OutputLabel(i)), Show(Clk), Show(Reset), Signal(Show(Hold(i))),
                                   Show(Output(i)))];
      }
    }
  }

  /** `main` from the sorted lines on: the design written, or the exception raised first. */
  method Compile(lines: seq<Line>) returns (r: Result)
    ensures var hexList := HexList(lines);
            r == if !EvenDigits(hexList) then TypeError
                 else if hexList != [] && hexList[0] == "" then UnboundLocalError
                 else Written(Compiled(hexList))
  {
    hide Show, PortStmts, ChainDecls, MatchDecls, HoldDecls, PullStmts, OutputStmts, Outputs, HexLine, RStrip;
    var fw := new Emitter();
    fw.SeqDetectHeader(|lines|);
    var hexList := Hexify(lines);
    var ok := fw.SeqDetectSignals(hexList);
    if !ok {
      return TypeError;
    }
    fw.PullUpSignals(|hexList|);
    fw.stmts := fw.stmts + [Assign(Show(Input), Show(DataIn))];
    ok := fw.SeqDetectPorts(hexList);
    if !ok {
      return UnboundLocalError;
    }
    fw.PullUpPort(|hexList|);
    assert fw.stmts == Netlist(hexList);
    assert fw.signals == Signals(hexList);
    r := Written(Design(fw.inputs, fw.outputs, fw.signals, fw.stmts));
  }
}
