/** The data-triggered detector on whole runs and on streams of bytes: what its simulated signals are, and how a row
    moves from byte to byte. */
module TriggeredStreams {
  import opened Bytes
  import opened Vhdl
  import opened Names
  import opened Hex
  import opened Signatures
  import opened TriggeredChain
  import opened TriggeredDetector
  import G = TriggeredGenerator
  import N = TriggeredNetlist

  // ----- Signals at the end of a run -----

  /** A run: power-up and any port changes, with reset high at some time. */
  ghost predicate Run(hexList: seq<string>, trace: seq<Pins>, limit: nat) {
    Admissible(hexList) && Resets(trace) && limit >= 6
  }

  ghost function After(hexList: seq<string>, trace: seq<Pins>, limit: nat, n: Name): Value
    requires Run(hexList, trace, limit)
  {
    RunSettles(hexList, trace, limit);
    Get(Simulate(G.Compiled(hexList), PortEnvs(trace), limit).env, Show(n))
  }

  /** Comparator `k` of signature `i` on a simulation. */
  lemma StageSignal(hexList: seq<string>, trace: seq<Pins>, limit: nat, i: nat, k: nat)
    requires Run(hexList, trace, limit) && i < |hexList| && k < |Signature(hexList, i)|
    ensures After(hexList, trace, limit, CmpName(hexList, i, k)) ==
            Bit(RunRow(Signature(hexList, i), trace).stages[k])
  {
    hide Show, Simulate, RunRow, Inv, CmpName;
    RunRefines(hexList, trace, i, limit);
    CompareRead(hexList, Simulate(G.Compiled(hexList), PortEnvs(trace), limit).env, trace[|trace| - 1], i,
                RunRow(Signature(hexList, i), trace), k);
  }

  lemma OutputSignal(hexList: seq<string>, trace: seq<Pins>, limit: nat, i: nat)
    requires Run(hexList, trace, limit) && i < |hexList|
    ensures Signature(hexList, i) != []
    ensures After(hexList, trace, limit, Output(i)) == Bit(RunRow(Signature(hexList, i), trace).latched)
  {
    hide Show, Simulate, RunRow, Inv;
    RunRefines(hexList, trace, i, limit);
    InvParts(hexList, Simulate(G.Compiled(hexList), PortEnvs(trace), limit).env, trace[|trace| - 1], i,
             RunRow(Signature(hexList, i), trace));
  }

  /** The match of a signature is its last comparator, gated by reset, at the end of every run. */
  lemma GatedMatch(hexList: seq<string>, trace: seq<Pins>, limit: nat, i: nat)
    requires Run(hexList, trace, limit) && i < |hexList|
    ensures Signature(hexList, i) != []
    ensures After(hexList, trace, limit, Match(i)) ==
            if trace[|trace| - 1].reset then Low
            else After(hexList, trace, limit, CmpName(hexList, i, |Signature(hexList, i)| - 1))
  {
    hide Show, Simulate, RunRow, Inv, CmpName;
    StagesSignature(hexList, i);
    RunRefines(hexList, trace, i, limit);
    var env, row := Simulate(G.Compiled(hexList), PortEnvs(trace), limit).env, RunRow(Signature(hexList, i), trace);
    MatchRead(hexList, env, trace[|trace| - 1], i, row);
    StageSignal(hexList, trace, limit, i, |Signature(hexList, i)| - 1);
  }

  /** The order in which the generator writes the concurrent statements does not matter here either. */
  lemma StatementOrder(hexList: seq<string>, other: seq<Stmt>, ports: seq<Env>, limit: nat)
    requires HexTexts(hexList) && SameStatements(G.Netlist(hexList), other) && ports != []
    ensures Simulate(G.Compiled(hexList), ports, limit) == Simulate(G.Compiled(hexList).(stmts := other), ports, limit)
  {
    hide Show, G.Netlist;
    N.NetlistOneDriver(hexList);
    SimulationOrder(G.Compiled(hexList), other, ports, limit);
  }

  // ----- Streams of bytes -----

  /** Reset falls over a zero byte, then the bytes appear on the port one after the other. */
  function Feed(stream: Line): (trace: seq<Pins>)
    ensures |trace| == |stream| + 2 && trace[|stream| + 1] == Pins(false, LastByte(stream)) && Resets(trace)
  {
    if stream == [] then
      assert [Pins(true, 0), Pins(false, 0)][..1] == [Pins(true, 0)];
      [Pins(true, 0), Pins(false, 0)]
    else
      var init := Feed(stream[..|stream| - 1]);
      assert (init + [Pins(false, LastByte(stream))])[..|init|] == init;
      init + [Pins(false, LastByte(stream))]
  }

  function LastByte(stream: Line): Byte {
    if stream == [] then 0 else stream[|stream| - 1]
  }

  function StreamRow(sig: Line, stream: Line): (row: Row)
    requires sig != []
    ensures RowOk(sig, Pins(false, LastByte(stream)), row)
  {
    RunRow(sig, Feed(stream))
  }

  /** One more byte: a change of the byte runs every comparator, stage 0 enabled by a byte that is not zero, any other
      by a match of its predecessor that was there with the byte before. */
  function Enabled(stream: Line, row: Row, k: nat, b: Byte): bool
    requires k <= |row.stages|
  {
    if k == 0 then b != 0 else LastByte(stream) != 0 && row.stages[k - 1]
  }

  lemma StreamStart(sig: Line)
    requires sig != []
    ensures StreamRow(sig, []) == Row(Cleared(|sig|), false)
  {
    var trace := Feed([]);
    assert trace[..1] == [Pins(true, 0)] && trace[..1][..0] == [];
    assert RunRow(sig, trace[..1]) == Row(Cleared(|sig|), false);
  }

  lemma StreamStep(sig: Line, stream: Line, b: Byte)
    requires sig != []
    ensures StreamRow(sig, stream + [b]) ==
            RowStep(sig, Pins(false, LastByte(stream)), StreamRow(sig, stream), Pins(false, b))
  {
    assert (stream + [b])[..|stream|] == stream;
    var trace := Feed(stream + [b]);
    assert trace[..|trace| - 1] == Feed(stream);
  }

  lemma StageStep(sig: Line, stream: Line, b: Byte, k: nat)
    requires k < |sig|
    ensures var row := StreamRow(sig, stream);
            StreamRow(sig, stream + [b]).stages[k] ==
            if b != LastByte(stream) && Enabled(stream, row, k, b) then b == sig[k] else row.stages[k]
  {
    hide StreamRow;
    StreamStep(sig, stream, b);
  }

  lemma LatchStep(sig: Line, stream: Line, b: Byte)
    requires sig != []
    ensures var row, next, last := StreamRow(sig, stream), StreamRow(sig, stream + [b]), |sig| - 1;
            next.latched == (row.latched || (b != 0 && (row.stages[last] || next.stages[last])))
  {
    hide StreamRow;
    StreamStep(sig, stream, b);
  }

  /** Without zero bytes in the signature a match that is held has reached the output. */
  lemma {:induction false} HeldLatched(sig: Line, stream: Line)
    requires sig != [] && 0 !in sig
    ensures StreamRow(sig, stream).stages[|sig| - 1] ==> StreamRow(sig, stream).latched
  {
    hide StreamRow;
    if stream == [] {
      StreamStart(sig);
    } else {
      var init, b := stream[..|stream| - 1], LastByte(stream);
      assert stream == init + [b];
      HeldLatched(sig, init);
      StageStep(sig, init, b, |sig| - 1);
      LatchStep(sig, init, b);
      assert sig[|sig| - 1] in sig;
    }
  }

  // ----- What is detected -----

  /** Whether the simulated output of signature `i` is high after the stream. */
  ghost predicate TriggeredDetects(hexList: seq<string>, i: nat, stream: Line, limit: nat)
    requires Admissible(hexList) && i < |hexList| && limit >= 6
  {
    After(hexList, Feed(stream), limit, Output(i)) == High
  }

  /** Whether its match is. */
  ghost predicate TriggeredMatches(hexList: seq<string>, i: nat, stream: Line, limit: nat)
    requires Admissible(hexList) && i < |hexList| && limit >= 6
  {
    After(hexList, Feed(stream), limit, Match(i)) == High
  }

  lemma DetectsRow(hexList: seq<string>, i: nat, stream: Line, limit: nat)
    requires Admissible(hexList) && i < |hexList| && limit >= 6
    ensures var sig := Signature(hexList, i);
            && sig != []
            && (TriggeredDetects(hexList, i, stream, limit) <==> StreamRow(sig, stream).latched)
            && (TriggeredMatches(hexList, i, stream, limit) <==> StreamRow(sig, stream).stages[|sig| - 1])
  {
    hide Show, After, RunRow, CmpName, Feed;
    OutputSignal(hexList, Feed(stream), limit, i);
    GatedMatch(hexList, Feed(stream), limit, i);
    StageSignal(hexList, Feed(stream), limit, i, |Signature(hexList, i)| - 1);
  }
}
