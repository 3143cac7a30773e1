/** What the clocked detector promises, stated on simulations of the compiled design. */
module ClockedTheorems {
  import opened Vhdl
  import opened Names
  import opened Hex
  import opened Signatures
  import opened Streams
  import opened ClockedGenerator
  import opened ClockedNetlist
  import opened ClockedDetector

  /** A run: power-up and any port changes. `limit` is the simulator's bound on delta cycles. */
  ghost predicate Run(hexList: seq<string>, trace: seq<Pins>, limit: nat) {
    Admissible(hexList) && trace != [] && limit >= 6
  }

  /** The value of a signal or port at the end of a run. */
  ghost function After(hexList: seq<string>, trace: seq<Pins>, limit: nat, n: Name): Value
    requires Run(hexList, trace, limit)
  {
    RunInvariant(hexList, trace, limit);
    Get(Simulate(Compiled(hexList), PortEnvs(trace), limit).env, Show(n))
  }

  /** The live NFA states are exactly the prefixes of the signature that end the sampled bytes. Before the first reset
      nothing is known of those prefixes that end with all of the sampled bytes. */
  lemma StageExactness(hexList: seq<string>, trace: seq<Pins>, limit: nat, i: nat, k: nat)
    requires Run(hexList, trace, limit) && i < |hexList| && k < |Signature(hexList, i)|
    ensures var sampled, prefix := Sampled(trace), Signature(hexList, i)[..k];
            After(hexList, trace, limit, Stage(i, k)) ==
            if |sampled| > k && sampled[|sampled| - k..] == prefix then High
            else if !Resets(trace) && EndsWith(prefix, sampled) then Undefined
            else Low
  {
    hide Show, Netlist, Simulate, Inv;
    RunInvariant(hexList, trace, limit);
    StagesSignature(hexList, i);
    var env := Simulate(Compiled(hexList), PortEnvs(trace), limit).env;
    InvStage(hexList, env, trace[|trace| - 1], Sampled(trace), Resets(trace), i, k);
  }

  /** A match is signalled while the byte that completes the signature is on the data port. */
  lemma MatchExactness(hexList: seq<string>, trace: seq<Pins>, limit: nat, i: nat)
    requires Run(hexList, trace, limit) && i < |hexList|
    ensures var bytes := Sampled(trace) + [trace[|trace| - 1].data];
            After(hexList, trace, limit, Match(i)) ==
            if EndsWith(Usable(bytes), Signature(hexList, i)) then High
            else if !Resets(trace) && EndsWith(Signature(hexList, i), bytes) then Undefined
            else Low
  {
    hide Show, Netlist, Simulate, Inv, Usable;
    RunInvariant(hexList, trace, limit);
    var env := Simulate(Compiled(hexList), PortEnvs(trace), limit).env;
    MatchRead(hexList, env, trace[|trace| - 1], Sampled(trace), Resets(trace), i);
  }

  lemma MatchHigh(hexList: seq<string>, trace: seq<Pins>, limit: nat, i: nat)
    requires Run(hexList, trace, limit) && i < |hexList|
    ensures After(hexList, trace, limit, Match(i)) == High <==>
            EndsWith(Usable(Sampled(trace) + [trace[|trace| - 1].data]), Signature(hexList, i))
  {
    hide Show, Netlist, After, Usable, EndsWith;
    MatchExactness(hexList, trace, limit, i);
  }

  /** Compiler correctness: an output port is high exactly when its signature has occurred since reset, or power-up,
      not counting the byte of the warm-up edge, and at least one clock ago. Otherwise it is low, or undefined if there
      has been no reset yet. */
  lemma OutputExactness(hexList: seq<string>, trace: seq<Pins>, limit: nat, i: nat)
    requires Run(hexList, trace, limit) && i < |hexList|
    ensures var usable := Usable(Sampled(trace));
            After(hexList, trace, limit, Output(i)) ==
            if usable != [] && Occurs(Signature(hexList, i), usable[..|usable| - 1]) then High
            else if Resets(trace) then Low
            else Undefined
  {
    hide Show, Netlist, Simulate, Inv, Usable;
    RunInvariant(hexList, trace, limit);
    var env := Simulate(Compiled(hexList), PortEnvs(trace), limit).env;
    InvLatches(hexList, env, trace[|trace| - 1], Sampled(trace), Resets(trace), i);
  }

  /** An output that is high stays high until reset. */
  lemma OutputSticky(hexList: seq<string>, trace: seq<Pins>, limit: nat, i: nat, next: Pins)
    requires Run(hexList, trace, limit) && i < |hexList|
    ensures After(hexList, trace, limit, Output(i)) == High && !next.reset ==>
            After(hexList, trace + [next], limit, Output(i)) == High
  {
    hide Show, Netlist, After, Occurs;
    OutputExactness(hexList, trace, limit, i);
    OutputExactness(hexList, trace + [next], limit, i);
    assert (trace + [next])[..|trace|] == trace;
    var sig, u, v := Signature(hexList, i), Usable(Sampled(trace)), Usable(Sampled(trace + [next]));
    if u != v && !next.reset && u != [] && Occurs(sig, u[..|u| - 1]) {
      assert v[..|v| - 1] == u;
      OccursPrefix(sig, u, |u| - 1);
    }
  }

  /** Rising edges, since the last reset or power-up, at which signature `i` was signalled. */
  ghost function MatchEdges(hexList: seq<string>, trace: seq<Pins>, limit: nat, i: nat): nat
    requires Run(hexList, trace, limit) && i < |hexList|
  {
    var last := |trace| - 1;
    if last == 0 || trace[last].reset then 0
    else MatchEdges(hexList, trace[..last], limit, i) +
         (if !trace[last - 1].clk && trace[last].clk && After(hexList, trace[..last], limit, Match(i)) == High then 1 else 0)
  }

  /** No overlapping occurrence is lost or merged. */
  lemma {:induction false} MatchesCounted(hexList: seq<string>, trace: seq<Pins>, limit: nat, i: nat)
    requires Run(hexList, trace, limit) && i < |hexList|
    ensures MatchEdges(hexList, trace, limit, i) == Occurrences(Signature(hexList, i), Usable(Sampled(trace)))
  {
    hide Show, Netlist, After;
    var last := |trace| - 1;
    if last > 0 && !trace[last].reset {
      var init := trace[..last];
      MatchesCounted(hexList, init, limit, i);
      if !trace[last - 1].clk && trace[last].clk {
        MatchHigh(hexList, init, limit, i);
        var u, v := Usable(Sampled(init)), Usable(Sampled(trace));
        assert Sampled(init) != [] ==> v[..|v| - 1] == u;
        StagesSignature(hexList, i);
      }
    }
  }

  // ----- Consequences for several signatures and several netlists -----

  /** What one signature's output does depends on that signature alone, whatever it was compiled with. */
  lemma Compositional(hexList: seq<string>, i: nat, other: seq<string>, j: nat, trace: seq<Pins>, limit: nat)
    requires Run(hexList, trace, limit) && Run(other, trace, limit)
    requires i < |hexList| && j < |other| && hexList[i] == other[j]
    ensures After(hexList, trace, limit, Output(i)) == After(other, trace, limit, Output(j))
    ensures After(hexList, trace, limit, Match(i)) == After(other, trace, limit, Match(j))
  {
    hide Show, Netlist, After;
    OutputExactness(hexList, trace, limit, i);
    OutputExactness(other, trace, limit, j);
    MatchExactness(hexList, trace, limit, i);
    MatchExactness(other, trace, limit, j);
  }

  /** A factor of a detected signature is detected, and a suffix matches at the very same time. */
  lemma FactorMonotone(hexList: seq<string>, a: nat, b: nat, trace: seq<Pins>, limit: nat)
    requires Run(hexList, trace, limit) && a < |hexList| && b < |hexList|
    ensures Occurs(Signature(hexList, a), Signature(hexList, b)) && After(hexList, trace, limit, Output(b)) == High
            ==> After(hexList, trace, limit, Output(a)) == High
    ensures EndsWith(Signature(hexList, b), Signature(hexList, a)) && After(hexList, trace, limit, Match(b)) == High
            ==> After(hexList, trace, limit, Match(a)) == High
  {
    hide Show, Netlist, After, Occurs, EndsWith;
    OutputExactness(hexList, trace, limit, a);
    OutputExactness(hexList, trace, limit, b);
    MatchHigh(hexList, trace, limit, a);
    MatchHigh(hexList, trace, limit, b);
    var sa, sb, u := Signature(hexList, a), Signature(hexList, b), Usable(Sampled(trace));
    if Occurs(sa, sb) && u != [] && Occurs(sb, u[..|u| - 1]) {
      OccursFactor(sa, sb, u[..|u| - 1]);
    }
    var w := Usable(Sampled(trace) + [trace[|trace| - 1].data]);
    if EndsWith(sb, sa) && EndsWith(w, sb) {
      EndsWithSuffix(sa, sb, w);
    }
  }

  /** The order in which the generator writes the concurrent statements does not matter. */
  lemma StatementOrder(hexList: seq<string>, other: seq<Stmt>, ports: seq<Env>, limit: nat)
    requires HexTexts(hexList) && SameStatements(Netlist(hexList), other) && ports != []
    ensures Simulate(Compiled(hexList), ports, limit) == Simulate(Compiled(hexList).(stmts := other), ports, limit)
  {
    hide Show, Netlist;
    NetlistOneDriver(hexList);
    SimulationOrder(Compiled(hexList), other, ports, limit);
  }

  // ----- Streams of bytes, one per clock -----

  /** Reset, then each byte on the port for a low and a high phase of the clock. */
  function Drive(stream: Line): seq<Pins> {
    if stream == [] then [Pins(false, true, 0)]
    else var b := stream[|stream| - 1];
         Drive(stream[..|stream| - 1]) + [Pins(false, false, b), Pins(true, false, b)]
  }

  lemma {:induction false} DriveSamples(stream: Line)
    ensures var d := Drive(stream); Resets(d) && Sampled(d) == stream
  {
    if stream != [] {
      var init, b := stream[..|stream| - 1], stream[|stream| - 1];
      DriveSamples(init);
      var d, low := Drive(init), Drive(init) + [Pins(false, false, b)];
      assert low[..|d|] == d;
      assert Sampled(low) == Sampled(d);
      assert Drive(stream)[..|low|] == low;
    }
  }

  /** The output of signature `i` after `stream`, between a warm-up clock and a clock to reach the output. */
  ghost predicate ClockedDetects(hexList: seq<string>, i: nat, stream: Line, limit: nat)
    requires Admissible(hexList) && i < |hexList| && limit >= 6
  {
    DriveSamples([0] + stream + [0]);
    After(hexList, Drive([0] + stream + [0]), limit, Output(i)) == High
  }

  lemma ClockedDetectsExactly(hexList: seq<string>, i: nat, stream: Line, limit: nat)
    requires Admissible(hexList) && i < |hexList| && limit >= 6
    ensures ClockedDetects(hexList, i, stream, limit) <==> Occurs(Signature(hexList, i), stream)
  {
    hide Show, Netlist, After, Occurs;
    var fed := [0] + stream + [0];
    DriveSamples(fed);
    OutputExactness(hexList, Drive(fed), limit, i);
    assert Usable(fed) == stream + [0];
    assert Usable(fed)[..|stream|] == stream;
  }
}
