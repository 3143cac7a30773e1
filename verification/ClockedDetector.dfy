/** The clocked netlist, simulated by signal name, detects exactly the signatures it was compiled from. */
module ClockedDetector {
  import opened Bytes
  import opened Vhdl
  import opened Names
  import opened Hex
  import opened Signatures
  import opened Streams
  import opened ClockedGenerator
  import opened ClockedNetlist

  /** The values on the input ports between two port changes. */
  datatype Pins = Pins(clk: bool, reset: bool, data: Byte)

  function PortEnv(p: Pins): Env {
    map[Show(Clk) := Bit(p.clk), Show(Reset) := Bit(p.reset), Show(DataIn) := Vector(p.data)]
  }

  function PortEnvs(trace: seq<Pins>): seq<Env> {
    seq(|trace|, t requires 0 <= t < |trace| => PortEnv(trace[t]))
  }

  // ----- The bytes a run samples -----

  /** Reset has been high at some time. */
  predicate Resets(trace: seq<Pins>) {
    trace != [] && (trace[|trace| - 1].reset || Resets(trace[..|trace| - 1]))
  }

  function Sample(sampled: Line, before: Pins, after: Pins): Line {
    if after.reset then []
    else if !before.clk && after.clk then sampled + [before.data]
    else sampled
  }

  /** The bytes on the data port at the rising clock edges since reset was last high. */
  function Sampled(trace: seq<Pins>): Line
    requires trace != []
  {
    var last := |trace| - 1;
    if last == 0 then [] else Sample(Sampled(trace[..last]), trace[last - 1], trace[last])
  }

  /** Stage `k` is waiting for byte `k`: the first `k` bytes were the last ones sampled. The constant '1' that
      feeds stage 0 arrives with the first edge, so the byte sampled there starts no match. */
  ghost predicate Live(sampled: Line, sig: Line, k: nat)
    requires k <= |sig|
  {
    |sampled| > k && EndsWith(sampled, sig[..k])
  }

  lemma LiveSample(sampled: Line, sig: Line, k: nat, b: Byte)
    requires k < |sig|
    ensures Live(sampled + [b], sig, k + 1) <==> Live(sampled, sig, k) && b == sig[k]
  {
    EndsWithAppend(sampled, sig, k, b);
  }

  /** Nothing is known of stage `k`: it has been passed on from the state of power-up, through every byte sampled. */
  predicate Unknown(sampled: Line, sig: Line, k: nat)
    requires k <= |sig|
  {
    EndsWith(sig[..k], sampled)
  }

  lemma UnknownSample(sampled: Line, sig: Line, k: nat, b: Byte)
    requires k < |sig|
    ensures Unknown(sampled + [b], sig, k + 1) <==> Unknown(sampled, sig, k) && b == sig[k]
  {
    if |sampled| <= k {
      var tail, longer := sig[..k][k - |sampled|..], sampled + [b];
      assert sig[..k + 1][k - |sampled|..] == tail + [sig[k]];
      assert longer[..|sampled|] == sampled && longer[|sampled|] == b;
      assert (tail + [sig[k]])[..|sampled|] == tail && (tail + [sig[k]])[|sampled|] == sig[k];
    }
  }

  /** What stage `k` holds; `cleared` says that there has been a reset. */
  ghost function StageValue(cleared: bool, sampled: Line, sig: Line, k: nat): Value
    requires k <= |sig|
  {
    if Live(sampled, sig, k) then High
    else if !cleared && Unknown(sampled, sig, k) then Undefined
    else Low
  }

  lemma StageValueSample(cleared: bool, sampled: Line, sig: Line, k: nat, b: Byte)
    requires k < |sig|
    ensures StageValue(cleared, sampled + [b], sig, k + 1) ==
            AndLogic(StageValue(cleared, sampled, sig, k), Bit(b == sig[k]))
  {
    hide Live, Unknown;
    LiveSample(sampled, sig, k, b);
    UnknownSample(sampled, sig, k, b);
  }

  /** What a latch that is not high holds. */
  function Floor(cleared: bool): Value {
    if cleared then Low else Undefined
  }

  /** The bytes that can take part in a match. */
  function Usable(sampled: Line): Line {
    if sampled == [] then [] else sampled[1..]
  }

  lemma LiveWhole(sampled: Line, sig: Line)
    requires sig != []
    ensures Live(sampled, sig, |sig|) <==> EndsWith(Usable(sampled), sig)
  {
    assert sig[..|sig|] == sig;
    if |sampled| > |sig| {
      assert sampled[|sampled| - |sig|..] == Usable(sampled)[|Usable(sampled)| - |sig|..];
    }
  }

  // ----- The invariant of every run -----

  ghost predicate StageIs(hexList: seq<string>, env: Env, sampled: Line, cleared: bool, i: nat, k: nat)
    requires Admissible(hexList) && HasStage(hexList, i, k)
  {
    Get(env, Show(Stage(i, k))) == StageValue(cleared, sampled, Signature(hexList, i), k)
  }

  ghost predicate LatchesAre(hexList: seq<string>, env: Env, sampled: Line, cleared: bool, i: nat)
    requires Admissible(hexList) && i < |hexList|
  {
    var sig, usable := Signature(hexList, i), Usable(sampled);
    && Get(env, Show(Hold(i))) == (if Occurs(sig, usable) then High else Floor(cleared))
    && Get(env, Show(Output(i))) ==
         (if usable != [] && Occurs(sig, usable[..|usable| - 1]) then High else Floor(cleared))
  }

  /** Between two port changes, whatever the registers hold. */
  ghost predicate Ready(hexList: seq<string>, env: Env, pins: Pins) {
    && Admissible(hexList)
    && env.Keys == Compiled(hexList).Objects()
    && Quiet(Netlist(hexList), env)
    && (forall x :: x in PortEnv(pins) ==> Get(env, x) == PortEnv(pins)[x])
  }

  ghost predicate Inv(hexList: seq<string>, env: Env, pins: Pins, sampled: Line, cleared: bool) {
    && Ready(hexList, env, pins)
    && (forall i, k :: HasStage(hexList, i, k) ==> StageIs(hexList, env, sampled, cleared, i, k))
    && (forall i :: 0 <= i < |hexList| ==> LatchesAre(hexList, env, sampled, cleared, i))
  }

  // ----- Reading the settled combinational signals -----

  lemma Settled(hexList: seq<string>, env: Env, pins: Pins, sampled: Line, cleared: bool, n: Name)
    requires Inv(hexList, env, pins, sampled, cleared) && IsDriven(hexList, n) && Driver(hexList, n).Combinational()
    ensures Get(env, Show(n)) == Body(Driver(hexList, n), env, env)
  {
    hide Show, Netlist, Driver, StageIs, LatchesAre;
    DriverInNetlist(hexList, n);
    DriverTarget(hexList, n);
  }

  lemma InvAdmissible(hexList: seq<string>, env: Env, pins: Pins, sampled: Line, cleared: bool)
    requires Inv(hexList, env, pins, sampled, cleared)
    ensures Admissible(hexList)
  {}

  lemma InvReady(hexList: seq<string>, env: Env, pins: Pins, sampled: Line, cleared: bool)
    requires Inv(hexList, env, pins, sampled, cleared)
    ensures Ready(hexList, env, pins)
  {}

  lemma InvStage(hexList: seq<string>, env: Env, pins: Pins, sampled: Line, cleared: bool, i: nat, k: nat)
    requires Inv(hexList, env, pins, sampled, cleared) && HasStage(hexList, i, k)
    ensures Admissible(hexList) && StageIs(hexList, env, sampled, cleared, i, k)
  {}

  lemma InvLatches(hexList: seq<string>, env: Env, pins: Pins, sampled: Line, cleared: bool, i: nat)
    requires Inv(hexList, env, pins, sampled, cleared) && i < |hexList|
    ensures Admissible(hexList) && LatchesAre(hexList, env, sampled, cleared, i)
  {}

  lemma PinsRead(hexList: seq<string>, env: Env, pins: Pins, sampled: Line, cleared: bool)
    requires Inv(hexList, env, pins, sampled, cleared)
    ensures Get(env, Show(Clk)) == Bit(pins.clk) && Get(env, Show(Reset)) == Bit(pins.reset)
    ensures Get(env, Show(DataIn)) == Vector(pins.data) && Get(env, Show(Input)) == Vector(pins.data)
  {
    hide Show, Netlist;
    PortNamesDiffer();
    assert Show(DataIn) in PortEnv(pins) && Show(Clk) in PortEnv(pins) && Show(Reset) in PortEnv(pins);
    Settled(hexList, env, pins, sampled, cleared, Input);
  }

  lemma PortNamesDiffer()
    ensures Show(Clk) != Show(Reset) && Show(Clk) != Show(DataIn) && Show(Reset) != Show(DataIn)
  {}

  lemma CompareRead(hexList: seq<string>, env: Env, pins: Pins, sampled: Line, cleared: bool, i: nat, k: nat)
    requires Inv(hexList, env, pins, sampled, cleared) && HasStage(hexList, i, k)
    ensures HexTexts(hexList) && k < |Signature(hexList, i)|
    ensures Get(env, Show(Cmp(i, Slice(hexList[i], k), k))) == Bit(pins.data == Signature(hexList, i)[k])
  {
    hide Show, Netlist, Inv;
    InvAdmissible(hexList, env, pins, sampled, cleared);
    StagesSignature(hexList, i);
    PinsRead(hexList, env, pins, sampled, cleared);
    var n := Cmp(i, Slice(hexList[i], k), k);
    Settled(hexList, env, pins, sampled, cleared, n);
    assert Driver(hexList, n).sig == Slice(hexList[i], k);
    LiteralOfSlice(hexList, i, k);
  }

  /** The output of stage `k`'s gate is what the flip-flop of stage `k + 1` samples. */
  lemma GateRead(hexList: seq<string>, env: Env, pins: Pins, sampled: Line, cleared: bool, i: nat, k: nat)
    requires Inv(hexList, env, pins, sampled, cleared) && HasStage(hexList, i, k)
    ensures HexTexts(hexList) && k < |Signature(hexList, i)|
    ensures Get(env, Show(AndOut(i, k))) == StageValue(cleared, sampled + [pins.data], Signature(hexList, i), k + 1)
  {
    hide Show, Netlist, Inv, StageValue;
    InvAdmissible(hexList, env, pins, sampled, cleared);
    StagesSignature(hexList, i);
    CompareRead(hexList, env, pins, sampled, cleared, i, k);
    InvStage(hexList, env, pins, sampled, cleared, i, k);
    Settled(hexList, env, pins, sampled, cleared, AndOut(i, k));
    StageValueSample(cleared, sampled, Signature(hexList, i), k, pins.data);
  }

  lemma MatchRead(hexList: seq<string>, env: Env, pins: Pins, sampled: Line, cleared: bool, i: nat)
    requires Inv(hexList, env, pins, sampled, cleared) && i < |hexList|
    ensures HexTexts(hexList)
    ensures var sig, past := Signature(hexList, i), sampled + [pins.data];
            Get(env, Show(Match(i))) ==
            if EndsWith(Usable(past), sig) then High else if !cleared && EndsWith(sig, past) then Undefined else Low
  {
    hide Show, Netlist, Inv;
    InvAdmissible(hexList, env, pins, sampled, cleared);
    StagesSignature(hexList, i);
    LastStage(hexList, i);
    var sig := Signature(hexList, i);
    GateRead(hexList, env, pins, sampled, cleared, i, |sig| - 1);
    Settled(hexList, env, pins, sampled, cleared, Match(i));
    LiveWhole(sampled + [pins.data], sig);
    assert sig[..|sig|] == sig;
  }

  // ----- Every declared object -----

  lemma {:induction false} StageDeclared(i: nat, h: string, stages: nat, k: nat)
    requires k < stages
    ensures forall d :: d in StageDecl(i, h, k) ==> d in StageDecls(i, h, stages)
  {
    hide Show, Slice;
    if k < stages - 1 {
      StageDeclared(i, h, stages - 1, k);
    }
  }

  lemma {:induction false} ChainDeclared(hexList: seq<string>, count: nat, i: nat, k: nat)
    requires count <= |hexList| && i < count && HasStage(hexList, i, k)
    ensures forall d :: d in StageDecl(i, hexList[i], k) ==> d in ChainDecls(hexList, count)
  {
    hide Show, Slice, StageDecl;
    if i < count - 1 {
      ChainDeclared(hexList, count - 1, i, k);
    } else {
      StageDeclared(i, hexList[i], Stages(hexList[i]), k);
    }
  }

  lemma DeclaredObject(hexList: seq<string>, d: Decl)
    requires d in Signals(hexList)
    ensures d.name in Compiled(hexList).Objects()
  {}

  /** Every driven signal is declared, or is an output port. */
  lemma DrivenDeclared(hexList: seq<string>, n: Name)
    requires IsDriven(hexList, n)
    ensures Show(n) in Compiled(hexList).Objects()
  {
    hide Show, Slice, Compiled;
    var count := |hexList|;
    if n.PerStage() {
      ChainDeclared(hexList, count, n.i, n.k);
      var decl := StageDecl(n.i, hexList[n.i], n.k);
      var d := if n.Cmp? then decl[0] else if n.Stage? then decl[1] else decl[2];
      assert d in decl;
      DeclaredObject(hexList, d);
    } else if n.Input? {
      DeclaredObject(hexList, Decl(Show(n), Undefined));
    } else if n.Match? {
      assert MatchDecls(count)[n.i] in MatchDecls(count);
      DeclaredObject(hexList, MatchDecls(count)[n.i]);
    } else if n.Hold? {
      assert HoldDecls(count)[n.i] in HoldDecls(count);
      DeclaredObject(hexList, HoldDecls(count)[n.i]);
    } else {
      OutputDeclared(hexList, n.i);
    }
  }

  lemma OutputDeclared(hexList: seq<string>, i: nat)
    requires i < |hexList|
    ensures Show(Output(i)) in Compiled(hexList).Objects()
  {
    hide Show;
    assert OutputNames(|hexList|)[i] in OutputNames(|hexList|);
  }

  lemma NetlistDeclared(hexList: seq<string>, env: Env)
    requires HexTexts(hexList) && env.Keys == Compiled(hexList).Objects()
    ensures Declared(Netlist(hexList), env)
    ensures Show(Clk) in env && Show(Reset) in env && Show(DataIn) in env
  {
    hide Show, Netlist;
    forall s | s in Netlist(hexList) ensures s.target in env {
      NetlistEmitted(hexList, s);
      var n: Name :| IsDriven(hexList, n) && s == Driver(hexList, n);
      DriverTarget(hexList, n);
      DrivenDeclared(hexList, n);
    }
  }

  // ----- One port change -----

  lemma RegisterStep(hexList: seq<string>, env: Env, pins: Pins, after: Pins, limit: nat)
    requires Ready(hexList, env, pins) && limit >= 6
    ensures var out := Apply(Netlist(hexList), env, PortEnv(after), limit);
            && out.Stable? && out.env.Keys == env.Keys && Quiet(Netlist(hexList), out.env)
            && (forall n :: IsDriven(hexList, n) && Driver(hexList, n).EdgeTriggered() ==>
                  Get(out.env, Show(n)) == Body(Driver(hexList, n), env, env + PortEnv(after)))
            && (forall x :: x in PortEnv(after) ==> Get(out.env, x) == PortEnv(after)[x])
  {
    hide Show, Netlist, Driver;
    NetlistOneDriver(hexList);
    NetlistRanked(hexList);
    NetlistDeclared(hexList, env);
    InputsUndriven(hexList);
    SynchronousStep(Netlist(hexList), env, PortEnv(after), limit, Show(Clk), Show(Reset), RankBy(RankOf), 5);
    var out := Apply(Netlist(hexList), env, PortEnv(after), limit);
    forall n | IsDriven(hexList, n) && Driver(hexList, n).EdgeTriggered()
      ensures Get(out.env, Show(n)) == Body(Driver(hexList, n), env, env + PortEnv(after))
    {
      DriverInNetlist(hexList, n);
      DriverTarget(hexList, n);
    }
  }

  /** Writing the ports leaves every driven signal as it was. */
  lemma PortsOnly(hexList: seq<string>, env: Env, after: Pins, n: Name)
    requires HexTexts(hexList) && IsDriven(hexList, n)
    ensures Get(env + PortEnv(after), Show(n)) == Get(env, Show(n))
  {
    hide Show, Netlist;
    DrivenValid(hexList, n);
    forall m: Name | m in {Clk, Reset, DataIn} ensures Show(m) != Show(n) {
      if Show(m) == Show(n) {
        ShowEqual(m, n);
      }
    }
  }

  lemma EdgeRead(hexList: seq<string>, env: Env, pins: Pins, sampled: Line, cleared: bool, after: Pins)
    requires Inv(hexList, env, pins, sampled, cleared)
    ensures var cur := env + PortEnv(after);
            && Get(cur, Show(Reset)) == Bit(after.reset)
            && RisingEdge(env, cur, Show(Clk)) == (!pins.clk && after.clk)
  {
    hide Show, Netlist;
    PortNamesDiffer();
    PinsRead(hexList, env, pins, sampled, cleared);
  }

  /** What the flip-flop or latch that drives `n` holds afterwards, in terms of the signal it samples. */
  lemma RegisterRead(hexList: seq<string>, env: Env, pins: Pins, sampled: Line, cleared: bool, after: Pins, limit: nat,
                     n: Name, input: Name)
    requires Inv(hexList, env, pins, sampled, cleared) && limit >= 6
    requires IsDriven(hexList, n) && IsDriven(hexList, input)
    requires var s := Driver(hexList, n);
             || (s.FlipFlop? && (s.input == One || s.input == Signal(Show(input))))
             || (s.PullUp? && s.match_ == Show(input))
    ensures var s, out, old_ := Driver(hexList, n), Apply(Netlist(hexList), env, PortEnv(after), limit), Get(env, Show(n));
            && out.Stable?
            && Get(out.env, Show(n)) ==
                 if after.reset then Low
                 else if pins.clk || !after.clk then old_
                 else if s.FlipFlop? then (if s.input == One then High else Get(env, Show(input)))
                 else if Get(env, Show(input)) == High then High
                 else old_
  {
    hide Show, Netlist, Apply, PortEnv, Quiet, Inv, Ready;
    InvAdmissible(hexList, env, pins, sampled, cleared);
    InvReady(hexList, env, pins, sampled, cleared);
    RegisterStep(hexList, env, pins, after, limit);
    EdgeRead(hexList, env, pins, sampled, cleared, after);
    PortsOnly(hexList, env, after, n);
    PortsOnly(hexList, env, after, input);
    DriverTarget(hexList, n);
    DriverRanked(hexList, n);
  }

  /** What stage `k` is to hold after a port change, by what happens on the ports. */
  lemma StageSampled(sampled: Line, cleared: bool, pins: Pins, after: Pins, sig: Line, k: nat)
    requires k < |sig|
    ensures StageValue(cleared || after.reset, Sample(sampled, pins, after), sig, k) ==
            if after.reset then Low
            else if pins.clk || !after.clk then StageValue(cleared, sampled, sig, k)
            else if k == 0 then High
            else StageValue(cleared, sampled + [pins.data], sig, k)
  {
    hide Unknown;
  }

  lemma StageStep(hexList: seq<string>, env: Env, pins: Pins, sampled: Line, cleared: bool, after: Pins, limit: nat,
                  i: nat, k: nat)
    requires Inv(hexList, env, pins, sampled, cleared) && limit >= 6 && HasStage(hexList, i, k)
    requires Apply(Netlist(hexList), env, PortEnv(after), limit).Stable?
    ensures Admissible(hexList)
    ensures StageIs(hexList, Apply(Netlist(hexList), env, PortEnv(after), limit).env,
                    Sample(sampled, pins, after), cleared || after.reset, i, k)
  {
    hide Show, Netlist, Apply, PortEnv, Inv, StageValue, Sample;
    InvStage(hexList, env, pins, sampled, cleared, i, k);
    StageSampled(sampled, cleared, pins, after, Signature(hexList, i), k);
    RegisterRead(hexList, env, pins, sampled, cleared, after, limit, Stage(i, k),
                 if k == 0 then Stage(i, k) else AndOut(i, k - 1));
    if k > 0 {
      GateRead(hexList, env, pins, sampled, cleared, i, k - 1);
    }
  }

  lemma LatchStep(hexList: seq<string>, env: Env, pins: Pins, sampled: Line, cleared: bool, after: Pins, limit: nat,
                  i: nat)
    requires Inv(hexList, env, pins, sampled, cleared) && limit >= 6 && i < |hexList|
    requires Apply(Netlist(hexList), env, PortEnv(after), limit).Stable?
    ensures Admissible(hexList)
    ensures LatchesAre(hexList, Apply(Netlist(hexList), env, PortEnv(after), limit).env,
                       Sample(sampled, pins, after), cleared || after.reset, i)
  {
    hide Show, Netlist, Apply, PortEnv, Inv, Occurs, EndsWith;
    InvLatches(hexList, env, pins, sampled, cleared, i);
    RegisterRead(hexList, env, pins, sampled, cleared, after, limit, Hold(i), Match(i));
    RegisterRead(hexList, env, pins, sampled, cleared, after, limit, Output(i), Hold(i));
    MatchRead(hexList, env, pins, sampled, cleared, i);
    StagesSignature(hexList, i);
    LatchSample(sampled, Signature(hexList, i), pins.data);
    OccursEmpty(Signature(hexList, i));
  }

  /** One more sampled byte: an occurrence is known one edge earlier to the latch than to the output. */
  lemma LatchSample(sampled: Line, sig: Line, b: Byte)
    requires sig != []
    ensures var u, v := Usable(sampled), Usable(sampled + [b]);
            && (Occurs(sig, v) <==> Occurs(sig, u) || EndsWith(v, sig))
            && (v != [] && Occurs(sig, v[..|v| - 1]) <==> Occurs(sig, u))
  {
    var u, v := Usable(sampled), Usable(sampled + [b]);
    OccursEmpty(sig);
    if sampled != [] {
      assert v == u + [b];
      assert v[..|v| - 1] == u;
      OccursAppend(sig, u, b);
    }
  }

  lemma InvStep(hexList: seq<string>, env: Env, pins: Pins, sampled: Line, cleared: bool, after: Pins, limit: nat)
    requires Inv(hexList, env, pins, sampled, cleared) && limit >= 6
    ensures var out := Apply(Netlist(hexList), env, PortEnv(after), limit);
            out.Stable? && Inv(hexList, out.env, after, Sample(sampled, pins, after), cleared || after.reset)
  {
    hide Show, Netlist, Apply, PortEnv, Quiet, StageIs, LatchesAre, Compiled;
    RegisterStep(hexList, env, pins, after, limit);
    var out := Apply(Netlist(hexList), env, PortEnv(after), limit).env;
    var now, clear := Sample(sampled, pins, after), cleared || after.reset;
    forall i, k | HasStage(hexList, i, k) ensures StageIs(hexList, out, now, clear, i, k)
    {
      StageStep(hexList, env, pins, sampled, cleared, after, limit, i, k);
    }
    forall i | 0 <= i < |hexList| ensures LatchesAre(hexList, out, now, clear, i)
    {
      LatchStep(hexList, env, pins, sampled, cleared, after, limit, i);
    }
  }

  // ----- Power-up -----

  lemma PowerUpStep(hexList: seq<string>, env: Env, pins: Pins, limit: nat)
    requires Admissible(hexList) && env.Keys == Compiled(hexList).Objects() && limit >= 6
    ensures var out := PowerUp(Netlist(hexList), env, PortEnv(pins), limit);
            && out.Stable? && Ready(hexList, out.env, pins) && PoweredUp(hexList, env, pins, out.env)
  {
    hide Show, Netlist, Driver, Compiled, Quiet;
    NetlistOneDriver(hexList);
    NetlistRanked(hexList);
    NetlistDeclared(hexList, env);
    InputsUndriven(hexList);
    PortNamesDiffer();
    SynchronousPowerUp(Netlist(hexList), env, PortEnv(pins), limit, Show(Clk), Show(Reset), RankBy(RankOf), 5);
  }

  ghost predicate PoweredUp(hexList: seq<string>, env: Env, pins: Pins, out: Env) {
    forall s :: s in Netlist(hexList) && s.EdgeTriggered() ==>
      Get(out, s.target) == if pins.reset then Low else Get(env + PortEnv(pins), s.target)
  }

  /** Reset clears a register at power-up, otherwise nothing is known of it. */
  lemma RegisterStart(hexList: seq<string>, pins: Pins, out: Env, n: Name)
    requires HexTexts(hexList) && IsDriven(hexList, n) && (n.Stage? || n.Hold? || n.Output?)
    requires PoweredUp(hexList, Elaborate(Compiled(hexList)), pins, out)
    ensures Get(out, Show(n)) == Floor(pins.reset)
  {
    hide Show, Netlist, Elaborate, PortEnv;
    DriverInNetlist(hexList, n);
    DriverTarget(hexList, n);
    PortsOnly(hexList, Elaborate(Compiled(hexList)), pins, n);
    ElaborateInstance(Compiled(hexList), Driver(hexList, n));
  }

  lemma StageStart(hexList: seq<string>, pins: Pins, out: Env, i: nat, k: nat)
    requires Admissible(hexList) && HasStage(hexList, i, k)
    requires PoweredUp(hexList, Elaborate(Compiled(hexList)), pins, out)
    ensures StageIs(hexList, out, [], pins.reset, i, k)
  {
    hide Show, Netlist, PoweredUp;
    RegisterStart(hexList, pins, out, Stage(i, k));
  }

  lemma LatchesStart(hexList: seq<string>, pins: Pins, out: Env, i: nat)
    requires Admissible(hexList) && i < |hexList|
    requires PoweredUp(hexList, Elaborate(Compiled(hexList)), pins, out)
    ensures LatchesAre(hexList, out, [], pins.reset, i)
  {
    hide Show, Netlist, PoweredUp;
    RegisterStart(hexList, pins, out, Hold(i));
    RegisterStart(hexList, pins, out, Output(i));
    StagesSignature(hexList, i);
  }

  lemma InvStart(hexList: seq<string>, pins: Pins, limit: nat)
    requires Admissible(hexList) && limit >= 6
    ensures var out := PowerUp(Netlist(hexList), Elaborate(Compiled(hexList)), PortEnv(pins), limit);
            out.Stable? && Inv(hexList, out.env, pins, [], pins.reset)
  {
    hide Show, Netlist, Compiled, Ready, PortEnv, StageIs, LatchesAre, PoweredUp, Elaborate, PowerUp;
    var d := Compiled(hexList);
    ElaborateKeys(d);
    PowerUpStep(hexList, Elaborate(d), pins, limit);
    var out := PowerUp(Netlist(hexList), Elaborate(d), PortEnv(pins), limit).env;
    forall i, k | HasStage(hexList, i, k) ensures StageIs(hexList, out, [], pins.reset, i, k) {
      StageStart(hexList, pins, out, i, k);
    }
    forall i | 0 <= i < |hexList| ensures LatchesAre(hexList, out, [], pins.reset, i) {
      LatchesStart(hexList, pins, out, i);
    }
  }

  // ----- Whole runs -----

  /** Every run, with or without a reset, keeps the invariant, and none of its settlings meets the iteration limit. */
  lemma {:induction false} RunInvariant(hexList: seq<string>, trace: seq<Pins>, limit: nat)
    requires Admissible(hexList) && trace != [] && limit >= 6
    ensures var out := Simulate(Compiled(hexList), PortEnvs(trace), limit);
            out.Stable? && Inv(hexList, out.env, trace[|trace| - 1], Sampled(trace), Resets(trace))
  {
    hide Show, Netlist, PortEnv, PowerUp, Apply, Inv, Elaborate;
    var last := |trace| - 1;
    var d, init := Compiled(hexList), trace[..last];
    if last == 0 {
      InvStart(hexList, trace[0], limit);
    } else {
      assert PortEnvs(trace)[..last] == PortEnvs(init);
      RunInvariant(hexList, init, limit);
      InvStep(hexList, Simulate(d, PortEnvs(init), limit).env, trace[last - 1], Sampled(init), Resets(init), trace[last],
              limit);
    }
  }

  // ----- Declared values -----

  /** What a signal of this name is declared with. */
  ghost function InitialOf(n: Name): Value {
    if n.Stage? || n.AndOut? then Low else Undefined
  }

  ghost predicate DeclaresName(d: Decl) {
    exists n: Name :: n.Valid() && d == Decl(Show(n), InitialOf(n))
  }

  lemma StageDeclNames(i: nat, h: string, k: nat)
    requires HexText(h) && k < Stages(h)
    ensures forall d :: d in StageDecl(i, h, k) ==> DeclaresName(d)
  {
    hide Show, Slice;
    SliceText(h, k);
    assert Cmp(i, Slice(h, k), k).Valid() && InitialOf(Cmp(i, Slice(h, k), k)) == Undefined;
    assert Stage(i, k).Valid() && InitialOf(Stage(i, k)) == Low;
    assert AndOut(i, k).Valid() && InitialOf(AndOut(i, k)) == Low;
  }

  lemma {:induction false} StageDeclsNames(i: nat, h: string, stages: nat)
    requires HexText(h) && stages <= Stages(h)
    ensures forall d :: d in StageDecls(i, h, stages) ==> DeclaresName(d)
  {
    hide Show, Slice, StageDecl, DeclaresName;
    if stages > 0 {
      StageDeclsNames(i, h, stages - 1);
      StageDeclNames(i, h, stages - 1);
    }
  }

  lemma {:induction false} ChainDeclsNames(hexList: seq<string>, count: nat)
    requires HexTexts(hexList) && count <= |hexList|
    ensures forall d :: d in ChainDecls(hexList, count) ==> DeclaresName(d)
  {
    hide Show, StageDecls, DeclaresName;
    if count > 0 {
      ChainDeclsNames(hexList, count - 1);
      StageDeclsNames(count - 1, hexList[count - 1], Stages(hexList[count - 1]));
    }
  }

  lemma SignalsNames(hexList: seq<string>, d: Decl)
    requires HexTexts(hexList) && d in Signals(hexList)
    ensures DeclaresName(d)
  {
    hide Show, ChainDecls;
    ChainDeclsNames(hexList, |hexList|);
    if d in MatchDecls(|hexList|) {
      var i :| 0 <= i < |hexList| && d == MatchDecls(|hexList|)[i];
      assert Match(i).Valid();
    } else if d in HoldDecls(|hexList|) {
      var i :| 0 <= i < |hexList| && d == HoldDecls(|hexList|)[i];
      assert Hold(i).Valid();
    } else if d == Decl(Show(Input), Undefined) {
      assert Input.Valid() && InitialOf(Input) == Undefined;
    }
  }

  /** The flip-flops and conjunctions of the stages are declared '0'. Only for the conjunctions this has an effect: the
      flip-flops, like everything else, are undefined before initialization. */
  lemma ElaboratedSignals(hexList: seq<string>, n: Name)
    requires HexTexts(hexList) && IsDriven(hexList, n)
    ensures n.Stage? || n.AndOut? ==> Decl(Show(n), Low) in Compiled(hexList).signals
    ensures Get(Elaborate(Compiled(hexList)), Show(n)) == if n.AndOut? then Low else Undefined
  {
    hide Show, Netlist, Elaborate, Signals, ChainDecls;
    if n.Stage? || n.AndOut? {
      StageDeclaredLow(hexList, n);
    }
    DriverInNetlist(hexList, n);
    DriverTarget(hexList, n);
    if Driver(hexList, n).Instance() {
      ElaborateInstance(Compiled(hexList), Driver(hexList, n));
    } else {
      ElaboratedAssigned(hexList, n);
    }
  }

  lemma ElaboratedAssigned(hexList: seq<string>, n: Name)
    requires HexTexts(hexList) && IsDriven(hexList, n) && !Driver(hexList, n).Instance()
    ensures Get(Elaborate(Compiled(hexList)), Show(n)) == if n.AndOut? then Low else Undefined
  {
    hide Show, Netlist, Elaborate, Signals, ChainDecls;
    var d := Compiled(hexList);
    DrivenValid(hexList, n);
    forall s | s in d.signals && s.name == Show(n) ensures s.initial == InitialOf(n) {
      SignalsNames(hexList, s);
      var m: Name :| m.Valid() && s == Decl(Show(m), InitialOf(m));
      ShowEqual(m, n);
    }
    if n.AndOut? {
      StageDeclaredLow(hexList, n);
    }
    DriverInNetlist(hexList, n);
    DriverTarget(hexList, n);
    NetlistOneDriver(hexList);
    ElaborateAt(d, Show(n), InitialOf(n));
  }

  lemma StageDeclaredLow(hexList: seq<string>, n: Name)
    requires IsDriven(hexList, n) && (n.Stage? || n.AndOut?)
    ensures Decl(Show(n), Low) in Signals(hexList)
  {
    hide Show, Slice, ChainDecls;
    ChainDeclared(hexList, |hexList|, n.i, n.k);
    assert StageDecl(n.i, hexList[n.i], n.k)[if n.Stage? then 1 else 2] == Decl(Show(n), Low);
  }
}
