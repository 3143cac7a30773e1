/** The simulation cycle of IEEE Std 1076-2008, section 14.7.5, for the subset of VHDL the two
    generators emit: signal assignments and instances of the leaf cells, each a process with a
    sensitivity list that assigns one signal with a delta delay.

    Signals are looked up by name in an environment; nothing here knows about signatures. */
module Vhdl {
  import opened Bytes

  /** The values of `std_logic` that occur ('U', '0', '1') and of `std_logic_vector(7 downto 0)`. */
  datatype Value = Undefined | Low | High | Vector(byte: Byte)

  type Env = map<string, Value>

  /** A port map actual: the literal '1' or a signal. */
  datatype Operand = One | Signal(name: string)

  datatype Stmt =
    | Assign(target: string, source: string)
    | And(instance: string, target: string, left: string, right: string)
    | NonZero(target: string, source: string)
    | Gate(target: string, reset: string, source: string)
    | ByteCompare(instance: string, data: string, sig: string, target: string)
    | LatchedCompare(instance: string, reset: string, enable: string, data: string, sig: string, target: string)
    | FlipFlop(instance: string, clk: string, reset: string, input: Operand, target: string)
    | PullUp(instance: string, clk: string, reset: string, match_: string, target: string)
    | LevelPullUp(instance: string, enable: string, reset: string, match_: string, target: string)
  {
    /** The sensitivity list of the process. */
    function Sensitivity(): set<string> {
      match this
      case Assign(_, source) => {source}
      case And(_, _, left, right) => {left, right}
      case NonZero(_, source) => {source}
      case Gate(_, reset, source) => {reset, source}
      case ByteCompare(_, data, _, _) => {data}
      case LatchedCompare(_, reset, _, data, _, _) => {reset, data}
      case FlipFlop(_, clk, reset, _, _) => {clk, reset}
      case PullUp(_, clk, reset, m, _) => {clk, reset, m}
      case LevelPullUp(_, enable, reset, m, _) => {enable, reset, m}
    }

    /** Every signal the process reads. */
    function Reads(): set<string> {
      Sensitivity() +
      (if LatchedCompare? then {enable}
       else if FlipFlop? && input.Signal? then {input.name}
       else {})
    }

    /** Assignments are unlabelled, except the conjunctions. */
    predicate Labelled() {
      !Assign? && !NonZero? && !Gate?
    }

    /** An instance of a cell; the others are concurrent assignments of the design itself. */
    predicate Instance() {
      ByteCompare? || LatchedCompare? || EdgeTriggered() || LevelPullUp?
    }

    /** A process that assigns its target on every run and reads only its sensitivity list. */
    predicate Combinational() {
      Assign? || And? || NonZero? || Gate? || ByteCompare?
    }

    /** A process that changes its target only on a clock edge or on reset. */
    predicate EdgeTriggered() {
      FlipFlop? || PullUp?
    }
  }

  function Bit(b: bool): Value {
    if b then High else Low
  }

  function Get(env: Env, x: string): Value {
    if x in env then env[x] else Undefined
  }

  function AndLogic(a: Value, b: Value): Value {
    if a == Low || b == Low then Low
    else if a == High && b == High then High
    else Undefined
  }

  predicate HexDigit(c: char) {
    '0' <= c <= '9' || 'a' <= c <= 'f'
  }

  function DigitValue(c: char): int
    requires HexDigit(c)
  {
    if c <= '9' then c as int - '0' as int else c as int - 'a' as int + 10
  }

  /** The vector a bit string literal x"hh" stands for; any other length is not a byte. */
  function Literal(sig: string): Value {
    if |sig| == 2 && HexDigit(sig[0]) && HexDigit(sig[1])
    then Vector(DigitValue(sig[0]) * 16 + DigitValue(sig[1]))
    else Undefined
  }

  function Equal(data: Value, sig: string): Value {
    Bit(data.Vector? && data == Literal(sig))
  }

  predicate Event(prev: Env, cur: Env, x: string) {
    Get(prev, x) != Get(cur, x)
  }

  predicate RisingEdge(prev: Env, cur: Env, clk: string) {
    Get(prev, clk) == Low && Get(cur, clk) == High
  }

  /** What one run of the process leaves in its target: the assigned value, or the old one. */
  function Body(s: Stmt, prev: Env, cur: Env): Value {
    match s
    case Assign(_, source) => Get(cur, source)
    case And(_, _, left, right) => AndLogic(Get(cur, left), Get(cur, right))
    case NonZero(_, source) => Bit(Get(cur, source) != Vector(0))
    case Gate(_, reset, source) => if Get(cur, reset) == Low then Get(cur, source) else Low
    case ByteCompare(_, data, sig, _) => Equal(Get(cur, data), sig)
    case LatchedCompare(_, reset, enable, data, sig, target) =>
      if Get(cur, reset) == High then Low
      else if Get(cur, enable) == High then Equal(Get(cur, data), sig)
      else Get(cur, target)
    case FlipFlop(_, clk, reset, input, target) =>
      if Get(cur, reset) == High then Low
      else if RisingEdge(prev, cur, clk) then (if input.One? then High else Get(cur, input.name))
      else Get(cur, target)
    case PullUp(_, clk, reset, m, target) =>
      if Get(cur, reset) == High then Low
      else if RisingEdge(prev, cur, clk) && Get(cur, m) == High then High
      else Get(cur, target)
    case LevelPullUp(_, enable, reset, m, target) =>
      if Get(cur, reset) == High then Low
      else if Get(cur, enable) == High && Get(cur, m) == High then High
      else Get(cur, target)
  }

  /** The process runs when a signal of its sensitivity list had an event in this delta cycle. */
  predicate Fires(s: Stmt, prev: Env, cur: Env) {
    exists x :: x in s.Sensitivity() && Event(prev, cur, x)
  }

  function Exec(s: Stmt, prev: Env, cur: Env): Value {
    if Fires(s, prev, cur) then Body(s, prev, cur) else Get(cur, s.target)
  }

  /** The value of `x` after a delta cycle; `initial` is the initialization phase, where every process runs. */
  function NextValue(net: seq<Stmt>, prev: Env, cur: Env, x: string, initial: bool): Value {
    if net == [] then Get(cur, x)
    else if net[0].target == x then (if initial then Body(net[0], prev, cur) else Exec(net[0], prev, cur))
    else NextValue(net[1..], prev, cur, x, initial)
  }

  function Delta(net: seq<Stmt>, prev: Env, cur: Env): Env {
    map x | x in cur :: NextValue(net, prev, cur, x, false)
  }

  function Initialize(net: seq<Stmt>, env: Env): Env {
    map x | x in env :: NextValue(net, env, env, x, true)
  }

  datatype Outcome = Stable(env: Env) | IterationLimit

  /** Delta cycles until no signal has an event, at most `limit` of them. */
  function Settle(net: seq<Stmt>, prev: Env, cur: Env, limit: nat): Outcome
    decreases limit
  {
    if prev == cur then Stable(cur)
    else if limit == 0 then IterationLimit
    else Settle(net, cur, Delta(net, prev, cur), limit - 1)
  }

  /** New values on input ports, and the delta cycles they cause. */
  function Apply(net: seq<Stmt>, env: Env, ports: Env, limit: nat): Outcome {
    Settle(net, env, env + ports, limit)
  }

  /** Initialization with the given values on the input ports. */
  function PowerUp(net: seq<Stmt>, env: Env, ports: Env, limit: nat): Outcome {
    Settle(net, env + ports, Initialize(net, env + ports), limit)
  }

  // ----- Elaborated designs -----

  datatype Decl = Decl(name: string, initial: Value)

  /** An entity with its architecture: input and output ports, declared signals, concurrent statements. */
  datatype Design = Design(inputs: seq<string>, outputs: seq<string>, signals: seq<Decl>, stmts: seq<Stmt>) {
    function Objects(): set<string> {
      (set x | x in inputs) + (set x | x in outputs) + (set d | d in signals :: d.name)
    }
  }

  function SignalEnv(signals: seq<Decl>): Env {
    if signals == [] then map[]
    else SignalEnv(signals[..|signals| - 1])[signals[|signals| - 1].name := signals[|signals| - 1].initial]
  }

  /** The objects of a design with their values before initialization (sections 14.7.3.2 and 14.7.5.2): a signal whose
      source is the output port of an instance has the value of that port, for which no cell gives a default, whatever
      the signal itself is declared with. */
  function Elaborate(d: Design): Env {
    map x | x in d.Objects() ::
      if exists s :: s in d.stmts && s.Instance() && s.target == x then Undefined else Get(SignalEnv(d.signals), x)
  }

  /** Power-up with the first values on the ports, then one settling per further port change. */
  function Simulate(d: Design, ports: seq<Env>, limit: nat): Outcome
    requires ports != []
  {
    var last := |ports| - 1;
    if last == 0 then PowerUp(d.stmts, Elaborate(d), ports[0], limit)
    else match Simulate(d, ports[..last], limit)
      case Stable(env) => Apply(d.stmts, env, ports[last], limit)
      case IterationLimit => IterationLimit
  }

  lemma {:induction false} SignalEnvKeys(signals: seq<Decl>)
    ensures SignalEnv(signals).Keys == set d | d in signals :: d.name
  {
    if signals != [] {
      var last := |signals| - 1;
      SignalEnvKeys(signals[..last]);
      assert signals == signals[..last] + [signals[last]];
    }
  }

  lemma {:induction false} SignalEnvAt(signals: seq<Decl>, x: string, v: Value)
    requires forall d :: d in signals && d.name == x ==> d.initial == v
    ensures x in SignalEnv(signals) ==> SignalEnv(signals)[x] == v
  {
    if signals != [] {
      var last := |signals| - 1;
      assert signals[last] in signals;
      forall d | d in signals[..last] ensures d in signals {}
      SignalEnvAt(signals[..last], x, v);
    }
  }

  /** Before initialization a signal that no instance drives holds the value it is declared with. */
  lemma ElaborateAt(d: Design, x: string, v: Value)
    requires forall s :: s in d.signals && s.name == x ==> s.initial == v
    requires v == Undefined || exists s :: s in d.signals && s.name == x
    requires forall s :: s in d.stmts && s.target == x ==> !s.Instance()
    ensures Get(Elaborate(d), x) == v
  {
    SignalEnvAt(d.signals, x, v);
    SignalEnvKeys(d.signals);
    if v != Undefined {
      var s :| s in d.signals && s.name == x;
      assert x in SignalEnv(d.signals).Keys;
    }
  }

  /** What an instance drives is undefined then. */
  lemma ElaborateInstance(d: Design, s: Stmt)
    requires s in d.stmts && s.Instance()
    ensures Get(Elaborate(d), s.target) == Undefined
  {}

  lemma ElaborateKeys(d: Design)
    ensures Elaborate(d).Keys == d.Objects()
  {}

  function Labels(net: seq<Stmt>): seq<string> {
    if net == [] then []
    else Labels(net[..|net| - 1]) + (if net[|net| - 1].Labelled() then [net[|net| - 1].instance] else [])
  }

  function Targets(net: seq<Stmt>): seq<string> {
    seq(|net|, j requires 0 <= j < |net| => net[j].target)
  }

  lemma {:induction false} LabelsConcat(a: seq<Stmt>, b: seq<Stmt>)
    ensures Labels(a + b) == Labels(a) + Labels(b)
  {
    if b == [] {
      assert a + b == a;
    } else {
      LabelsConcat(a, b[..|b| - 1]);
      assert (a + b)[..|a + b| - 1] == a + b[..|b| - 1];
    }
  }

  lemma TargetsConcat(a: seq<Stmt>, b: seq<Stmt>)
    ensures Targets(a + b) == Targets(a) + Targets(b)
  {}

  function DeclNames(signals: seq<Decl>): seq<string> {
    seq(|signals|, j requires 0 <= j < |signals| => signals[j].name)
  }

  lemma DeclNamesConcat(a: seq<Decl>, b: seq<Decl>)
    ensures DeclNames(a + b) == DeclNames(a) + DeclNames(b)
  {}

  // ----- Netlists with one driver per signal -----

  ghost predicate DistinctTargets(net: seq<Stmt>) {
    forall a, b :: 0 <= a < b < |net| ==> net[a].target != net[b].target
  }

  ghost predicate OneDriver(net: seq<Stmt>) {
    forall s, t :: s in net && t in net && s.target == t.target ==> s == t
  }

  /** Every driven signal is declared, so that the environment holds it. */
  ghost predicate Declared(net: seq<Stmt>, env: Env) {
    forall s :: s in net ==> s.target in env
  }

  ghost predicate Driven(net: seq<Stmt>, x: string) {
    exists s :: s in net && s.target == x
  }

  lemma {:induction false} NextValueDriven(net: seq<Stmt>, prev: Env, cur: Env, s: Stmt, initial: bool)
    requires OneDriver(net) && s in net
    ensures NextValue(net, prev, cur, s.target, initial) ==
            if initial then Body(s, prev, cur) else Exec(s, prev, cur)
  {
    if net[0].target == s.target {
      assert net[0] in net;
    } else {
      forall t | t in net[1..] ensures t in net {}
      NextValueDriven(net[1..], prev, cur, s, initial);
    }
  }

  lemma {:induction false} NextValueFree(net: seq<Stmt>, prev: Env, cur: Env, x: string, initial: bool)
    requires !Driven(net, x)
    ensures NextValue(net, prev, cur, x, initial) == Get(cur, x)
  {
    if net != [] {
      assert net[0] in net;
      assert !Driven(net[1..], x) by {
        forall t | t in net[1..] ensures t in net {}
      }
      NextValueFree(net[1..], prev, cur, x, initial);
    }
  }

  lemma DeltaDriven(net: seq<Stmt>, prev: Env, cur: Env, s: Stmt)
    requires OneDriver(net) && s in net && Declared(net, cur)
    ensures Get(Delta(net, prev, cur), s.target) == Exec(s, prev, cur)
  {
    NextValueDriven(net, prev, cur, s, false);
  }

  lemma DeltaFree(net: seq<Stmt>, prev: Env, cur: Env, x: string)
    requires !Driven(net, x)
    ensures Get(Delta(net, prev, cur), x) == Get(cur, x)
  {
    NextValueFree(net, prev, cur, x, false);
  }

  /** Without an event no process runs, so a delta cycle may always be unfolded. */
  lemma SettleUnfold(net: seq<Stmt>, prev: Env, cur: Env, limit: nat)
    requires OneDriver(net) && Declared(net, cur) && limit > 0
    ensures Settle(net, prev, cur, limit) == Settle(net, cur, Delta(net, prev, cur), limit - 1)
  {
    if prev == cur {
      forall x | x in cur ensures Get(Delta(net, prev, cur), x) == cur[x] {
        if Driven(net, x) {
          var s :| s in net && s.target == x;
          DeltaDriven(net, prev, cur, s);
        } else {
          DeltaFree(net, prev, cur, x);
        }
      }
      assert Delta(net, prev, cur) == cur;
    }
  }

  // ----- The order of concurrent statements is irrelevant -----

  ghost predicate SameStatements(net: seq<Stmt>, other: seq<Stmt>) {
    multiset(net) == multiset(other)
  }

  lemma SameNextValue(net: seq<Stmt>, other: seq<Stmt>, prev: Env, cur: Env, x: string, initial: bool)
    requires OneDriver(net) && SameStatements(net, other)
    ensures NextValue(net, prev, cur, x, initial) == NextValue(other, prev, cur, x, initial)
  {
    SameMembers(net, other);
    if Driven(net, x) {
      var s :| s in net && s.target == x;
      NextValueDriven(net, prev, cur, s, initial);
      NextValueDriven(other, prev, cur, s, initial);
    } else {
      NextValueFree(net, prev, cur, x, initial);
      NextValueFree(other, prev, cur, x, initial);
    }
  }

  lemma SameMembers(net: seq<Stmt>, other: seq<Stmt>)
    requires SameStatements(net, other)
    ensures forall s :: s in net <==> s in other
  {
    forall s ensures s in net <==> s in other {
      assert s in net <==> s in multiset(net);
      assert s in other <==> s in multiset(other);
    }
  }

  lemma {:induction false} SettleOrder(net: seq<Stmt>, other: seq<Stmt>, prev: Env, cur: Env, limit: nat)
    requires OneDriver(net) && SameStatements(net, other)
    ensures Settle(net, prev, cur, limit) == Settle(other, prev, cur, limit)
    decreases limit
  {
    if prev != cur && limit > 0 {
      forall x | x in cur
        ensures NextValue(net, prev, cur, x, false) == NextValue(other, prev, cur, x, false)
      {
        SameNextValue(net, other, prev, cur, x, false);
      }
      assert Delta(net, prev, cur) == Delta(other, prev, cur);
      SettleOrder(net, other, cur, Delta(net, prev, cur), limit - 1);
    }
  }

  /** Permuting the concurrent statements changes neither initialization nor any response to the ports. */
  lemma OrderIndependence(net: seq<Stmt>, other: seq<Stmt>, env: Env, ports: Env, limit: nat)
    requires OneDriver(net) && SameStatements(net, other)
    ensures Apply(net, env, ports, limit) == Apply(other, env, ports, limit)
    ensures PowerUp(net, env, ports, limit) == PowerUp(other, env, ports, limit)
  {
    SettleOrder(net, other, env, env + ports, limit);
    var start := env + ports;
    forall x | x in start
      ensures NextValue(net, start, start, x, true) == NextValue(other, start, start, x, true)
    {
      SameNextValue(net, other, start, start, x, true);
    }
    assert Initialize(net, start) == Initialize(other, start);
    SettleOrder(net, other, start, Initialize(net, start), limit);
  }

  /** Nor does it change any simulation. */
  lemma {:induction false} SimulationOrder(d: Design, other: seq<Stmt>, ports: seq<Env>, limit: nat)
    requires OneDriver(d.stmts) && SameStatements(d.stmts, other) && ports != []
    ensures Simulate(d, ports, limit) == Simulate(d.(stmts := other), ports, limit)
  {
    hide Apply, PowerUp, Elaborate, OneDriver, SameStatements;
    var last := |ports| - 1;
    SameElaboration(d, other);
    if last == 0 {
      OrderIndependence(d.stmts, other, Elaborate(d), ports[0], limit);
    } else {
      SimulationOrder(d, other, ports[..last], limit);
      var out := Simulate(d, ports[..last], limit);
      if out.Stable? {
        OrderIndependence(d.stmts, other, out.env, ports[last], limit);
      }
    }
  }

  lemma SameElaboration(d: Design, other: seq<Stmt>)
    requires SameStatements(d.stmts, other)
    ensures Elaborate(d.(stmts := other)) == Elaborate(d)
  {
    SameMembers(d.stmts, other);
  }

  // ----- Event rank: settling terminates -----

  /** `rank` strictly grows from the signals that wake a process to the signal it drives. */
  ghost predicate Ranked(net: seq<Stmt>, rank: string -> nat, top: nat) {
    forall s :: s in net ==> RankedStmt(s, rank, top)
  }

  ghost predicate RankedStmt(s: Stmt, rank: string -> nat, top: nat) {
    rank(s.target) <= top && forall x :: x in s.Sensitivity() ==> rank(x) < rank(s.target)
  }

  /** `rank` strictly grows from every signal that a process reads to the signal it drives. */
  ghost predicate ReadsRanked(net: seq<Stmt>, rank: string -> nat) {
    forall s, x :: s in net && x in s.Reads() ==> rank(x) < rank(s.target)
  }

  /** Only driven signals of rank `low` or more have an event. */
  ghost predicate EventsFrom(net: seq<Stmt>, prev: Env, cur: Env, rank: string -> nat, low: nat) {
    forall x :: Event(prev, cur, x) ==> Driven(net, x) && rank(x) >= low
  }

  lemma DeltaRaisesEvents(net: seq<Stmt>, prev: Env, cur: Env, rank: string -> nat, top: nat, low: nat)
    requires OneDriver(net) && Declared(net, cur) && Ranked(net, rank, top)
    requires forall x :: Event(prev, cur, x) ==> rank(x) >= low
    ensures EventsFrom(net, cur, Delta(net, prev, cur), rank, low + 1)
  {
    var next := Delta(net, prev, cur);
    forall x | Event(cur, next, x) ensures Driven(net, x) && rank(x) >= low + 1 {
      if !Driven(net, x) {
        DeltaFree(net, prev, cur, x);
      } else {
        var s :| s in net && s.target == x;
        DeltaDriven(net, prev, cur, s);
        assert RankedStmt(s, rank, top);
      }
    }
  }

  lemma NoEventsSame(net: seq<Stmt>, prev: Env, cur: Env, rank: string -> nat, top: nat)
    requires Ranked(net, rank, top) && prev.Keys == cur.Keys
    requires EventsFrom(net, prev, cur, rank, top + 1)
    ensures prev == cur
  {
    forall x | x in prev ensures prev[x] == cur[x] {
      assert forall s :: s in net ==> RankedStmt(s, rank, top);
      assert !Event(prev, cur, x);
    }
  }

  // ----- Gates: once no process runs any more, each agrees with what it reads -----

  /** Between two delta cycles: combinational targets lag one environment behind. */
  ghost predicate GatesLag(net: seq<Stmt>, prev: Env, cur: Env) {
    forall s :: s in net && s.Combinational() ==> Get(cur, s.target) == Body(s, prev, prev)
  }

  lemma BodyReadsSensitivity(s: Stmt, prev: Env, cur: Env)
    requires s.Combinational() && !Fires(s, prev, cur)
    ensures Body(s, prev, prev) == Body(s, cur, cur)
  {
    forall x | x in s.Sensitivity() ensures Get(prev, x) == Get(cur, x) {
      assert !Event(prev, cur, x);
    }
  }

  lemma DeltaKeepsLag(net: seq<Stmt>, prev: Env, cur: Env)
    requires OneDriver(net) && Declared(net, cur) && GatesLag(net, prev, cur)
    ensures GatesLag(net, cur, Delta(net, prev, cur))
  {
    forall s | s in net && s.Combinational() ensures Get(Delta(net, prev, cur), s.target) == Body(s, cur, cur) {
      DeltaDriven(net, prev, cur, s);
      if !Fires(s, prev, cur) {
        BodyReadsSensitivity(s, prev, cur);
      }
    }
  }

  /** Settling ends with every gate agreeing with its inputs; signals that rank at most `low` are final already. */
  lemma {:induction false} SettleGates(net: seq<Stmt>, prev: Env, cur: Env, limit: nat,
                                       rank: string -> nat, top: nat, low: nat)
    requires OneDriver(net) && Declared(net, cur) && Ranked(net, rank, top) && GatesLag(net, prev, cur)
    requires EventsFrom(net, prev, cur, rank, low) && prev.Keys == cur.Keys
    requires low <= top + 1 && limit >= top + 1 - low
    ensures var out := Settle(net, prev, cur, limit);
            && out.Stable? && out.env.Keys == cur.Keys && GatesLag(net, out.env, out.env)
            && forall x :: rank(x) <= low ==> Get(out.env, x) == Get(cur, x)
    decreases limit
  {
    if prev == cur {
    } else if low == top + 1 {
      NoEventsSame(net, prev, cur, rank, top);
    } else {
      var next := Delta(net, prev, cur);
      DeltaKeepsLag(net, prev, cur);
      DeltaRaisesEvents(net, prev, cur, rank, top, low);
      assert forall x :: rank(x) <= low ==> !Event(cur, next, x);
      SettleGates(net, cur, next, limit - 1, rank, top, low + 1);
    }
  }

  // ----- Synchronous netlists: the delta cycles compute one clocked step -----

  ghost predicate Synchronous(net: seq<Stmt>, clk: string, reset: string) {
    forall s :: s in net ==> SynchronousStmt(s, clk, reset)
  }

  ghost predicate SynchronousStmt(s: Stmt, clk: string, reset: string) {
    s.Combinational() || (s.EdgeTriggered() && s.clk == clk && s.reset == reset)
  }

  /** Every combinational signal agrees with what drives it, every register is cleared during reset. */
  ghost predicate Quiet(net: seq<Stmt>, env: Env) {
    Lagging(net, env, env)
  }

  ghost predicate Lagging(net: seq<Stmt>, prev: Env, cur: Env) {
    && GatesLag(net, prev, cur)
    && forall s :: s in net && s.EdgeTriggered() && Get(cur, s.reset) == High ==> Get(cur, s.target) == Low
  }

  /** One delta cycle without a clock or reset event keeps the lag and every register. */
  lemma DeltaKeepsRegisters(net: seq<Stmt>, prev: Env, cur: Env, clk: string, reset: string)
    requires OneDriver(net) && Declared(net, cur) && Synchronous(net, clk, reset)
    requires Lagging(net, prev, cur) && !Event(prev, cur, clk) && !Event(prev, cur, reset)
    requires !Driven(net, reset)
    ensures Lagging(net, cur, Delta(net, prev, cur))
    ensures forall s :: s in net && s.EdgeTriggered() ==> Get(Delta(net, prev, cur), s.target) == Get(cur, s.target)
  {
    var next := Delta(net, prev, cur);
    DeltaFree(net, prev, cur, reset);
    DeltaKeepsLag(net, prev, cur);
    forall s | s in net && s.EdgeTriggered() ensures Get(next, s.target) == Get(cur, s.target) {
      assert SynchronousStmt(s, clk, reset);
      DeltaDriven(net, prev, cur, s);
    }
  }

  lemma {:induction false} SettleKeepsRegisters(net: seq<Stmt>, prev: Env, cur: Env, limit: nat,
                                                clk: string, reset: string,
                                                rank: string -> nat, top: nat, low: nat)
    requires OneDriver(net) && Declared(net, cur) && Synchronous(net, clk, reset) && Ranked(net, rank, top)
    requires Lagging(net, prev, cur) && !Driven(net, clk) && !Driven(net, reset)
    requires EventsFrom(net, prev, cur, rank, low) && prev.Keys == cur.Keys
    requires low <= top + 1 && limit >= top + 1 - low
    ensures var out := Settle(net, prev, cur, limit);
            && out.Stable? && out.env.Keys == cur.Keys && Quiet(net, out.env)
            && (forall s :: s in net && s.EdgeTriggered() ==> Get(out.env, s.target) == Get(cur, s.target))
            && (forall x :: !Driven(net, x) ==> Get(out.env, x) == Get(cur, x))
    decreases limit
  {
    if prev == cur {
    } else if low == top + 1 {
      NoEventsSame(net, prev, cur, rank, top);
    } else {
      var next := Delta(net, prev, cur);
      DeltaKeepsRegisters(net, prev, cur, clk, reset);
      DeltaRaisesEvents(net, prev, cur, rank, top, low);
      forall x | !Driven(net, x) ensures Get(next, x) == Get(cur, x) {
        DeltaFree(net, prev, cur, x);
      }
      SettleKeepsRegisters(net, cur, next, limit - 1, clk, reset, rank, top, low + 1);
    }
  }

  /** The synchronous step: after new values on undriven ports a quiet netlist becomes quiet again within
      `top + 1` delta cycles, and each register holds what one run of its cell computes from the old signals. */
  lemma SynchronousStep(net: seq<Stmt>, env: Env, ports: Env, limit: nat,
                        clk: string, reset: string, rank: string -> nat, top: nat)
    requires OneDriver(net) && Declared(net, env) && Synchronous(net, clk, reset) && Ranked(net, rank, top)
    requires Quiet(net, env) && clk in env && reset in env && !Driven(net, clk) && !Driven(net, reset)
    requires ports.Keys <= env.Keys && forall x :: x in ports ==> !Driven(net, x)
    requires limit >= top + 1
    ensures var out := Apply(net, env, ports, limit);
            && out.Stable? && out.env.Keys == env.Keys && Quiet(net, out.env)
            && (forall s :: s in net && s.EdgeTriggered() ==> Get(out.env, s.target) == Body(s, env, env + ports))
            && (forall x :: !Driven(net, x) ==> Get(out.env, x) == Get(env + ports, x))
  {
    var cur := env + ports;
    assert cur.Keys == env.Keys;
    forall s | s in net ensures Get(cur, s.target) == Get(env, s.target) {
      assert Driven(net, s.target);
    }
    if env == cur {
      assert cur == env;
      forall s | s in net && s.EdgeTriggered() ensures Get(cur, s.target) == Body(s, env, cur) {
        assert SynchronousStmt(s, clk, reset);
      }
    } else {
      var next := Delta(net, env, cur);
      FirstDelta(net, env, cur, clk, reset);
      DeltaRaisesEvents(net, env, cur, rank, top, 0);
      forall x | !Driven(net, x) ensures Get(next, x) == Get(cur, x) {
        DeltaFree(net, env, cur, x);
      }
      SettleKeepsRegisters(net, cur, next, limit - 1, clk, reset, rank, top, 1);
    }
  }

  /** The first delta cycle runs every register on the edge, with the signals of before the edge. */
  lemma FirstDelta(net: seq<Stmt>, env: Env, cur: Env, clk: string, reset: string)
    requires OneDriver(net) && Declared(net, cur) && Synchronous(net, clk, reset) && Quiet(net, env)
    requires !Driven(net, clk) && !Driven(net, reset)
    requires forall s :: s in net ==> Get(cur, s.target) == Get(env, s.target)
    ensures Lagging(net, cur, Delta(net, env, cur))
    ensures forall s :: s in net && s.EdgeTriggered() ==> Get(Delta(net, env, cur), s.target) == Body(s, env, cur)
  {
    var next := Delta(net, env, cur);
    DeltaFree(net, env, cur, reset);
    forall s | s in net && s.Combinational() ensures Get(cur, s.target) == Body(s, env, env) {}
    DeltaKeepsLag(net, env, cur);
    forall s | s in net && s.EdgeTriggered() ensures Get(next, s.target) == Body(s, env, cur) {
      assert SynchronousStmt(s, clk, reset);
      DeltaDriven(net, env, cur, s);
      if !Fires(s, env, cur) {
        assert !Event(env, cur, clk) && !Event(env, cur, reset);
      }
    }
  }

  /** Initialization brings any environment to a quiet one; reset clears every register, otherwise each keeps the value
      it had. */
  lemma SynchronousPowerUp(net: seq<Stmt>, env: Env, ports: Env, limit: nat,
                           clk: string, reset: string, rank: string -> nat, top: nat)
    requires OneDriver(net) && Declared(net, env) && Synchronous(net, clk, reset) && Ranked(net, rank, top)
    requires !Driven(net, clk) && !Driven(net, reset)
    requires ports.Keys <= env.Keys && (forall x :: x in ports ==> !Driven(net, x)) && reset in ports
    requires limit >= top + 1
    ensures var out := PowerUp(net, env, ports, limit);
            && out.Stable? && out.env.Keys == env.Keys && Quiet(net, out.env)
            && (forall s :: s in net && s.EdgeTriggered() ==>
                  Get(out.env, s.target) == if ports[reset] == High then Low else Get(env + ports, s.target))
            && (forall x :: !Driven(net, x) ==> Get(out.env, x) == Get(env + ports, x))
  {
    var start := env + ports;
    var next := Initialize(net, start);
    assert start.Keys == env.Keys;
    forall s | s in net ensures Get(next, s.target) == Body(s, start, start) {
      NextValueDriven(net, start, start, s, true);
    }
    forall x | !Driven(net, x) ensures Get(next, x) == Get(start, x) {
      NextValueFree(net, start, start, x, true);
    }
    forall s | s in net && s.EdgeTriggered()
      ensures Get(next, s.target) == if ports[reset] == High then Low else Get(start, s.target)
    {
      assert SynchronousStmt(s, clk, reset);
    }
    SettleKeepsRegisters(net, start, next, limit, clk, reset, rank, top, 0);
  }
}
