/** `timer_callback` of `platform_zynq.c` and `platform.c`: nested dividers advanced once per interrupt, against the
    calendar of what is due at the n-th interrupt. */
module Timers {

  /** LWIP_DHCP, and an Ethernet controller whose receive path is reset in software: that of the Zynq without
      USE_SOFTETH_ON_ZYNQ. The callback of `platform.c` is the one without. */
  datatype Config = Config(dhcp: bool, resetRx: bool)

  datatype Action = DhcpFine | DhcpCoarse | ResetRx

  const RESET_RX_CNTR_LIMIT := 400

  /** The static and global variables, and the functions called so far. */
  datatype State = State(odd: bool, tcpFastTmrFlag: bool, tcpSlowTmrFlag: bool, dhcpTimer: int,
                         dhcpTimeoutCntr: int, resetRxCntr: int, calls: seq<Action>)

  function Initial(): State {
    State(true, false, false, 0, 24, 0, [])
  }

  function SlowTick(c: Config, s: State): State {
    var slow := s.(tcpSlowTmrFlag := true);
    if !c.dhcp then slow
    else
      var due := s.dhcpTimer + 1 >= 120;
      slow.(dhcpTimer := if due then 0 else s.dhcpTimer + 1, dhcpTimeoutCntr := s.dhcpTimeoutCntr - 1,
            calls := s.calls + [DhcpFine] + if due then [DhcpCoarse] else [])
  }

  function RxTick(c: Config, s: State): State {
    if !c.resetRx then s
    else if s.resetRxCntr + 1 >= RESET_RX_CNTR_LIMIT then s.(resetRxCntr := 0, calls := s.calls + [ResetRx])
    else s.(resetRxCntr := s.resetRxCntr + 1)
  }

  function Ticked(c: Config, s: State): State {
    var flipped := s.(odd := !s.odd, tcpFastTmrFlag := true);
    RxTick(c, if flipped.odd then SlowTick(c, flipped) else flipped)
  }

  function Awaited(s: State): State {
    s.(dhcpTimeoutCntr := 24)
  }

  class Platform {
    const config: Config
    var odd: bool
    var tcpFastTmrFlag: bool
    var tcpSlowTmrFlag: bool
    var dhcpTimer: int
    var dhcpTimeoutCntr: int
    var resetRxCntr: int
    var calls: seq<Action>

    constructor (config: Config)
      ensures this.config == config && Now() == Initial()
    {
      this.config := config;
      odd, tcpFastTmrFlag, tcpSlowTmrFlag := true, false, false;
      dhcpTimer, dhcpTimeoutCntr, resetRxCntr, calls := 0, 24, 0, [];
    }

    function Now(): State
      reads this
    {
      State(odd, tcpFastTmrFlag, tcpSlowTmrFlag, dhcpTimer, dhcpTimeoutCntr, resetRxCntr, calls)
    }

    method TimerCallback()
      modifies this
      ensures Now() == Ticked(config, old(Now()))
    {
      tcpFastTmrFlag := true;
      odd := !odd;
      if config.resetRx {
        resetRxCntr := resetRxCntr + 1;
      }
      if odd {
        if config.dhcp {
          dhcpTimer := dhcpTimer + 1;
          dhcpTimeoutCntr := dhcpTimeoutCntr - 1;
        }
        tcpSlowTmrFlag := true;
        if config.dhcp {
          calls := calls + [DhcpFine];
          if dhcpTimer >= 120 {
            calls := calls + [DhcpCoarse];
            dhcpTimer := 0;
          }
        }
      }
      if config.resetRx && resetRxCntr >= RESET_RX_CNTR_LIMIT {
        calls := calls + [ResetRx];
        resetRxCntr := 0;
      }
    }

    /** `main` before it waits for an address. */
    method AwaitDhcp()
      modifies `dhcpTimeoutCntr
      ensures Now() == Awaited(old(Now()))
    {
      dhcpTimeoutCntr := 24;
    }
  }

  // ----- Whole runs -----

  /** A timer interrupt, or `main` starting to wait for an address. */
  datatype Step = Tick | Await

  function After(c: Config, steps: seq<Step>): State {
    if steps == [] then Initial()
    else
      var s := After(c, steps[..|steps| - 1]);
      if steps[|steps| - 1].Tick? then Ticked(c, s) else Awaited(s)
  }

  function Ticks(steps: seq<Step>): nat {
    if steps == [] then 0 else Ticks(steps[..|steps| - 1]) + (if steps[|steps| - 1].Tick? then 1 else 0)
  }

  /** The number of interrupts before the last start of waiting. */
  function TicksBefore(steps: seq<Step>): (n: nat)
    ensures n <= Ticks(steps)
  {
    if steps == [] then 0
    else if steps[|steps| - 1].Await? then Ticks(steps)
    else TicksBefore(steps[..|steps| - 1])
  }

  /** What the `n`-th interrupt calls. */
  function Due(c: Config, n: nat): seq<Action> {
    (if c.dhcp && n % 2 == 0 then [DhcpFine] else [])
    + (if c.dhcp && n % 240 == 0 then [DhcpCoarse] else [])
    + (if c.resetRx && n % 400 == 0 then [ResetRx] else [])
  }

  function Calendar(c: Config, n: nat): seq<Action> {
    if n == 0 then [] else Calendar(c, n - 1) + Due(c, n)
  }

  /** The closed form of every variable after any run: `n` interrupts, `m` of them before the last wait began. */
  function ClosedForm(c: Config, n: nat, m: nat): State {
    State(n % 2 == 0, n >= 1, n >= 2,
          if c.dhcp then n / 2 % 120 else 0,
          if c.dhcp then 24 - (n / 2 - m / 2) else 24,
          if c.resetRx then n % 400 else 0,
          Calendar(c, n))
  }

  lemma TickedClosedForm(c: Config, n: nat, m: nat)
    ensures Ticked(c, ClosedForm(c, n, m)) == ClosedForm(c, n + 1, m)
  {
    HalfTick(n);
    var log := Calendar(c, n);
    assert Calendar(c, n + 1) == log + Due(c, n + 1);
    assert log + Due(c, n + 1) ==
           log + (if c.dhcp && (n + 1) % 2 == 0 then [DhcpFine] else [])
           + (if c.dhcp && (n + 1) % 240 == 0 then [DhcpCoarse] else [])
           + (if c.resetRx && (n + 1) % 400 == 0 then [ResetRx] else []);
  }

  /** The divider by 120 behind the divider by 2 wraps at the multiples of 240. */
  lemma HalfTick(n: nat)
    ensures (n + 1) / 2 == n / 2 + (if n % 2 == 1 then 1 else 0) && ((n + 1) % 2 == 0 <==> n % 2 == 1)
    ensures (n + 1) % 240 == 0 <==> n % 2 == 1 && n / 2 % 120 == 119
    ensures (n + 1) % 400 == if n % 400 == 399 then 0 else n % 400 + 1
    ensures (n / 2 + 1) % 120 == if n / 2 % 120 == 119 then 0 else n / 2 % 120 + 1
  {
    Wraps(n / 2, 120);
    Wraps(n, 400);
    Wraps(n, 240);
    TwoDividers(n / 240, n % 240);
  }

  lemma TwoDividers(q: nat, r: nat)
    requires r < 240
    ensures var n := 240 * q + r; n / 2 % 120 == r / 2 && n % 2 == r % 2
  {
    assert (240 * q + r) / 2 == 120 * q + r / 2;
  }

  lemma Wraps(n: nat, d: nat)
    requires d in {120, 240, 400}
    ensures (n + 1) % d == if n % d == d - 1 then 0 else n % d + 1
  {}

  /** At every moment of every run the counters hold what the calendar says and all its calls have been made. */
  lemma {:induction false} RunsByCalendar(c: Config, steps: seq<Step>)
    ensures After(c, steps) == ClosedForm(c, Ticks(steps), TicksBefore(steps))
  {
    if steps != [] {
      var init := steps[..|steps| - 1];
      RunsByCalendar(c, init);
      if steps[|steps| - 1].Tick? {
        TickedClosedForm(c, Ticks(init), TicksBefore(init));
      }
    }
  }

  function Count(calls: seq<Action>, a: Action): nat {
    multiset(calls)[a]
  }

  /** How often each function has been called after `n` interrupts. */
  lemma {:induction false} CalendarCounts(c: Config, n: nat)
    ensures Count(Calendar(c, n), DhcpFine) == if c.dhcp then n / 2 else 0
    ensures Count(Calendar(c, n), DhcpCoarse) == if c.dhcp then n / 240 else 0
    ensures Count(Calendar(c, n), ResetRx) == if c.resetRx then n / 400 else 0
  {
    hide Count, Due;
    if n > 0 {
      CalendarCounts(c, n - 1);
      DueCounts(Calendar(c, n - 1), c, n);
      Halves(n);
      Coarse(n);
      Resets(n);
    } else {
      NoCounts(DhcpFine);
      NoCounts(DhcpCoarse);
      NoCounts(ResetRx);
    }
  }

  lemma DueCounts(calls: seq<Action>, c: Config, n: nat)
    ensures Count(calls + Due(c, n), DhcpFine) == Count(calls, DhcpFine) + if c.dhcp && n % 2 == 0 then 1 else 0
    ensures Count(calls + Due(c, n), DhcpCoarse) == Count(calls, DhcpCoarse) + if c.dhcp && n % 240 == 0 then 1 else 0
    ensures Count(calls + Due(c, n), ResetRx) == Count(calls, ResetRx) + if c.resetRx && n % 400 == 0 then 1 else 0
  {}

  lemma NoCounts(a: Action)
    ensures Count([], a) == 0
  {}

  lemma Halves(n: nat)
    requires n > 0
    ensures n / 2 == (n - 1) / 2 + (if n % 2 == 0 then 1 else 0)
  {}

  lemma Coarse(n: nat)
    requires n > 0
    ensures n / 240 == (n - 1) / 240 + (if n % 240 == 0 then 1 else 0)
  {}

  lemma Resets(n: nat)
    requires n > 0
    ensures n / 400 == (n - 1) / 400 + (if n % 400 == 0 then 1 else 0)
  {}

  /** The wait for an address gives up after 24 slow ticks: not in the first 46 interrupts, always after 48. */
  lemma DhcpTimeout(c: Config, steps: seq<Step>)
    requires c.dhcp
    ensures var waited := Ticks(steps) - TicksBefore(steps);
            && (waited <= 46 ==> After(c, steps).dhcpTimeoutCntr > 0)
            && (waited >= 48 ==> After(c, steps).dhcpTimeoutCntr <= 0)
            && (waited == 47 ==> (After(c, steps).dhcpTimeoutCntr <= 0 <==> TicksBefore(steps) % 2 == 1))
  {
    RunsByCalendar(c, steps);
  }
}
