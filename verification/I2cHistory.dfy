/** The round trip as a caller can know it: by which calls it has made since set-up and what they returned. */
module I2cHistory {
  import opened Bytes
  import opened I2cAccess
  import opened I2cTheorems
  import opened I2cRoundTrip

  datatype Returned = Returned(transfer: Transfer, status: Status)

  /** What the calls of a run returned. */
  function History(s: State, calls: seq<Call>): (history: seq<Returned>)
    ensures |history| == |calls|
  {
    if calls == [] then []
    else
      var init, c := calls[..|calls| - 1], calls[|calls| - 1];
      History(s, init) + [Returned(c.transfer, Transferred(Run(s, init), c.transfer, c.schedule).1)]
  }

  predicate HonestRun(s: State, calls: seq<Call>) {
    calls == [] ||
    var init, c := calls[..|calls| - 1], calls[|calls| - 1];
    && HonestRun(s, init)
    && HonestTransfer(Run(s, init), c.transfer, c.schedule)
    && Honest(Transferred(Run(s, init), c.transfer, c.schedule).0, c.after)
  }

  /** No send has failed since the last receive, or since set-up. */
  predicate SendsDone(history: seq<Returned>) {
    history == [] ||
    var last := history[|history| - 1];
    last.transfer.Recv? || (last.status == Success && SendsDone(history[..|history| - 1]))
  }

  function SetUp(slaves: Slaves): State {
    State(false, false, 0, Free, slaves, [])
  }

  lemma RunAppend(s: State, calls: seq<Call>, c: Call)
    ensures var (r, status) := Transferred(Run(s, calls), c.transfer, c.schedule);
            && Run(s, calls + [c]) == Delivered(r, c.after)
            && History(s, calls + [c]) == History(s, calls) + [Returned(c.transfer, status)]
            && (HonestRun(s, calls + [c]) <==>
                  HonestRun(s, calls) && HonestTransfer(Run(s, calls), c.transfer, c.schedule) && Honest(r, c.after))
  {
    assert (calls + [c])[..|calls|] == calls;
  }

  // ----- Enough: no send is left in progress -----

  lemma {:induction false} FreshKept(s: State, steps: seq<Step>)
    requires Fresh(s, true)
    ensures Fresh(Delivered(s, steps), true)
  {
    if steps != [] {
      FreshKept(s, steps[..|steps| - 1]);
    }
  }

  lemma {:induction false} FreshPolled(s: State, sending: bool, polls: seq<Poll>)
    requires Fresh(s, true)
    ensures Fresh(Polled(s, sending, polls).0, true)
    decreases |polls|
  {
    hide Fresh, Delivered, Flag;
    if polls != [] {
      FreshKept(s, polls[0].beforeFlag);
      var seen := Delivered(s, polls[0].beforeFlag);
      FreshKept(seen, polls[0].beforeCount);
      FreshPolled(Delivered(seen, polls[0].beforeCount), sending, polls[1..]);
    }
  }

  /** A receive supersedes whatever was in progress. */
  lemma ReceiveSupersedes(s: State, t: Transfer, sch: Schedule)
    requires t.Recv?
    ensures Fresh(Transferred(s, t, sch).0, true)
  {
    hide Delivered, Polled;
    var begun := Begun(s, t, sch.early);
    FreshPolled(begun, false, sch.polls);
    FreshKept(Polled(begun, false, sch.polls).0, sch.busy);
  }

  lemma {:induction false} RunFresh(s: State, calls: seq<Call>)
    requires Fresh(s, true) && HonestRun(s, calls) && SendsDone(History(s, calls))
    ensures Fresh(Run(s, calls), true)
  {
    hide HonestTransfer, Honest, Transferred, Delivered;
    if calls != [] {
      var init, c := calls[..|calls| - 1], calls[|calls| - 1];
      assert History(s, calls)[..|calls| - 1] == History(s, init);
      var (r, status) := Transferred(Run(s, init), c.transfer, c.schedule);
      if c.transfer.Recv? {
        ReceiveSupersedes(Run(s, init), c.transfer, c.schedule);
        FreshKept(r, c.after);
      } else {
        RunFresh(s, init);
        TransferDone(Run(s, init), c.transfer, c.schedule);
        IdleDelivered(r, c.after);
      }
    }
  }

  // ----- Needed: a failed send can be left in progress and cover up a lost one -----

  /** The error count is not zero when it is first read. */
  function Failing(s: State): Schedule {
    Schedule([], [Poll([], if s.totalErrorCount == 0 then [Interrupt(Event(false, false, false))] else [])], [])
  }

  lemma FailingTransfer(s: State, t: Transfer)
    ensures HonestTransfer(s, t, Failing(s))
    ensures var (r, status) := Transferred(s, t, Failing(s)); status == Failure && r.controller == Busy(t, false)
  {
    var begun, steps := Begun(s, t, []), Failing(s).polls[0].beforeCount;
    assert Honest(begun, []) && Delivered(begun, []) == begun;
    if s.totalErrorCount == 0 {
      assert steps == [Interrupt(Event(false, false, false))] && steps[..0] == [];
      assert HonestStep(begun, steps[0]) && Honest(begun, steps);
      assert Delivered(begun, steps) == Taken(begun, steps[0]);
    }
  }

  lemma NoSteps(s: State)
    ensures Delivered(s, []) == s && Honest(s, [])
  {}

  /** Every history of calls that have returned occurs in some honest run. */
  lemma {:induction false} SomeRun(s: State, history: seq<Returned>) returns (calls: seq<Call>)
    requires forall r :: r in history ==> r.status != Waiting
    ensures HonestRun(s, calls) && History(s, calls) == history
  {
    hide HonestTransfer, Honest, Transferred, Delivered;
    calls := [];
    if history != [] {
      var r := history[|history| - 1];
      var init := SomeRun(s, history[..|history| - 1]);
      var now := Run(s, init);
      var c := Call(r.transfer, if r.status == Success then Prompt(r.transfer) else Failing(now), []);
      PromptTransfer(now, r.transfer);
      FailingTransfer(now, r.transfer);
      NoSteps(Transferred(now, c.transfer, c.schedule).0);
      RunAppend(s, init, c);
      calls := init + [c];
    }
  }

  /** After a failed send the controller can be left with one, through any number of sends reported successful. */
  lemma {:induction false} LeftoverRun(s: State, history: seq<Returned>) returns (calls: seq<Call>)
    requires (forall r :: r in history ==> r.status != Waiting) && !SendsDone(history)
    ensures HonestRun(s, calls) && History(s, calls) == history && !Fresh(Run(s, calls), true)
  {
    hide HonestTransfer, Honest, Transferred, Delivered;
    var r, before := history[|history| - 1], history[..|history| - 1];
    var init, sch;
    if r.status == Failure {
      init := SomeRun(s, before);
      sch := Failing(Run(s, init));
      FailingTransfer(Run(s, init), r.transfer);
    } else {
      init := LeftoverRun(s, before);
      sch := Schedule([Interrupt(End(r.transfer))], [Poll([], [])], []);
      StaleTransfer(Run(s, init), r.transfer);
    }
    var c := Call(r.transfer, sch, []);
    NoSteps(Transferred(Run(s, init), r.transfer, sch).0);
    RunAppend(s, init, c);
    calls := init + [c];
  }

  /** From set-up, and knowing only what earlier calls returned: a value written and read back, both successfully, is
      the value written in every honest run with this history, if and only if no send has failed since the last
      receive. */
  lemma HistoryRoundTripIff(slaves: Slaves, history: seq<Returned>, reg: Byte, addr: Half)
    requires forall r :: r in history ==> r.status != Waiting
    ensures (forall calls: seq<Call>, data: Half, trip: Trip ::
               HonestRun(SetUp(slaves), calls) && History(SetUp(slaves), calls) == history
               && Honestly(Run(SetUp(slaves), calls), reg, data, addr, trip)
               && BothSucceed(Run(SetUp(slaves), calls), reg, data, addr, trip) ==>
               ValueRead(Run(SetUp(slaves), calls), reg, data, addr, trip) == data)
            <==> SendsDone(history)
  {
    hide Honestly, BothSucceed, ValueRead, Effect, HonestRun, History, Run, SendsDone;
    var s := SetUp(slaves);
    if SendsDone(history) {
      forall calls: seq<Call>, data: Half, trip: Trip |
        HonestRun(s, calls) && History(s, calls) == history
        && Honestly(Run(s, calls), reg, data, addr, trip) && BothSucceed(Run(s, calls), reg, data, addr, trip)
        ensures ValueRead(Run(s, calls), reg, data, addr, trip) == data
      {
        RunFresh(s, calls);
        RoundTrip(Run(s, calls), reg, data, addr, trip);
      }
    } else {
      var calls := LeftoverRun(s, history);
      var now, trip := Run(s, calls), LostTrip(reg, addr);
      LostWrite(now, reg, 0, addr);
      LostWrite(now, reg, 1, addr);
      assert ValueRead(now, reg, 0, addr, trip) == ValueRead(now, reg, 1, addr, trip);
    }
  }

  /** One failed write after set-up is enough. */
  lemma FailedSendLeft(slaves: Slaves, addr: Half, bytes: seq<Byte>)
    ensures var s, t := SetUp(slaves), Send(addr, bytes);
            && HonestTransfer(s, t, Failing(s)) && Transferred(s, t, Failing(s)).1 == Failure
            && !Fresh(Transferred(s, t, Failing(s)).0, true)
  {
    FailingTransfer(SetUp(slaves), Send(addr, bytes));
  }
}
