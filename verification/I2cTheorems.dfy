/** What the polling loops of `i2c_access.c` promise under every schedule of interrupts. */
module I2cTheorems {
  import opened Bytes
  import opened I2cAccess

  // ----- What the handler makes of a sequence of events -----

  /** The handler took an event for the end of a transfer in this direction: receiving comes before sending. */
  ghost predicate Completed(sending: bool, steps: seq<Step>) {
    exists e :: Interrupt(e) in steps && if sending then e.completeSend && !e.completeRecv else e.completeRecv
  }

  predicate Counts(step: Step) {
    step.Interrupt? && !step.event.completeRecv && !step.event.completeSend && !step.event.slaveReady
  }

  function Errors(steps: seq<Step>): nat {
    if steps == [] then 0
    else Errors(steps[..|steps| - 1]) + (if Counts(steps[|steps| - 1]) then 1 else 0)
  }

  lemma CompletedAppend(sending: bool, steps: seq<Step>, more: seq<Step>)
    ensures Completed(sending, steps + more) <==> Completed(sending, steps) || Completed(sending, more)
  {
    forall e: Event ensures Interrupt(e) in steps + more <==> Interrupt(e) in steps || Interrupt(e) in more {}
  }

  lemma {:induction false} ErrorsAppend(steps: seq<Step>, more: seq<Step>)
    ensures Errors(steps + more) == Errors(steps) + Errors(more)
  {
    if more == [] {
      assert steps + more == steps;
    } else {
      var init := more[..|more| - 1];
      ErrorsAppend(steps, init);
      assert (steps + more)[..|steps + more| - 1] == steps + init;
    }
  }

  lemma {:induction false} FlagAfter(s: State, sending: bool, steps: seq<Step>)
    ensures Flag(Delivered(s, steps), sending) <==> Flag(s, sending) || Completed(sending, steps)
  {
    hide Performed;
    if steps != [] {
      var init, last := steps[..|steps| - 1], steps[|steps| - 1];
      FlagAfter(s, sending, init);
      CompletedAppend(sending, init, [last]);
      assert steps == init + [last];
      PerformedFlags(Delivered(s, init));
      if last.Interrupt? {
        assert Interrupt(last.event) in [last];
      }
    }
  }

  lemma PerformedFlags(s: State)
    ensures var p := Performed(s);
            && p.transmitComplete == s.transmitComplete && p.receiveComplete == s.receiveComplete
            && p.totalErrorCount == s.totalErrorCount
  {}

  lemma {:induction false} CountAfter(s: State, steps: seq<Step>)
    ensures Delivered(s, steps).totalErrorCount == (s.totalErrorCount + Errors(steps)) % 0x1_0000_0000
  {
    hide Performed;
    if steps != [] {
      var init := steps[..|steps| - 1];
      CountAfter(s, init);
      PerformedFlags(Delivered(s, init));
    }
  }

  // ----- When a call returns, and what -----

  /** Everything delivered after the flag was cleared and during the first `n` turns of the loop. */
  function Turns(sch: Schedule, n: nat): seq<Step>
    requires n <= |sch.polls|
    decreases n, 0
  {
    if n == 0 then sch.early else BeforeFlag(sch, n - 1) + sch.polls[n - 1].beforeCount
  }

  /** Everything delivered after the flag was cleared and before turn `t` reads it. */
  function BeforeFlag(sch: Schedule, t: nat): seq<Step>
    requires t < |sch.polls|
    decreases t, 1
  {
    Turns(sch, t) + sch.polls[t].beforeFlag
  }

  /** Turn `t` finds the flag set. */
  ghost predicate Complete(sending: bool, sch: Schedule, t: nat)
    requires t < |sch.polls|
  {
    Completed(sending, BeforeFlag(sch, t))
  }

  /** Turn `t`, should it get that far, reads an error count other than zero. */
  ghost predicate Faulty(count: Word, sch: Schedule, t: nat)
    requires t < |sch.polls|
  {
    (count + Errors(Turns(sch, t + 1))) % 0x1_0000_0000 != 0
  }

  ghost predicate Reached(count: Word, sending: bool, sch: Schedule, t: nat)
    requires t <= |sch.polls|
  {
    forall u :: 0 <= u < t ==> !Complete(sending, sch, u) && !Faulty(count, sch, u)
  }

  ghost predicate SucceedsAt(count: Word, sending: bool, sch: Schedule, t: nat) {
    t < |sch.polls| && Reached(count, sending, sch, t) && Complete(sending, sch, t)
  }

  ghost predicate FailsAt(count: Word, sending: bool, sch: Schedule, t: nat) {
    t < |sch.polls| && Reached(count, sending, sch, t) && !Complete(sending, sch, t) && Faulty(count, sch, t)
  }

  /** What stands in the flag and the count after the steps delivered so far. */
  ghost predicate Follows(s: State, count: Word, sending: bool, steps: seq<Step>) {
    && (Flag(s, sending) <==> Completed(sending, steps))
    && s.totalErrorCount == (count + Errors(steps)) % 0x1_0000_0000
  }

  lemma FollowsDelivered(s: State, count: Word, sending: bool, steps: seq<Step>, more: seq<Step>)
    requires Follows(s, count, sending, steps)
    ensures Follows(Delivered(s, more), count, sending, steps + more)
  {
    hide Delivered, Completed, Errors, Flag;
    FlagAfter(s, sending, more);
    CountAfter(s, more);
    CompletedAppend(sending, steps, more);
    ErrorsAppend(steps, more);
  }

  lemma {:induction false} PolledFrom(s: State, count: Word, sending: bool, sch: Schedule, t: nat)
    requires t <= |sch.polls| && Follows(s, count, sending, Turns(sch, t)) && Reached(count, sending, sch, t)
    ensures var status := Polled(s, sending, sch.polls[t..]).1;
            && (status == Success <==> exists u: nat :: SucceedsAt(count, sending, sch, u))
            && (status == Failure <==> exists u: nat :: FailsAt(count, sending, sch, u))
    decreases |sch.polls| - t
  {
    hide Delivered, Completed, Errors, Flag, Turns;
    if t < |sch.polls| {
      var poll := sch.polls[t];
      var seen := Delivered(s, poll.beforeFlag);
      FollowsDelivered(s, count, sending, Turns(sch, t), poll.beforeFlag);
      FollowsDelivered(seen, count, sending, BeforeFlag(sch, t), poll.beforeCount);
      TurnsNext(sch, t);
      if Complete(sending, sch, t) {
        assert SucceedsAt(count, sending, sch, t);
      } else if Faulty(count, sch, t) {
        assert FailsAt(count, sending, sch, t);
      } else {
        PolledFrom(Delivered(seen, poll.beforeCount), count, sending, sch, t + 1);
        assert sch.polls[t..][1..] == sch.polls[t + 1..];
      }
    }
  }

  lemma TurnsNext(sch: Schedule, t: nat)
    requires t < |sch.polls|
    ensures Turns(sch, t + 1) == BeforeFlag(sch, t) + sch.polls[t].beforeCount
  {}

  /** Exactly when a call succeeds and when it fails: it returns in the first turn in which the handler has taken a
      completion in its direction since the flag was cleared, or the error count, modulo 2^32, is not zero. */
  lemma TransferExactly(s: State, t: Transfer, sch: Schedule)
    ensures var (_, status) := Transferred(s, t, sch);
            && (status == Success <==> exists u: nat :: SucceedsAt(s.totalErrorCount, t.Send?, sch, u))
            && (status == Failure <==> exists u: nat :: FailsAt(s.totalErrorCount, t.Send?, sch, u))
  {
    hide Delivered, Completed, Polled, SucceedsAt, FailsAt;
    assert Turns(sch, 0) == sch.early;
    var cleared := Cleared(s, t);
    NothingDelivered(cleared, t.Send?);
    assert [] + sch.early == sch.early;
    FollowsDelivered(cleared, s.totalErrorCount, t.Send?, [], sch.early);
    PolledFrom(Begun(s, t, sch.early), s.totalErrorCount, t.Send?, sch, 0);
    assert sch.polls[0..] == sch.polls;
  }

  lemma NothingDelivered(s: State, sending: bool)
    requires !Flag(s, sending)
    ensures Follows(s, s.totalErrorCount, sending, [])
  {}

  // ----- The error count after a call -----

  /** The steps of the loop after which a call that starts with this count returns, or all of them if it does not. */
  ghost predicate LoopEnds(count: Word, sending: bool, sch: Schedule, status: Status, steps: seq<Step>) {
    match status
    case Success => exists u: nat :: SucceedsAt(count, sending, sch, u) && steps == BeforeFlag(sch, u)
    case Failure => exists u: nat :: FailsAt(count, sending, sch, u) && steps == Turns(sch, u + 1)
    case Waiting => steps == Turns(sch, |sch.polls|)
  }

  lemma {:induction false} PolledCountExactly(s: State, count: Word, sending: bool, sch: Schedule, t: nat)
    returns (steps: seq<Step>)
    requires t <= |sch.polls| && Follows(s, count, sending, Turns(sch, t)) && Reached(count, sending, sch, t)
    ensures var (p, status) := Polled(s, sending, sch.polls[t..]);
            LoopEnds(count, sending, sch, status, steps) && Follows(p, count, sending, steps)
    decreases |sch.polls| - t
  {
    hide Delivered, Completed, Errors, Flag, Turns, Follows;
    if t == |sch.polls| {
      steps := Turns(sch, t);
    } else {
      var poll := sch.polls[t];
      var seen := Delivered(s, poll.beforeFlag);
      FollowsDelivered(s, count, sending, Turns(sch, t), poll.beforeFlag);
      FollowsDelivered(seen, count, sending, BeforeFlag(sch, t), poll.beforeCount);
      FollowsParts(seen, count, sending, BeforeFlag(sch, t));
      FollowsParts(Delivered(seen, poll.beforeCount), count, sending, BeforeFlag(sch, t) + poll.beforeCount);
      TurnsNext(sch, t);
      if Complete(sending, sch, t) {
        assert SucceedsAt(count, sending, sch, t);
        steps := BeforeFlag(sch, t);
      } else if Faulty(count, sch, t) {
        assert FailsAt(count, sending, sch, t);
        steps := Turns(sch, t + 1);
      } else {
        assert sch.polls[t..][1..] == sch.polls[t + 1..];
        steps := PolledCountExactly(Delivered(seen, poll.beforeCount), count, sending, sch, t + 1);
      }
    }
  }

  lemma FollowsParts(s: State, count: Word, sending: bool, steps: seq<Step>)
    requires Follows(s, count, sending, steps)
    ensures Flag(s, sending) <==> Completed(sending, steps)
    ensures s.totalErrorCount == (count + Errors(steps)) % 0x1_0000_0000
  {}

  /** The error count after a call is the one before and all errors delivered until it returned, those during the wait
      for an idle bus included, modulo 2^32. */
  lemma CountExactly(s: State, t: Transfer, sch: Schedule) returns (steps: seq<Step>)
    ensures var (r, status) := Transferred(s, t, sch);
            && LoopEnds(s.totalErrorCount, t.Send?, sch, status, steps)
            && r.totalErrorCount ==
               (s.totalErrorCount + Errors(steps) + (if status == Success then Errors(sch.busy) else 0)) % 0x1_0000_0000
  {
    hide Delivered, Completed, Polled, LoopEnds, Errors;
    assert Turns(sch, 0) == sch.early;
    var cleared := Cleared(s, t);
    NothingDelivered(cleared, t.Send?);
    assert [] + sch.early == sch.early;
    FollowsDelivered(cleared, s.totalErrorCount, t.Send?, [], sch.early);
    var begun := Begun(s, t, sch.early);
    steps := PolledCountExactly(begun, s.totalErrorCount, t.Send?, sch, 0);
    assert sch.polls[0..] == sch.polls;
    CountAfter(Polled(begun, t.Send?, sch.polls).0, sch.busy);
  }

  // ----- Errors are never forgotten -----

  datatype Call = Call(transfer: Transfer, schedule: Schedule, after: seq<Step>)

  function Run(s: State, calls: seq<Call>): State {
    if calls == [] then s
    else
      var c := calls[|calls| - 1];
      Delivered(Transferred(Run(s, calls[..|calls| - 1]), c.transfer, c.schedule).0, c.after)
  }

  /** All that can be delivered during a call. */
  function AllErrors(sch: Schedule): nat {
    Errors(Turns(sch, |sch.polls|)) + Errors(sch.busy)
  }

  function RunErrors(calls: seq<Call>): nat {
    if calls == [] then 0
    else
      var c := calls[|calls| - 1];
      RunErrors(calls[..|calls| - 1]) + AllErrors(c.schedule) + Errors(c.after)
  }

  lemma CountGrows(s: State, steps: seq<Step>)
    requires s.totalErrorCount + Errors(steps) < 0x1_0000_0000
    ensures Delivered(s, steps).totalErrorCount == s.totalErrorCount + Errors(steps)
  {
    CountAfter(s, steps);
  }

  lemma {:induction false} TurnsGrow(sch: Schedule, t: nat, n: nat)
    requires t <= n <= |sch.polls|
    ensures Errors(Turns(sch, t)) <= Errors(Turns(sch, n))
    decreases n - t
  {
    hide Errors;
    if t < n {
      TurnErrors(sch, t);
      TurnsGrow(sch, t + 1, n);
    }
  }

  lemma TurnErrors(sch: Schedule, t: nat)
    requires t < |sch.polls|
    ensures Errors(Turns(sch, t + 1)) ==
            Errors(Turns(sch, t)) + Errors(sch.polls[t].beforeFlag) + Errors(sch.polls[t].beforeCount)
  {
    hide Errors;
    TurnsNext(sch, t);
    ErrorsAppend(BeforeFlag(sch, t), sch.polls[t].beforeCount);
    ErrorsAppend(Turns(sch, t), sch.polls[t].beforeFlag);
  }

  lemma {:induction false} PolledCount(s: State, sending: bool, sch: Schedule, t: nat)
    requires t <= |sch.polls|
    requires s.totalErrorCount + Errors(Turns(sch, |sch.polls|)) - Errors(Turns(sch, t)) < 0x1_0000_0000
    ensures s.totalErrorCount <= Polled(s, sending, sch.polls[t..]).0.totalErrorCount
            <= s.totalErrorCount + Errors(Turns(sch, |sch.polls|)) - Errors(Turns(sch, t))
    decreases |sch.polls| - t
  {
    hide Errors, Delivered, Turns, Flag;
    TurnsGrow(sch, t, |sch.polls|);
    if t < |sch.polls| {
      var poll := sch.polls[t];
      var seen := Delivered(s, poll.beforeFlag);
      TurnsGrow(sch, t + 1, |sch.polls|);
      TurnErrors(sch, t);
      CountGrows(s, poll.beforeFlag);
      CountGrows(seen, poll.beforeCount);
      PolledCount(Delivered(seen, poll.beforeCount), sending, sch, t + 1);
      assert sch.polls[t..][1..] == sch.polls[t + 1..];
    }
  }

  lemma TransferCount(s: State, t: Transfer, sch: Schedule)
    requires s.totalErrorCount + AllErrors(sch) < 0x1_0000_0000
    ensures s.totalErrorCount <= Transferred(s, t, sch).0.totalErrorCount <= s.totalErrorCount + AllErrors(sch)
  {
    hide Errors, Delivered, Polled;
    TurnsGrow(sch, 0, |sch.polls|);
    CountGrows(Cleared(s, t), sch.early);
    var begun := Begun(s, t, sch.early);
    PolledCount(begun, t.Send?, sch, 0);
    assert sch.polls[0..] == sch.polls;
    CountGrows(Polled(begun, t.Send?, sch.polls).0, sch.busy);
  }

  lemma {:induction false} RunCount(s: State, calls: seq<Call>)
    requires s.totalErrorCount + RunErrors(calls) < 0x1_0000_0000
    ensures s.totalErrorCount <= Run(s, calls).totalErrorCount <= s.totalErrorCount + RunErrors(calls)
  {
    hide Errors, Delivered, Transferred, AllErrors;
    if calls != [] {
      var init, c := calls[..|calls| - 1], calls[|calls| - 1];
      RunCount(s, init);
      TransferCount(Run(s, init), c.transfer, c.schedule);
      CountGrows(Transferred(Run(s, init), c.transfer, c.schedule).0, c.after);
    }
  }

  /** Once an error has been counted, every later call that is not complete when it first looks fails, whatever calls
      and interrupts come in between, as long as the count does not wrap. */
  lemma ErrorsStick(s: State, calls: seq<Call>, t: Transfer, sch: Schedule)
    requires s.totalErrorCount > 0 && sch.polls != []
    requires s.totalErrorCount + RunErrors(calls) + AllErrors(sch) < 0x1_0000_0000
    ensures Transferred(Run(s, calls), t, sch).1 == if Complete(t.Send?, sch, 0) then Success else Failure
  {
    hide Errors, Run, RunErrors, Transferred, Complete, AllErrors, Turns;
    var r := Run(s, calls);
    RunCount(s, calls);
    TransferExactly(r, t, sch);
    TurnsGrow(sch, 1, |sch.polls|);
    FirstTurns(sch);
    assert Reached(r.totalErrorCount, t.Send?, sch, 0);
    if Complete(t.Send?, sch, 0) {
      assert SucceedsAt(r.totalErrorCount, t.Send?, sch, 0);
    } else {
      assert FailsAt(r.totalErrorCount, t.Send?, sch, 0);
    }
  }

  lemma FirstTurns(sch: Schedule)
    ensures Errors(Turns(sch, |sch.polls|)) <= AllErrors(sch)
  {}

  /** The 2^32nd error wipes the count out, and a call that was incomplete at first succeeds. */
  lemma ErrorsForgotten(s: State, addr: Half, bytes: seq<Byte>)
    requires s.totalErrorCount == 0xFFFF_FFFF
    ensures var sch := Schedule([Interrupt(Event(false, false, false))],
                                [Poll([], []), Poll([Interrupt(Event(false, true, false))], [])], []);
            !Complete(true, sch, 0) && Transferred(s, Send(addr, bytes), sch).1 == Success
  {
    var early, error := [Interrupt(Event(false, false, false))], Event(false, false, false);
    var sch := Schedule(early, [Poll([], []), Poll([Interrupt(Event(false, true, false))], [])], []);
    assert BeforeFlag(sch, 0) == early && BeforeFlag(sch, 1) == early + sch.polls[1].beforeFlag;
    assert Turns(sch, 1) == early;
    assert early[..0] == [] && Errors(early) == 1;
    assert BeforeFlag(sch, 1)[1] == Interrupt(Event(false, true, false));
    assert SucceedsAt(s.totalErrorCount, true, sch, 1);
    TransferExactly(s, Send(addr, bytes), sch);
  }
}
