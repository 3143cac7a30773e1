/** What one signature's row of latched comparators does, change by change of the input ports. This is what the emitted
    processes compute, including the comparators' incomplete sensitivity list: a comparator runs when the byte on
    the port changes or reset does, not when its enable does. */
module TriggeredChain {
  import opened Bytes
  import opened Hex

  /** The values on the input ports between two port changes. */
  datatype Pins = Pins(reset: bool, data: Byte)

  /** Which comparators hold a match, and whether the output has been pulled up. */
  datatype Row = Row(stages: seq<bool>, latched: bool)

  function Cleared(n: nat): seq<bool> {
    seq(n, k => false)
  }

  /** A change of reset runs the comparators on the byte that was there before. */
  function Woken(sig: Line, p: Pins, stages: seq<bool>, q: Pins): (next: seq<bool>)
    requires |stages| == |sig|
    ensures |next| == |sig|
  {
    if p.reset == q.reset then stages
    else if q.reset then Cleared(|sig|)
    else seq(|sig|, k requires 0 <= k < |sig| => k == 0 && p.data != 0 && p.data == sig[0])
  }

  /** A change of the byte runs them again, one delta cycle later: stage 0 with the enable of the new byte, the others
      with the enable of before. A comparator that is not enabled keeps its value. */
  function Compared(sig: Line, p: Pins, stages: seq<bool>, q: Pins): (next: seq<bool>)
    requires |stages| == |sig|
    ensures |next| == |sig|
  {
    var woken := Woken(sig, p, stages, q);
    if q.reset || p.data == q.data then woken
    else seq(|sig|, k requires 0 <= k < |sig| =>
           if (if k == 0 then q.data != 0 else p.data != 0 && stages[k - 1]) then q.data == sig[k] else woken[k])
  }

  /** The output is pulled up by a match of the last comparator at any time while there is data, even by one that lasts
      for a delta cycle only. */
  function RowStep(sig: Line, p: Pins, row: Row, q: Pins): Row
    requires |row.stages| == |sig| > 0
  {
    var last := |sig| - 1;
    var woken, stages := Woken(sig, p, row.stages, q), Compared(sig, p, row.stages, q);
    Row(stages, !q.reset && (row.latched || (q.data != 0 && (row.stages[last] || woken[last] || stages[last]))))
  }

  /** Nothing is held during reset, and a match that is held while there is data has pulled the output up. */
  ghost predicate RowOk(sig: Line, p: Pins, row: Row) {
    && |row.stages| == |sig| > 0
    && (p.reset ==> row == Row(Cleared(|sig|), false))
    && (p.data != 0 && row.stages[|sig| - 1] ==> row.latched)
  }

  lemma RowStepOk(sig: Line, p: Pins, row: Row, q: Pins)
    requires RowOk(sig, p, row)
    ensures RowOk(sig, q, RowStep(sig, p, row, q))
  {}

  /** Reset has been high at some time. */
  predicate Resets(trace: seq<Pins>) {
    trace != [] && (trace[|trace| - 1].reset || Resets(trace[..|trace| - 1]))
  }

  /** The row at the end of a run, from the first reset on. */
  function RunRow(sig: Line, trace: seq<Pins>): (row: Row)
    requires sig != [] && Resets(trace)
    ensures RowOk(sig, trace[|trace| - 1], row)
  {
    var last := |trace| - 1;
    if !Resets(trace[..last]) then Row(Cleared(|sig|), false)
    else
      var row := RunRow(sig, trace[..last]);
      RowStepOk(sig, trace[last - 1], row, trace[last]);
      RowStep(sig, trace[last - 1], row, trace[last])
  }

  // ----- A prefix of a signature -----

  /** The comparators of a prefix are the first ones of the whole row, at every moment of every run. */
  lemma {:induction false} PrefixStages(sig: Line, m: nat, trace: seq<Pins>)
    requires 1 <= m <= |sig| && Resets(trace)
    ensures RunRow(sig[..m], trace).stages == RunRow(sig, trace).stages[..m]
  {
    var last := |trace| - 1;
    if Resets(trace[..last]) {
      PrefixStages(sig, m, trace[..last]);
      PrefixCompared(sig, m, trace[last - 1], RunRow(sig, trace[..last]).stages, trace[last]);
    }
  }

  /** A run that has latched the whole has latched the prefix. */
  lemma {:induction false} PrefixLatched(sig: Line, m: nat, trace: seq<Pins>)
    requires 1 <= m <= |sig| && Resets(trace)
    ensures Covers(sig, m, RunRow(sig, trace), RunRow(sig[..m], trace))
  {
    var last := |trace| - 1;
    if Resets(trace[..last]) {
      var init := trace[..last];
      PrefixLatched(sig, m, init);
      PrefixStages(sig, m, init);
      PrefixStages(sig, m, trace);
      PrefixStep(sig, m, trace[last - 1], RunRow(sig, init), RunRow(sig[..m], init), trace[last]);
    }
  }

  /** From comparator `m` on a match of the whole finds the part latched. */
  ghost predicate Covers(sig: Line, m: nat, whole: Row, part: Row)
    requires |whole.stages| == |sig|
  {
    (whole.latched ==> part.latched) && forall k :: m <= k < |sig| && whole.stages[k] ==> part.latched
  }

  lemma PrefixStep(sig: Line, m: nat, p: Pins, whole: Row, part: Row, q: Pins)
    requires 1 <= m <= |sig| && RowOk(sig, p, whole) && RowOk(sig[..m], p, part)
    requires part.stages == whole.stages[..m] && Covers(sig, m, whole, part)
    ensures Covers(sig, m, RowStep(sig, p, whole, q), RowStep(sig[..m], p, part, q))
  {
    var next, short := RowStep(sig, p, whole, q), RowStep(sig[..m], p, part, q);
    PrefixCompared(sig, m, p, whole.stages, q);
    forall k | m <= k < |sig| && next.stages[k] ensures short.latched {
      assert whole.stages[k] || (p.data != 0 && whole.stages[k - 1]);
    }
  }

  // ----- A single byte of a signature -----

  /** A comparator that has matched byte `j`, or one behind it, has seen the byte go by. */
  lemma {:induction false} ByteLatched(sig: Line, j: nat, trace: seq<Pins>)
    requires 1 <= j < |sig| && sig[j] != 0 && Resets(trace)
    ensures Covers(sig, j, RunRow(sig, trace), RunRow([sig[j]], trace))
  {
    var last := |trace| - 1;
    if Resets(trace[..last]) {
      var init := trace[..last];
      ByteLatched(sig, j, init);
      ByteStep(sig, j, trace[last - 1], RunRow(sig, init), RunRow([sig[j]], init), trace[last]);
    }
  }

  lemma ByteStep(sig: Line, j: nat, p: Pins, whole: Row, part: Row, q: Pins)
    requires 1 <= j < |sig| && sig[j] != 0 && RowOk(sig, p, whole) && RowOk([sig[j]], p, part)
    requires Covers(sig, j, whole, part)
    ensures Covers(sig, j, RowStep(sig, p, whole, q), RowStep([sig[j]], p, part, q))
  {
    var next, short := RowStep(sig, p, whole, q), RowStep([sig[j]], p, part, q);
    forall k | j <= k < |sig| && next.stages[k] ensures short.latched {
      assert whole.stages[k] || (k == j && q.data == sig[j] && p.data != q.data) || (k > j && whole.stages[k - 1]);
    }
  }

  lemma PrefixCompared(sig: Line, m: nat, p: Pins, stages: seq<bool>, q: Pins)
    requires 1 <= m <= |sig| == |stages|
    ensures Compared(sig[..m], p, stages[..m], q) == Compared(sig, p, stages, q)[..m]
  {}
}
