/** What the data-triggered detector delivers, compared with the clocked one on the same bytes: exactly when its
    comparators mean what they are meant to, exactly when the two compilers agree, and where they part. */
module TriggeredTheorems {
  import opened Bytes
  import opened Vhdl
  import opened Names
  import opened Hex
  import opened Streams
  import opened Signatures
  import opened TriggeredChain
  import opened TriggeredDetector
  import opened TriggeredStreams
  import opened TriggeredPaths
  import C = ClockedTheorems

  // ----- Deleting zeros -----

  function DeleteZeros(stream: Line): Line {
    if stream == [] then []
    else DeleteZeros(stream[..|stream| - 1]) + (if LastByte(stream) == 0 then [] else [LastByte(stream)])
  }

  lemma DeleteZerosAppend(stream: Line, b: Byte)
    ensures DeleteZeros(stream + [b]) == if b == 0 then DeleteZeros(stream) else DeleteZeros(stream) + [b]
  {
    assert (stream + [b])[..|stream|] == stream;
  }

  lemma {:induction false} NothingDeleted(stream: Line)
    requires 0 !in stream
    ensures DeleteZeros(stream) == stream
  {
    if stream != [] {
      assert LastByte(stream) in stream;
      NothingDeleted(stream[..|stream| - 1]);
    }
  }

  function ZeroSeparated(stream: Line): Line {
    if stream == [] then []
    else ZeroSeparated(stream[..|stream| - 1]) + [LastByte(stream)] + [0]
  }

  lemma {:induction false} ZeroSeparatedDeleted(stream: Line)
    requires 0 !in stream
    ensures DeleteZeros(ZeroSeparated(stream)) == stream
  {
    hide DeleteZeros;
    if stream == [] {
      NothingDeleted([]);
    } else {
      var init, b := stream[..|stream| - 1], LastByte(stream);
      ZeroSeparatedDeleted(init);
      DeleteZerosAppend(ZeroSeparated(init), b);
      DeleteZerosAppend(ZeroSeparated(init) + [b], 0);
      assert b in stream;
    }
  }

  /** Zeros are deleted, so nothing with a zero byte occurs. */
  lemma ZeroNeverOccurs(sig: Line, stream: Line)
    requires 0 in sig && 0 !in stream
    ensures !Occurs(sig, stream) && !EndsWith(stream, sig)
  {
    OccursBytes(sig, stream, 0);
  }

  lemma OccursBytes(sig: Line, stream: Line, b: Byte)
    requires b in sig
    ensures Occurs(sig, stream) || EndsWith(stream, sig) ==> b in stream
  {
    var k :| 0 <= k < |sig| && sig[k] == b;
    if EndsWith(stream, sig) {
      assert stream[|stream| - |sig|..][k] == b;
    } else if Occurs(sig, stream) {
      var p :| 0 <= p <= |stream| && EndsWith(stream[..p], sig);
      assert stream[..p][p - |sig|..][k] == b;
    }
  }

  // ----- What holds on every stream -----

  /** Comparator 0 is high exactly when the last byte that is not zero is the first one of the signature. */
  lemma {:induction false} FirstStage(sig: Line, stream: Line)
    requires sig != [] && sig[0] != 0
    ensures StreamRow(sig, stream).stages[0] <==> EndsWith(DeleteZeros(stream), sig[..1])
    ensures LastByte(stream) != 0 ==> (StreamRow(sig, stream).stages[0] <==> LastByte(stream) == sig[0])
  {
    hide StreamRow, DeleteZeros;
    assert sig[..1] == [sig[0]] && sig[..0] == [];
    if stream == [] {
      StreamStart(sig);
      NothingDeleted([]);
    } else {
      var init, b := stream[..|stream| - 1], LastByte(stream);
      assert stream == init + [b];
      FirstStage(sig, init);
      StageStep(sig, init, b, 0);
      DeleteZerosAppend(init, b);
      EndsWithAppend(DeleteZeros(init), sig, 0, b);
      assert EndsWith(DeleteZeros(init), []);
    }
  }

  lemma {:induction false} SingleByte(sig: Line, stream: Line)
    requires |sig| == 1 && sig[0] != 0
    ensures StreamRow(sig, stream).latched <==> Occurs(sig, DeleteZeros(stream))
  {
    hide StreamRow, DeleteZeros, Occurs, EndsWith;
    if stream == [] {
      StreamStart(sig);
      NothingDeleted([]);
      OccursEmpty(sig);
    } else {
      var init, b := stream[..|stream| - 1], LastByte(stream);
      assert stream == init + [b] && sig[..1] == sig;
      SingleByte(sig, init);
      FirstStage(sig, init);
      FirstStage(sig, stream);
      LatchStep(sig, init, b);
      HeldLatched(sig, init);
      HeldLatched(sig, stream);
      DeleteZerosAppend(init, b);
      OccursAppend(sig, DeleteZeros(init), b);
    }
  }

  /** A zero byte withdraws the enable that a match would have passed on before the next byte arrives. */
  lemma {:induction false} SeparatedDeaf(sig: Line, stream: Line)
    requires |sig| >= 2 && 0 !in sig && 0 !in stream
    ensures var row := StreamRow(sig, ZeroSeparated(stream));
            !row.latched && forall k :: 1 <= k < |sig| ==> !row.stages[k]
    ensures LastByte(ZeroSeparated(stream)) == 0
  {
    hide StreamRow;
    if stream == [] {
      StreamStart(sig);
    } else {
      var init, b := stream[..|stream| - 1], LastByte(stream);
      SeparatedDeaf(sig, init);
      var z := ZeroSeparated(init);
      LatchStep(sig, z, b);
      LatchStep(sig, z + [b], 0);
      forall k | 1 <= k < |sig|
        ensures !StreamRow(sig, z + [b]).stages[k] && !StreamRow(sig, z + [b] + [0]).stages[k]
      {
        StageStep(sig, z, b, k);
        StageStep(sig, z + [b], 0, k);
        assert sig[k] in sig;
      }
    }
  }

  // ----- Which comparators can be driven high -----

  /** A signature has no zero byte, or begins with one, which nothing gets past. */
  ghost predicate Ordinary(sig: Line) {
    sig != [] && (sig[0] == 0 || 0 !in sig)
  }

  /** What a match of comparator `j` and one of its predecessor say about each other. */
  ghost predicate Explained(sig: Line, row: Row, last: Byte, j: nat)
    requires 1 <= j < |sig| == |row.stages|
  {
    row.stages[j] ==>
      if row.stages[j - 1] then (last == sig[j] && Free(sig, j - 1)) || (last == sig[j - 1] && Free(sig, j))
      else Free(sig, j)
  }

  ghost predicate AllExplained(sig: Line, stream: Line)
    requires sig != []
  {
    forall j :: 1 <= j < |sig| ==> Explained(sig, StreamRow(sig, stream), LastByte(stream), j)
  }

  lemma ExplainedStep(sig: Line, stream: Line, b: Byte, j: nat)
    requires 1 <= j < |sig| && 0 !in sig && AllExplained(sig, stream)
    ensures Explained(sig, StreamRow(sig, stream + [b]), LastByte(stream + [b]), j)
  {
    hide StreamRow, DeleteZeros, EndsWith;
    assert sig[0] in sig && sig[j] in sig && sig[j - 1] in sig;
    FirstStage(sig, stream);
    StageStep(sig, stream, b, j);
    StageStep(sig, stream, b, j - 1);
    var row, last := StreamRow(sig, stream), LastByte(stream);
    assert Explained(sig, row, last, j);
    if j >= 2 {
      assert Explained(sig, row, last, j - 1);
    }
  }

  lemma {:induction false} HighExplained(sig: Line, stream: Line)
    requires sig != [] && 0 !in sig
    ensures AllExplained(sig, stream)
  {
    hide StreamRow, Explained;
    if stream == [] {
      StreamStart(sig);
      forall j | 1 <= j < |sig| ensures Explained(sig, StreamRow(sig, stream), LastByte(stream), j) {
        NothingExplained(sig, StreamRow(sig, stream), LastByte(stream), j);
      }
    } else {
      var init, b := stream[..|stream| - 1], LastByte(stream);
      assert stream == init + [b];
      HighExplained(sig, init);
      forall j | 1 <= j < |sig| ensures Explained(sig, StreamRow(sig, stream), LastByte(stream), j) {
        ExplainedStep(sig, init, b, j);
      }
    }
  }

  lemma NothingExplained(sig: Line, row: Row, last: Byte, j: nat)
    requires 1 <= j < |sig| == |row.stages| && !row.stages[j]
    ensures Explained(sig, row, last, j)
  {}

  /** A signature that begins with a zero byte raises nothing: zero is no data. */
  lemma {:induction false} ZeroStart(sig: Line, stream: Line, k: nat)
    requires k < |sig| && sig[0] == 0
    ensures !StreamRow(sig, stream).stages[k]
    decreases |stream|, k
  {
    hide StreamRow;
    if stream == [] {
      StreamStart(sig);
    } else {
      var init, b := stream[..|stream| - 1], LastByte(stream);
      assert stream == init + [b];
      ZeroStart(sig, init, k);
      if k > 0 {
        ZeroStart(sig, init, k - 1);
      }
      StageStep(sig, init, b, k);
    }
  }

  /** Only a reachable comparator is ever high, on any stream, zeros included. */
  lemma Unreached(sig: Line, stream: Line, k: nat)
    requires Ordinary(sig) && k < |sig| && !Reachable(sig, k)
    ensures !StreamRow(sig, stream).stages[k]
  {
    hide StreamRow;
    if sig[0] == 0 {
      ZeroStart(sig, stream, k);
    } else {
      HighExplained(sig, stream);
      assert Explained(sig, StreamRow(sig, stream), LastByte(stream), k);
    }
  }

  lemma {:induction false} NeverLatched(sig: Line, stream: Line)
    requires Ordinary(sig) && !Reachable(sig, |sig| - 1)
    ensures !StreamRow(sig, stream).latched
  {
    hide StreamRow, Reachable;
    if stream == [] {
      StreamStart(sig);
    } else {
      var init, b := stream[..|stream| - 1], LastByte(stream);
      assert stream == init + [b];
      NeverLatched(sig, init);
      LatchStep(sig, init, b);
      Unreached(sig, init, |sig| - 1);
      Unreached(sig, stream, |sig| - 1);
    }
  }

  /** Comparator `k` is high after some stream exactly when the recursion on the signature says so. */
  lemma ReachIff(hexList: seq<string>, i: nat, k: nat, limit: nat)
    requires Admissible(hexList) && i < |hexList| && limit >= 6 && k < |Signature(hexList, i)|
    requires Ordinary(Signature(hexList, i))
    ensures (exists stream: Line :: CompareHigh(hexList, i, k, stream, limit)) <==> Reachable(Signature(hexList, i), k)
  {
    hide CompareHigh, StreamRow, Dense, Continues;
    var sig := Signature(hexList, i);
    if Reachable(sig, k) {
      DenseEmpty();
      var stream := MakeHigh(sig, k, [], 0);
      CompareRow(hexList, i, k, stream, limit);
    } else {
      forall stream: Line ensures !CompareHigh(hexList, i, k, stream, limit) {
        CompareRow(hexList, i, k, stream, limit);
        Unreached(sig, stream, k);
      }
    }
  }

  /** And a signature is reported after some stream exactly when its last comparator can be reached. */
  lemma DetectableIff(hexList: seq<string>, i: nat, limit: nat)
    requires Admissible(hexList) && i < |hexList| && limit >= 6 && Ordinary(Signature(hexList, i))
    ensures (exists stream: Line :: TriggeredDetects(hexList, i, stream, limit)) <==>
            Reachable(Signature(hexList, i), |Signature(hexList, i)| - 1)
  {
    hide TriggeredDetects, StreamRow, Dense, Continues, Reachable;
    var sig := Signature(hexList, i);
    if Reachable(sig, |sig| - 1) {
      DenseEmpty();
      ReachableOrdinary(sig, |sig| - 1);
      var stream := MakeHigh(sig, |sig| - 1, [], 0);
      HeldLatched(sig, stream);
      DetectsRow(hexList, i, stream, limit);
    } else {
      forall stream: Line ensures !TriggeredDetects(hexList, i, stream, limit) {
        DetectsRow(hexList, i, stream, limit);
        NeverLatched(sig, stream);
      }
    }
  }

  /** "xyyy" is never reported, "karri" is, although neither can go by without a repeated byte. */
  lemma DoubledReported(limit: nat)
    requires limit >= 6
    ensures var hexList := ["78797979", "6b61727269"];
            && Admissible(hexList)
            && (forall stream: Line :: !TriggeredDetects(hexList, 0, stream, limit))
            && (exists stream: Line :: TriggeredDetects(hexList, 1, stream, limit))
  {
    hide TriggeredDetects, Decode, Reachable;
    var hexList := ["78797979", "6b61727269"];
    XyyySpelled();
    KarriSpelled();
    DoubledReachable();
    DetectableIff(hexList, 0, limit);
    DetectableIff(hexList, 1, limit);
  }

  lemma XyyySpelled()
    ensures HexText("78797979") && Decode("78797979") == [0x78, 0x79, 0x79, 0x79]
  {
    hide Decode, HexText;
    NothingSpelled();
    Spelled("", '7', '8', "78");
    Spelled("78", '7', '9', "7879");
    Spelled("7879", '7', '9', "787979");
    Spelled("787979", '7', '9', "78797979");
  }

  lemma KarriSpelled()
    ensures HexText("6b61727269") && Decode("6b61727269") == [0x6b, 0x61, 0x72, 0x72, 0x69]
  {
    hide Decode, HexText;
    NothingSpelled();
    Spelled("", '6', 'b', "6b");
    Spelled("6b", '6', '1', "6b61");
    Spelled("6b61", '7', '2', "6b6172");
    Spelled("6b6172", '7', '2', "6b617272");
    Spelled("6b617272", '6', '9', "6b61727269");
  }

  lemma DoubledReachable()
    ensures !Reachable([0x78, 0x79, 0x79, 0x79], 3) && Reachable([0x6b, 0x61, 0x72, 0x72, 0x69], 4)
  {
    var xyyy, karri := [0x78, 0x79, 0x79, 0x79], [0x6b, 0x61, 0x72, 0x72, 0x69];
    assert !Free(xyyy, 3) && !Free(xyyy, 2);
    assert Free(karri, 1);
    assert Free(karri, 2);
    assert Free(karri, 4);
  }

  lemma ReachableOrdinary(sig: Line, k: nat)
    requires Ordinary(sig) && k < |sig| && Reachable(sig, k)
    ensures 0 !in sig
  {}

  // ----- The two compilers on the same bytes -----

  /** They agree on every stream, zeros deleted for the clocked one, exactly on one-byte signatures and on those that
      begin with a zero byte, which neither of them can see. */
  lemma AgreeIff(hexList: seq<string>, i: nat, limit: nat)
    requires Admissible(hexList) && i < |hexList| && limit >= 6 && Ordinary(Signature(hexList, i))
    ensures (forall stream: Line :: TriggeredDetects(hexList, i, stream, limit) <==>
                                    C.ClockedDetects(hexList, i, DeleteZeros(stream), limit))
            <==> |Signature(hexList, i)| == 1 || Signature(hexList, i)[0] == 0
  {
    hide Occurs, TriggeredDetects, C.ClockedDetects, StreamRow, DeleteZeros;
    var sig := Signature(hexList, i);
    if |sig| == 1 || sig[0] == 0 {
      forall stream: Line ensures TriggeredDetects(hexList, i, stream, limit) <==>
                                  C.ClockedDetects(hexList, i, DeleteZeros(stream), limit)
      {
        DetectsRow(hexList, i, stream, limit);
        C.ClockedDetectsExactly(hexList, i, DeleteZeros(stream), limit);
        if sig[0] == 0 {
          NeverLatched(sig, stream);
          ZerosGone(stream);
          ZeroNeverOccurs(sig, DeleteZeros(stream));
        } else {
          SingleByte(sig, stream);
        }
      }
    } else {
      var stream := ZeroSeparated(sig);
      ZeroSeparatedDeleted(sig);
      SeparatedDeaf(sig, sig);
      DetectsRow(hexList, i, stream, limit);
      C.ClockedDetectsExactly(hexList, i, sig, limit);
      OccursItself(sig);
      assert !(TriggeredDetects(hexList, i, stream, limit) <==>
               C.ClockedDetects(hexList, i, DeleteZeros(stream), limit));
    }
  }

  // ----- Data without zeros and without repetitions -----

  lemma DenseFactor(sig: Line, stream: Line)
    requires Dense(stream) && (Occurs(sig, stream) || EndsWith(stream, sig))
    ensures Dense(sig)
  {
    var p := |stream|;
    assert stream[..p] == stream;
    if !EndsWith(stream, sig) {
      p :| 0 <= p <= |stream| && EndsWith(stream[..p], sig);
    }
    var start := p - |sig|;
    forall j | 0 <= j < |sig| ensures sig[j] == stream[start + j] {
      assert stream[..p][start..][j] == stream[start + j];
    }
    forall b | b in sig ensures b in stream {
      var j :| 0 <= j < |sig| && sig[j] == b;
      assert stream[start + j] == b;
    }
    forall t | 0 < t < |sig| ensures sig[t - 1] != sig[t] {
      assert stream[start + t - 1] != stream[start + t];
    }
  }

  /** Every comparator but the first that can be driven high at all is driven high although its bytes have not gone by. */
  lemma FalseMatch(sig: Line, k: nat) returns (stream: Line)
    requires 1 <= k < |sig| && 0 !in sig && Reachable(sig, k)
    ensures Dense(stream) && StreamRow(sig, stream).stages[k] && !EndsWith(stream, sig[..k + 1])
    ensures k >= 2 ==> !Occurs(sig[..k + 1], stream)
  {
    hide StreamRow, Dense, Occurs, EndsWith, Continues;
    var prefix := sig[..k + 1];
    if Dense(prefix) {
      stream := FalseDenseMatch(sig, k);
    } else {
      DenseEmpty();
      stream := MakeHigh(sig, k, [], 0);
      if EndsWith(stream, prefix) || Occurs(prefix, stream) {
        DenseFactor(prefix, stream);
      }
    }
  }

  lemma FalseDenseMatch(sig: Line, k: nat) returns (stream: Line)
    requires 1 <= k < |sig| && 0 !in sig && Dense(sig[..k + 1])
    ensures Dense(stream) && StreamRow(sig, stream).stages[k] && !EndsWith(stream, sig[..k + 1])
    ensures k >= 2 ==> !Occurs(sig[..k + 1], stream)
  {
    hide StreamRow, Occurs, EndsWith;
    var prefix := sig[..k + 1];
    assert prefix[0] == sig[0] && prefix[1] == sig[1] && prefix[..k + 1] == prefix;
    assert prefix[0] != prefix[1];
    forall b | b in prefix ensures b in sig {}
    DenseTail(prefix);
    var x := FreshByte(sig[0], sig[1], if k >= 2 then sig[2] else 0);
    stream := Intruded(prefix, x, k + 1);
    IntrudedHeld(prefix, x, k + 1);
    IntrudedNot(prefix, x, k + 1);
    PrefixRow(sig, k + 1, stream);
  }

  lemma PrefixRow(sig: Line, m: nat, stream: Line)
    requires 1 <= m <= |sig|
    ensures StreamRow(sig[..m], stream).stages == StreamRow(sig, stream).stages[..m]
  {
    PrefixStages(sig, m, Feed(stream));
  }

  lemma DenseTail(sig: Line)
    requires |sig| >= 2 && Dense(sig)
    ensures Dense(sig[2..])
  {
    forall b | b in sig[2..] ensures b in sig {}
    assert forall t :: 0 <= t < |sig| - 2 ==> sig[2..][t] == sig[t + 2];
  }

  /** No occurrence is missed: a comparator holds whenever its prefix of the signature has just gone by. */
  lemma {:induction false} DenseComplete(sig: Line, stream: Line)
    requires sig != [] && 0 !in sig && Dense(stream)
    ensures forall k :: 0 <= k < |sig| && EndsWith(stream, sig[..k + 1]) ==> StreamRow(sig, stream).stages[k]
    ensures Occurs(sig, stream) ==> StreamRow(sig, stream).latched
  {
    hide StreamRow, Occurs, EndsWith, Dense;
    if stream == [] {
      OccursEmpty(sig);
      forall k | 0 <= k < |sig| ensures EndsWith(stream, sig[..k + 1]) ==> StreamRow(sig, stream).stages[k] {
        EndsWithNothing(sig, k);
      }
    } else {
      var init, b := stream[..|stream| - 1], LastByte(stream);
      assert stream == init + [b];
      DenseAppend(init, b);
      DenseComplete(sig, init);
      OccursAppend(sig, init, b);
      LatchStep(sig, init, b);
      HeldLatched(sig, stream);
      forall k | 0 <= k < |sig| && EndsWith(stream, sig[..k + 1]) ensures StreamRow(sig, stream).stages[k] {
        EndsWithAppend(init, sig, k, b);
        DenseStep(sig, init, b, k);
        if k > 0 {
          assert EndsWith(init, sig[..(k - 1) + 1]);
          EndsWithNothing(sig, k - 1);
        }
      }
      assert sig[..|sig|] == sig;
    }
  }

  lemma EndsWithNothing(sig: Line, k: nat)
    requires k < |sig|
    ensures !EndsWith([], sig[..k + 1])
  {}

  /** With at most two bytes nothing else is detected. */
  lemma {:induction false} DenseSound(sig: Line, stream: Line)
    requires 1 <= |sig| <= 2 && 0 !in sig && Dense(stream)
    ensures StreamRow(sig, stream).latched ==> Occurs(sig, stream)
    ensures |sig| == 2 && StreamRow(sig, stream).stages[1] ==> Occurs(sig, stream)
  {
    hide StreamRow, Occurs, EndsWith, Dense;
    if stream == [] {
      StreamStart(sig);
    } else {
      var init, b := stream[..|stream| - 1], LastByte(stream);
      assert stream == init + [b] && sig[0] in sig;
      DenseAppend(init, b);
      DenseSound(sig, init);
      LatchStep(sig, init, b);
      OccursAppend(sig, init, b);
      FirstStage(sig, init);
      FirstStage(sig, stream);
      HeldLatched(sig, init);
      EndsWithLast(sig, init, b);
      DenseLast(init);
      if |sig| == 2 {
        DenseStep(sig, init, b, 1);
      }
    }
  }

  lemma DenseLast(stream: Line)
    requires Dense(stream)
    ensures LastByte(stream) != 0 <==> stream != []
  {
    assert stream != [] ==> LastByte(stream) in stream;
  }

  lemma EndsWithLast(sig: Line, init: Line, b: Byte)
    requires 1 <= |sig| <= 2
    ensures |sig| == 1 && b == sig[0] ==> EndsWith(init + [b], sig)
    ensures |sig| == 2 && init != [] && LastByte(init) == sig[0] && b == sig[1] ==> EndsWith(init + [b], sig)
  {}

  /** On such data the two compilers agree exactly on signatures of at most two bytes and on those whose last comparator
      cannot be reached, which neither of them can see. */
  lemma DenseAgreeIff(hexList: seq<string>, i: nat, limit: nat)
    requires Admissible(hexList) && i < |hexList| && limit >= 6 && Ordinary(Signature(hexList, i))
    ensures (forall stream: Line :: Dense(stream) ==>
               (TriggeredDetects(hexList, i, stream, limit) <==> C.ClockedDetects(hexList, i, stream, limit)))
            <==> |Signature(hexList, i)| <= 2 || !Reachable(Signature(hexList, i), |Signature(hexList, i)| - 1)
  {
    hide Occurs, TriggeredDetects, C.ClockedDetects, Dense, StreamRow, Reachable;
    var sig := Signature(hexList, i);
    if |sig| <= 2 || !Reachable(sig, |sig| - 1) {
      forall stream: Line | Dense(stream)
        ensures TriggeredDetects(hexList, i, stream, limit) <==> C.ClockedDetects(hexList, i, stream, limit)
      {
        BothDetect(hexList, i, sig, stream, limit);
        DenseExact(sig, stream);
      }
    } else {
      ReachableOrdinary(sig, |sig| - 1);
      var stream := FalseDetection(sig);
      BothDetect(hexList, i, sig, stream, limit);
      assert TriggeredDetects(hexList, i, stream, limit) && !C.ClockedDetects(hexList, i, stream, limit);
    }
  }

  /** What each of the two finds in a stream without zeros. */
  lemma BothDetect(hexList: seq<string>, i: nat, sig: Line, stream: Line, limit: nat)
    requires Admissible(hexList) && i < |hexList| && limit >= 6 && sig == Signature(hexList, i) && sig != []
    ensures TriggeredDetects(hexList, i, stream, limit) <==> StreamRow(sig, stream).latched
    ensures C.ClockedDetects(hexList, i, stream, limit) <==> Occurs(sig, stream)
  {
    hide Occurs, TriggeredDetects, C.ClockedDetects, StreamRow, Signature;
    DetectsRow(hexList, i, stream, limit);
    C.ClockedDetectsExactly(hexList, i, stream, limit);
  }

  lemma DenseExact(sig: Line, stream: Line)
    requires Ordinary(sig) && Dense(stream) && (|sig| <= 2 || !Reachable(sig, |sig| - 1))
    ensures StreamRow(sig, stream).latched <==> Occurs(sig, stream)
  {
    hide Occurs, Dense, StreamRow;
    if sig[0] == 0 {
      NeverLatched(sig, stream);
      DenseZeros(stream);
      ZeroNeverOccurs(sig, stream);
    } else {
      DenseComplete(sig, stream);
      if |sig| <= 2 {
        DenseSound(sig, stream);
      } else {
        NeverLatched(sig, stream);
      }
    }
  }

  lemma FalseDetection(sig: Line) returns (stream: Line)
    requires |sig| > 2 && 0 !in sig && Reachable(sig, |sig| - 1)
    ensures Dense(stream) && StreamRow(sig, stream).latched && !Occurs(sig, stream)
  {
    hide Occurs, Dense, StreamRow, Reachable;
    assert sig[..|sig|] == sig;
    stream := FalseMatch(sig, |sig| - 1);
    HeldLatched(sig, stream);
  }

  /** On such data no occurrence is ever missed, whatever the signature. */
  lemma DenseNoMiss(hexList: seq<string>, i: nat, stream: Line, limit: nat)
    requires Admissible(hexList) && i < |hexList| && limit >= 6 && Dense(stream)
    ensures C.ClockedDetects(hexList, i, stream, limit) ==> TriggeredDetects(hexList, i, stream, limit)
  {
    hide Occurs, TriggeredDetects, C.ClockedDetects, StreamRow;
    var sig := Signature(hexList, i);
    StagesSignature(hexList, i);
    DetectsRow(hexList, i, stream, limit);
    C.ClockedDetectsExactly(hexList, i, stream, limit);
    if 0 in sig {
      DenseZeros(stream);
      ZeroNeverOccurs(sig, stream);
    } else {
      DenseComplete(sig, stream);
    }
  }

  // ----- What a comparator stands for -----

  /** Whether the simulated comparator `k` of signature `i` is high after the stream. */
  ghost predicate CompareHigh(hexList: seq<string>, i: nat, k: nat, stream: Line, limit: nat)
    requires Admissible(hexList) && i < |hexList| && limit >= 6
  {
    After(hexList, Feed(stream), limit, CmpName(hexList, i, k)) == High
  }

  lemma CompareRow(hexList: seq<string>, i: nat, k: nat, stream: Line, limit: nat)
    requires Admissible(hexList) && i < |hexList| && limit >= 6 && k < |Signature(hexList, i)|
    ensures CompareHigh(hexList, i, k, stream, limit) <==> StreamRow(Signature(hexList, i), stream).stages[k]
  {
    hide Show, After, RunRow, CmpName, Feed;
    StageSignal(hexList, Feed(stream), limit, i, k);
  }

  /** Comparator `k` is high exactly when the last k+1 bytes other than zero are the first k+1 of the signature: true of
      comparator 0 on every stream, and of no other one unless the signature begins with a zero byte. */
  lemma ChainInvariantIff(hexList: seq<string>, i: nat, k: nat, limit: nat)
    requires Admissible(hexList) && i < |hexList| && limit >= 6 && k < |Signature(hexList, i)|
    requires Ordinary(Signature(hexList, i))
    ensures (forall stream: Line :: CompareHigh(hexList, i, k, stream, limit) <==>
                                    EndsWith(DeleteZeros(stream), Signature(hexList, i)[..k + 1]))
            <==> k == 0 || Signature(hexList, i)[0] == 0
  {
    hide CompareHigh, EndsWith, StreamRow, DeleteZeros, Occurs;
    var sig := Signature(hexList, i);
    var prefix := sig[..k + 1];
    if k == 0 || sig[0] == 0 {
      forall stream: Line ensures CompareHigh(hexList, i, k, stream, limit) <==> EndsWith(DeleteZeros(stream), prefix) {
        CompareRow(hexList, i, k, stream, limit);
        if sig[0] == 0 {
          ZeroStart(sig, stream, k);
          ZerosGone(stream);
          assert prefix[0] in prefix;
          ZeroNeverOccurs(prefix, DeleteZeros(stream));
        } else {
          FirstStage(sig, stream);
        }
      }
    } else {
      forall b | b in prefix ensures b in sig {}
      var stream := ZeroSeparated(prefix);
      ZeroSeparatedDeleted(prefix);
      SeparatedDeaf(sig, prefix);
      CompareRow(hexList, i, k, stream, limit);
      EndsWithItself(prefix);
      assert !(CompareHigh(hexList, i, k, stream, limit) <==> EndsWith(DeleteZeros(stream), prefix));
    }
  }

  lemma EndsWithItself(sig: Line)
    ensures EndsWith(sig, sig)
  {}

  /** On data without zeros and repetitions: again comparator 0 alone, and those that are never high. */
  lemma DenseChainIff(hexList: seq<string>, i: nat, k: nat, limit: nat)
    requires Admissible(hexList) && i < |hexList| && limit >= 6 && k < |Signature(hexList, i)|
    requires Ordinary(Signature(hexList, i))
    ensures (forall stream: Line :: Dense(stream) ==>
               (CompareHigh(hexList, i, k, stream, limit) <==> EndsWith(stream, Signature(hexList, i)[..k + 1])))
            <==> k == 0 || !Reachable(Signature(hexList, i), k)
  {
    hide CompareHigh, EndsWith, StreamRow, Dense, Reachable;
    var sig := Signature(hexList, i);
    if k == 0 || !Reachable(sig, k) {
      forall stream: Line | Dense(stream)
        ensures CompareHigh(hexList, i, k, stream, limit) <==> EndsWith(stream, sig[..k + 1])
      {
        CompareRow(hexList, i, k, stream, limit);
        DenseMeaning(sig, k, stream);
      }
    } else {
      ReachableOrdinary(sig, k);
      var stream := FalseMatch(sig, k);
      CompareRow(hexList, i, k, stream, limit);
      assert !(CompareHigh(hexList, i, k, stream, limit) <==> EndsWith(stream, sig[..k + 1]));
    }
  }

  lemma DenseMeaning(sig: Line, k: nat, stream: Line)
    requires Ordinary(sig) && k < |sig| && Dense(stream) && (k == 0 || !Reachable(sig, k))
    ensures StreamRow(sig, stream).stages[k] <==> EndsWith(stream, sig[..k + 1])
  {
    hide EndsWith, StreamRow, Dense, Occurs;
    DenseZeros(stream);
    if sig[0] == 0 {
      ZeroStart(sig, stream, k);
      assert sig[..k + 1][0] in sig[..k + 1];
      ZeroNeverOccurs(sig[..k + 1], stream);
    } else if k == 0 {
      FirstStage(sig, stream);
    } else {
      DenseComplete(sig, stream);
      Unreached(sig, stream, k);
    }
  }

  lemma DenseZeros(stream: Line)
    requires Dense(stream)
    ensures 0 !in stream && DeleteZeros(stream) == stream
  {
    NothingDeleted(stream);
  }

  // ----- Inserting zeros -----

  /** Zero bytes in the data never change what is detected exactly for signatures of one byte and for those that are
      never detected. */
  lemma ZerosIrrelevantIff(hexList: seq<string>, i: nat, limit: nat)
    requires Admissible(hexList) && i < |hexList| && limit >= 6 && Ordinary(Signature(hexList, i))
    ensures (forall stream: Line :: TriggeredDetects(hexList, i, stream, limit) <==>
                                    TriggeredDetects(hexList, i, DeleteZeros(stream), limit))
            <==> |Signature(hexList, i)| == 1 || !Reachable(Signature(hexList, i), |Signature(hexList, i)| - 1)
  {
    hide TriggeredDetects, StreamRow, DeleteZeros, Reachable;
    var sig := Signature(hexList, i);
    if |sig| == 1 || !Reachable(sig, |sig| - 1) {
      forall stream: Line ensures TriggeredDetects(hexList, i, stream, limit) <==>
                                  TriggeredDetects(hexList, i, DeleteZeros(stream), limit)
      {
        DetectsRow(hexList, i, stream, limit);
        DetectsRow(hexList, i, DeleteZeros(stream), limit);
        ZerosDeletedSame(sig, stream);
      }
    } else {
      ReachableOrdinary(sig, |sig| - 1);
      var data := SpoiltByZeros(sig);
      var stream := ZeroSeparated(data);
      DetectsRow(hexList, i, stream, limit);
      DetectsRow(hexList, i, data, limit);
      assert !(TriggeredDetects(hexList, i, stream, limit) <==>
               TriggeredDetects(hexList, i, DeleteZeros(stream), limit));
    }
  }

  lemma ZerosDeletedSame(sig: Line, stream: Line)
    requires Ordinary(sig) && (|sig| == 1 || !Reachable(sig, |sig| - 1))
    ensures StreamRow(sig, stream).latched <==> StreamRow(sig, DeleteZeros(stream)).latched
  {
    hide StreamRow, DeleteZeros, Occurs, Reachable;
    if !Reachable(sig, |sig| - 1) {
      NeverLatched(sig, stream);
      NeverLatched(sig, DeleteZeros(stream));
    } else {
      ReachableOrdinary(sig, 0);
      assert sig[0] in sig;
      SingleByte(sig, stream);
      SingleByte(sig, DeleteZeros(stream));
      DeleteZerosTwice(stream);
    }
  }

  /** Data that is detected, but not with a zero after every byte. */
  lemma SpoiltByZeros(sig: Line) returns (data: Line)
    requires |sig| >= 2 && 0 !in sig && Reachable(sig, |sig| - 1)
    ensures StreamRow(sig, data).latched && DeleteZeros(ZeroSeparated(data)) == data
    ensures !StreamRow(sig, ZeroSeparated(data)).latched
  {
    hide StreamRow, DeleteZeros, Dense, Reachable, Continues;
    DenseEmpty();
    data := MakeHigh(sig, |sig| - 1, [], 0);
    HeldLatched(sig, data);
    DenseZeros(data);
    ZeroSeparatedDeleted(data);
    SeparatedDeaf(sig, data);
  }

  lemma {:induction false} DeleteZerosTwice(stream: Line)
    ensures DeleteZeros(DeleteZeros(stream)) == DeleteZeros(stream)
  {
    ZerosGone(stream);
    NothingDeleted(DeleteZeros(stream));
  }

  lemma {:induction false} ZerosGone(stream: Line)
    ensures 0 !in DeleteZeros(stream)
  {
    if stream != [] {
      ZerosGone(stream[..|stream| - 1]);
    }
  }
}
