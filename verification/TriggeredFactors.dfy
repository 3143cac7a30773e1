/** Signatures inside signatures, as "at" in "cat": when the data-triggered detector that reports the longer one also
    reports the shorter. */
module TriggeredFactors {
  import opened Bytes
  import opened Vhdl
  import opened Names
  import opened Hex
  import opened Signatures
  import opened Streams
  import opened TriggeredChain
  import opened TriggeredStreams
  import opened TriggeredPaths
  import opened TriggeredTheorems

  // ----- What is kept on every run -----

  /** A prefix, and any single byte, of a signature that has been reported has been reported too: at every moment of
      every run, whatever happens on the ports. */
  lemma FactorKept(hexList: seq<string>, a: nat, b: nat, p: nat, q: nat, trace: seq<Pins>, limit: nat)
    requires Run(hexList, trace, limit) && a < |hexList| && b < |hexList|
    requires p < q <= |Signature(hexList, b)| && Signature(hexList, a) == Signature(hexList, b)[p..q]
    requires p == 0 || (q == p + 1 && Signature(hexList, b)[p] != 0)
    ensures After(hexList, trace, limit, Output(b)) == High ==> After(hexList, trace, limit, Output(a)) == High
  {
    hide Show, After, RunRow;
    var whole := Signature(hexList, b);
    OutputSignal(hexList, trace, limit, a);
    OutputSignal(hexList, trace, limit, b);
    if p == 0 {
      assert whole[p..q] == whole[..q];
      PrefixLatched(whole, q, trace);
    } else {
      assert whole[p..q] == [whole[p]];
      ByteLatched(whole, p, trace);
    }
  }

  // ----- What is lost -----

  /** The signature can be parted behind byte `p`: comparator `p` can be held there over a foreign byte, byte p+1 is new,
      and on the way from there to the end nothing repeats itself, nor do the two bytes follow each other again. */
  ghost predicate Partable(sig: Line, p: nat)
    requires p + 1 < |sig|
  {
    0 !in sig && Free(sig, p) && sig[p + 1] !in sig[..p + 1] && Dense(sig[p + 1..])
    && NoPair(sig[p + 1..], sig[p], sig[p + 1])
  }

  ghost predicate Distinct(sig: Line) {
    0 !in sig && forall j, k :: 0 <= j < k < |sig| ==> sig[j] != sig[k]
  }

  lemma {:induction false} DistinctFree(sig: Line, j: nat)
    requires Distinct(sig) && 1 <= j < |sig|
    ensures Free(sig, j)
  {
    if j > 1 {
      DistinctFree(sig, j - 1);
    }
  }

  /** A signature of different bytes can be parted anywhere behind its first one. */
  lemma DistinctPartable(sig: Line, p: nat)
    requires Distinct(sig) && 1 <= p < |sig| - 1
    ensures Partable(sig, p)
  {
    DistinctFree(sig, p);
    var tail := sig[p + 1..];
    forall b | b in tail ensures b in sig {}
    assert forall t :: 0 <= t < |tail| ==> tail[t] == sig[p + 1 + t];
  }

  /** Bytes `c` and `d` never follow each other. */
  ghost predicate NoPair(stream: Line, c: Byte, d: Byte) {
    forall t :: 0 < t < |stream| ==> !(stream[t - 1] == c && stream[t] == d)
  }

  /** A row whose first two bytes never follow each other gets no further than its first comparator. */
  lemma {:induction false} PairNeeded(sig: Line, stream: Line)
    requires |sig| >= 2 && 0 !in sig && NoPair(stream, sig[0], sig[1])
    ensures var row := StreamRow(sig, stream); !row.latched && forall k :: 1 <= k < |sig| ==> !row.stages[k]
  {
    hide StreamRow;
    if stream == [] {
      StreamStart(sig);
    } else {
      var init, b := stream[..|stream| - 1], LastByte(stream);
      assert stream == init + [b] && sig[0] in sig;
      assert forall t :: 0 <= t < |init| ==> init[t] == stream[t];
      PairNeeded(sig, init);
      FirstStage(sig, init);
      LatchStep(sig, init, b);
      forall k | 1 <= k < |sig| ensures !StreamRow(sig, stream).stages[k] {
        StageStep(sig, init, b, k);
      }
    }
  }

  /** A stream that leads to comparator `p`, a foreign byte, and the rest of the signature up to byte `m`. */
  function Broken(sig: Line, loose: Line, p: nat, x: Byte, m: nat): Line
    requires p < m <= |sig|
  {
    loose + [x] + sig[p + 1..m]
  }

  lemma BrokenAppend(sig: Line, loose: Line, p: nat, x: Byte, m: nat)
    requires p + 2 <= m <= |sig|
    ensures Broken(sig, loose, p, x, m - 1) != []
    ensures Broken(sig, loose, p, x, m) == Broken(sig, loose, p, x, m - 1) + [sig[m - 1]]
  {
    assert sig[p + 1..m] == sig[p + 1..m - 1] + [sig[m - 1]];
  }

  lemma LooseOver(sig: Line, p: nat, loose: Line, x: Byte)
    requires 1 <= p < |sig| && Loose(sig, p, loose) && x != 0 && x != sig[p]
    ensures Dense(loose + [x]) && StreamRow(sig, loose + [x]).stages[p]
  {
    hide StreamRow, Dense;
    DenseAppend(loose, x);
    DenseStep(sig, loose, x, p);
  }

  /** The whole signature is matched in spite of the foreign byte. */
  lemma {:induction false} BrokenHeld(sig: Line, loose: Line, p: nat, x: Byte, m: nat)
    requires 1 <= p && p + 1 < |sig| && p < m <= |sig| && Partable(sig, p) && Loose(sig, p, loose)
    requires x !in {0, sig[p], sig[p + 1]}
    ensures var t := Broken(sig, loose, p, x, m);
            Dense(t) && StreamRow(sig, t).stages[m - 1] && LastByte(t) == if m == p + 1 then x else sig[m - 1]
  {
    hide StreamRow, Dense, Partable, Loose;
    if m == p + 1 {
      LooseOver(sig, p, loose, x);
      assert Broken(sig, loose, p, x, m) == loose + [x];
    } else {
      var init := Broken(sig, loose, p, x, m - 1);
      BrokenHeld(sig, loose, p, x, m - 1);
      BrokenAppend(sig, loose, p, x, m);
      PartableStep(sig, p, m - 1);
      DenseAppend(init, sig[m - 1]);
      DenseStep(sig, init, sig[m - 1], m - 1);
    }
  }

  lemma PartableStep(sig: Line, p: nat, k: nat)
    requires p + 1 <= k < |sig| && Partable(sig, p)
    ensures sig[k] != 0 && (k > p + 1 ==> sig[k] != sig[k - 1])
  {
    assert sig[k] in sig;
    if k > p + 1 {
      assert sig[p + 1..][k - p - 2] != sig[p + 1..][k - p - 1];
    }
  }

  lemma BrokenPair(sig: Line, loose: Line, p: nat, x: Byte)
    requires p + 1 < |sig| && Partable(sig, p) && sig[p + 1] !in loose && x != sig[p] && x != sig[p + 1]
    ensures NoPair(Broken(sig, loose, p, x, |sig|), sig[p], sig[p + 1])
  {
    var t, n, tail := Broken(sig, loose, p, x, |sig|), |loose|, sig[p + 1..];
    forall j | 0 < j < |t| ensures !(t[j - 1] == sig[p] && t[j] == sig[p + 1]) {
      if j < n {
        assert t[j] == loose[j] && loose[j] in loose;
      } else if j == n {
        assert t[j] == x;
      } else if j == n + 1 {
        assert t[j - 1] == x;
      } else {
        assert t[j - 1] == tail[j - n - 2] && t[j] == tail[j - n - 1];
      }
    }
  }

  /** The longer signature is reported, and matches, while a part of two or more bytes from `p` on has never been seen. */
  lemma PartLost(sig: Line, p: nat, q: nat, loose: Line, x: Byte)
    requires 1 <= p && p + 2 <= q <= |sig| && Partable(sig, p) && Loose(sig, p, loose) && sig[p + 1] !in loose
    requires x !in {0, sig[p], sig[p + 1]}
    ensures var t, part := Broken(sig, loose, p, x, |sig|), sig[p..q];
            && Dense(t)
            && StreamRow(sig, t).latched && StreamRow(sig, t).stages[|sig| - 1]
            && !StreamRow(part, t).latched && !StreamRow(part, t).stages[|part| - 1]
  {
    hide StreamRow, NoPair, Dense, Broken, Loose;
    var t, part := Broken(sig, loose, p, x, |sig|), sig[p..q];
    BrokenHeld(sig, loose, p, x, |sig|);
    HeldLatched(sig, t);
    BrokenPair(sig, loose, p, x);
    forall b | b in part ensures b in sig {}
    PairNeeded(part, t);
  }

  lemma PartLostSomewhere(sig: Line, p: nat, q: nat) returns (t: Line)
    requires 1 <= p && p + 2 <= q <= |sig| && Partable(sig, p)
    ensures var part := sig[p..q];
            && StreamRow(sig, t).latched && StreamRow(sig, t).stages[|sig| - 1]
            && !StreamRow(part, t).latched && !StreamRow(part, t).stages[|part| - 1]
  {
    hide StreamRow, Dense, Loose, NoPair;
    DenseEmpty();
    var loose := MakeLoose(sig, p, [], sig[p + 1]);
    var x := FreshByte(sig[p], sig[p + 1], 0);
    PartLost(sig, p, q, loose, x);
    t := Broken(sig, loose, p, x, |sig|);
  }

  /** Whoever reports a signature reports its part from `p` to `q` on every stream exactly when the part is a prefix or
      a single byte, if the signature can be parted behind byte `p`. */
  lemma FactorIff(hexList: seq<string>, a: nat, b: nat, p: nat, q: nat, limit: nat)
    requires Admissible(hexList) && a < |hexList| && b < |hexList| && limit >= 6 && 0 !in Signature(hexList, b)
    requires p < q <= |Signature(hexList, b)| && Signature(hexList, a) == Signature(hexList, b)[p..q]
    requires p >= 1 && q >= p + 2 ==> Partable(Signature(hexList, b), p)
    ensures (forall stream: Line :: TriggeredDetects(hexList, b, stream, limit) ==>
                                    TriggeredDetects(hexList, a, stream, limit))
            <==> p == 0 || q == p + 1
  {
    hide TriggeredDetects, StreamRow, Dense, Partable;
    var sig := Signature(hexList, b);
    if p == 0 || q == p + 1 {
      assert sig[p] in sig;
      forall stream: Line | TriggeredDetects(hexList, b, stream, limit) ensures TriggeredDetects(hexList, a, stream, limit) {
        FactorOnStream(hexList, a, b, p, q, stream, limit);
      }
    } else {
      var t := PartLostSomewhere(sig, p, q);
      DetectsRow(hexList, a, t, limit);
      DetectsRow(hexList, b, t, limit);
      assert TriggeredDetects(hexList, b, t, limit) && !TriggeredDetects(hexList, a, t, limit);
    }
  }

  lemma FactorOnStream(hexList: seq<string>, a: nat, b: nat, p: nat, q: nat, stream: Line, limit: nat)
    requires Admissible(hexList) && a < |hexList| && b < |hexList| && limit >= 6
    requires p < q <= |Signature(hexList, b)| && Signature(hexList, a) == Signature(hexList, b)[p..q]
    requires p == 0 || (q == p + 1 && Signature(hexList, b)[p] != 0)
    requires TriggeredDetects(hexList, b, stream, limit)
    ensures TriggeredDetects(hexList, a, stream, limit)
  {
    hide After, Feed;
    FactorKept(hexList, a, b, p, q, Feed(stream), limit);
  }

  // ----- Suffixes at the same moment -----

  /** The last comparator is not left alone: when it is high the last byte has just gone by. */
  lemma LastGoneBy(sig: Line, stream: Line)
    requires |sig| >= 2 && 0 !in sig && !Free(sig, |sig| - 1)
    ensures var last := |sig| - 1; StreamRow(sig, stream).stages[last] ==> StreamRow([sig[last]], stream).stages[0]
  {
    hide StreamRow, DeleteZeros, EndsWith;
    var last := |sig| - 1;
    assert sig[last] in sig;
    HighExplained(sig, stream);
    assert Explained(sig, StreamRow(sig, stream), LastByte(stream), last);
    FirstStage([sig[last]], stream);
  }

  /** The whole matches at a moment when its suffix does not. */
  lemma SuffixLost(sig: Line, p: nat) returns (t: Line)
    requires 1 <= p < |sig| && 0 !in sig && Free(sig, p) && (p + 1 < |sig| ==> Partable(sig, p))
    ensures StreamRow(sig, t).stages[|sig| - 1] && !StreamRow(sig[p..], t).stages[|sig| - p - 1]
  {
    hide StreamRow, Dense, Broken, NoPair, Loose, Partable;
    if p + 1 < |sig| {
      assert sig[p..|sig|] == sig[p..];
      t := PartLostSomewhere(sig, p, |sig|);
    } else {
      DenseEmpty();
      var loose := MakeLoose(sig, p, [], 0);
      var x := FreshByte(sig[p], 0, 0);
      LooseOver(sig, p, loose, x);
      t := loose + [x];
      assert sig[p..] == [sig[p]] && sig[p] in sig;
      FirstStage(sig[p..], t);
    }
  }

  lemma MatchesLast(hexList: seq<string>, i: nat, sig: Line, t: Line, limit: nat)
    requires Admissible(hexList) && i < |hexList| && limit >= 6 && sig == Signature(hexList, i) && sig != []
    ensures TriggeredMatches(hexList, i, t, limit) <==> StreamRow(sig, t).stages[|sig| - 1]
  {
    hide TriggeredMatches, TriggeredDetects, StreamRow, Signature;
    DetectsRow(hexList, i, t, limit);
  }

  lemma MatchesAlways(hexList: seq<string>, a: nat, b: nat, sig: Line, p: nat, stream: Line, limit: nat)
    requires Admissible(hexList) && a < |hexList| && b < |hexList| && limit >= 6 && 0 !in sig
    requires sig == Signature(hexList, b) && p < |sig| && sig[p..] == Signature(hexList, a)
    requires p == 0 || (p + 1 == |sig| && !Free(sig, p))
    requires TriggeredMatches(hexList, b, stream, limit)
    ensures TriggeredMatches(hexList, a, stream, limit)
  {
    hide TriggeredMatches, StreamRow, Signature;
    MatchesLast(hexList, a, sig[p..], stream, limit);
    MatchesLast(hexList, b, sig, stream, limit);
    if p == 0 {
      assert sig[p..] == sig;
    } else {
      assert sig[p..] == [sig[p]];
      LastGoneBy(sig, stream);
    }
  }

  /** Whoever matches a signature matches its suffix at the same moment exactly when the suffix is all of it, or a single
      byte whose comparator is never left alone. */
  lemma SuffixIff(hexList: seq<string>, a: nat, b: nat, p: nat, limit: nat)
    requires Admissible(hexList) && a < |hexList| && b < |hexList| && limit >= 6 && 0 !in Signature(hexList, b)
    requires p < |Signature(hexList, b)| && Signature(hexList, a) == Signature(hexList, b)[p..]
    requires 1 <= p < |Signature(hexList, b)| - 1 ==> Partable(Signature(hexList, b), p)
    ensures (forall stream: Line :: TriggeredMatches(hexList, b, stream, limit) ==>
                                    TriggeredMatches(hexList, a, stream, limit))
            <==> p == 0 || (p + 1 == |Signature(hexList, b)| && !Free(Signature(hexList, b), p))
  {
    hide TriggeredMatches, StreamRow, Dense, Signature, HexText, NoPair;
    var sig := Signature(hexList, b);
    if p == 0 || (p + 1 == |sig| && !Free(sig, p)) {
      forall stream: Line | TriggeredMatches(hexList, b, stream, limit) ensures TriggeredMatches(hexList, a, stream, limit) {
        MatchesAlways(hexList, a, b, sig, p, stream, limit);
      }
    } else {
      var t := SuffixLost(sig, p);
      MatchesLast(hexList, a, sig[p..], t, limit);
      MatchesLast(hexList, b, sig, t, limit);
      assert TriggeredMatches(hexList, b, t, limit) && !TriggeredMatches(hexList, a, t, limit);
    }
  }

  // ----- An example -----

  /** "cat" is reported on c, a, x, t, and matches there; "at" does neither. */
  lemma CatWithoutAt(limit: nat)
    requires limit >= 6
    ensures var hexList, stream := ["6174", "636174"], [0x63, 0x61, 0x78, 0x74];
            && Admissible(hexList) && Dense(stream)
            && TriggeredDetects(hexList, 1, stream, limit) && TriggeredMatches(hexList, 1, stream, limit)
            && !TriggeredDetects(hexList, 0, stream, limit) && !TriggeredMatches(hexList, 0, stream, limit)
  {
    hide TriggeredDetects, TriggeredMatches, StreamRow, Dense, Decode;
    var hexList, stream := ["6174", "636174"], [0x63, 0x61, 0x78, 0x74];
    CatSpelled();
    CatRows([0x61, 0x74], [0x63, 0x61, 0x74], stream);
    DetectsRow(hexList, 0, stream, limit);
    DetectsRow(hexList, 1, stream, limit);
  }

  lemma CatRows(at: Line, cat: Line, stream: Line)
    requires at == [0x61, 0x74] && cat == [0x63, 0x61, 0x74] && stream == [0x63, 0x61, 0x78, 0x74]
    ensures Dense(stream) && StreamRow(cat, stream).latched && StreamRow(cat, stream).stages[2]
    ensures !StreamRow(at, stream).latched && !StreamRow(at, stream).stages[1]
  {
    hide StreamRow, Dense, Loose, Partable;
    assert at == cat[1..3];
    DistinctPartable(cat, 1);
    CatLoose(cat);
    PartLost(cat, 1, 3, [0x63, 0x61], 0x78);
    assert Broken(cat, [0x63, 0x61], 1, 0x78, 3) == stream;
  }

  lemma CatLoose(cat: Line)
    requires cat == [0x63, 0x61, 0x74]
    ensures Loose(cat, 1, [0x63, 0x61])
  {
    hide StreamRow, Dense;
    var one := [] + [cat[0]];
    assert one + [cat[1]] == [0x63, 0x61];
    DenseEmpty();
    DenseAppend([], cat[0]);
    DenseAppend(one, cat[1]);
    DenseStep(cat, [], cat[0], 0);
    DenseStep(cat, one, cat[1], 0);
    DenseStep(cat, one, cat[1], 1);
  }

  lemma CatSpelled()
    ensures HexText("6174") && HexText("636174")
    ensures Decode("6174") == [0x61, 0x74] && Decode("636174") == [0x63, 0x61, 0x74]
  {
    hide Decode, HexText;
    NothingSpelled();
    Spelled("", '6', '1', "61");
    Spelled("61", '7', '4', "6174");
    Spelled("", '6', '3', "63");
    Spelled("63", '6', '1', "6361");
    Spelled("6361", '7', '4', "636174");
  }
}
