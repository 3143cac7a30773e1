/** Ways through a row of the data-triggered detector: streams without zeros and repetitions, which are what the port
    can show as changes, and how far they can drive the comparators without the signature going by. */
module TriggeredPaths {
  import opened Bytes
  import opened Hex
  import opened Streams
  import opened TriggeredStreams

  ghost predicate Dense(stream: Line) {
    0 !in stream && forall t :: 0 < t < |stream| ==> stream[t - 1] != stream[t]
  }

  lemma DenseAppend(stream: Line, b: Byte)
    ensures Dense(stream + [b]) <==> Dense(stream) && b != 0 && b != LastByte(stream)
  {
    var longer := stream + [b];
    assert longer[|stream|] == b && forall t :: 0 <= t < |stream| ==> longer[t] == stream[t];
    if Dense(longer) {
      assert b in longer;
      forall c | c in stream ensures c in longer {}
      assert stream != [] ==> longer[|longer| - 2] != longer[|longer| - 1];
      assert forall t :: 0 < t < |stream| ==> longer[t - 1] != longer[t];
    }
  }

  /** Every byte of such a stream runs the comparators, and all but the first find an enable. */
  lemma DenseStep(sig: Line, stream: Line, b: Byte, k: nat)
    requires k < |sig| && Dense(stream + [b])
    ensures var row := StreamRow(sig, stream);
            StreamRow(sig, stream + [b]).stages[k] ==
            if k == 0 || (stream != [] && row.stages[k - 1]) then b == sig[k] else row.stages[k]
  {
    hide StreamRow;
    DenseAppend(stream, b);
    assert stream != [] ==> LastByte(stream) in stream;
    StageStep(sig, stream, b, k);
    if stream == [] {
      StreamStart(sig);
    }
  }

  /** A byte that is neither zero nor one of three others. */
  lemma FreshByte(a: Byte, b: Byte, c: Byte) returns (x: Byte)
    ensures x != 0 && x != a && x != b && x != c
  {
    x := if 1 !in {a, b, c} then 1 else if 2 !in {a, b, c} then 2 else if 3 !in {a, b, c} then 3 else 4;
  }

  // ----- A foreign byte behind the second one -----

  /** The first `m` bytes of the signature with a foreign byte after the second one. */
  function Intruded(sig: Line, x: Byte, m: nat): Line
    requires 2 <= m <= |sig|
  {
    [sig[0], sig[1], x] + sig[2..m]
  }

  /** From the third byte on the signature does not repeat itself. */
  ghost predicate Intrudable(sig: Line, x: Byte) {
    |sig| >= 2 && sig[0] != sig[1] && 0 !in sig && Dense(sig[2..]) && x !in {0, sig[0], sig[1]}
    && (|sig| > 2 ==> x != sig[2])
  }

  lemma IntrudedAppend(sig: Line, x: Byte, m: nat)
    requires Intrudable(sig, x) && 2 < m <= |sig|
    ensures Intruded(sig, x, m) == Intruded(sig, x, m - 1) + [sig[m - 1]]
    ensures LastByte(Intruded(sig, x, m - 1)) == if m == 3 then x else sig[m - 2]
    ensures LastByte(Intruded(sig, x, m - 1)) != sig[m - 1] && sig[m - 1] != 0
  {
    assert sig[m - 1] in sig;
    if m > 3 {
      assert sig[2..][m - 4] != sig[2..][m - 3];
    }
  }

  lemma IntrudedTwo(sig: Line, x: Byte)
    requires Intrudable(sig, x)
    ensures var t := Intruded(sig, x, 2); Dense(t) && LastByte(t) == x && StreamRow(sig, t).stages[1]
  {
    hide StreamRow, Dense;
    var one, two := [] + [sig[0]], [] + [sig[0]] + [sig[1]];
    assert sig[0] in sig && sig[1] in sig;
    DenseEmpty();
    DenseAppend([], sig[0]);
    DenseAppend(one, sig[1]);
    DenseAppend(two, x);
    DenseStep(sig, [], sig[0], 0);
    DenseStep(sig, one, sig[1], 0);
    DenseStep(sig, one, sig[1], 1);
    DenseStep(sig, two, x, 1);
    assert two + [x] == Intruded(sig, x, 2);
  }

  lemma DenseEmpty()
    ensures Dense([])
  {}

  /** Comparator 1 keeps its match while the foreign byte goes by, and the chain goes on behind it. */
  lemma {:induction false} IntrudedHeld(sig: Line, x: Byte, m: nat)
    requires Intrudable(sig, x) && 2 <= m <= |sig|
    ensures Dense(Intruded(sig, x, m)) && StreamRow(sig, Intruded(sig, x, m)).stages[m - 1]
  {
    hide StreamRow, Dense, Intrudable, Intruded;
    if m == 2 {
      IntrudedTwo(sig, x);
    } else {
      var init, b := Intruded(sig, x, m - 1), sig[m - 1];
      IntrudedHeld(sig, x, m - 1);
      IntrudedAppend(sig, x, m);
      DenseAppend(init, b);
      DenseStep(sig, init, b, m - 1);
      IntrudedLength(sig, x, m - 1);
    }
  }

  lemma IntrudedLength(sig: Line, x: Byte, m: nat)
    requires 2 <= m <= |sig|
    ensures |Intruded(sig, x, m)| == m + 1
  {}

  /** The foreign byte keeps the first `m` bytes from going by, except when the stream can end with them anyway. */
  lemma IntrudedNot(sig: Line, x: Byte, m: nat)
    requires Intrudable(sig, x) && 2 <= m <= |sig|
    ensures !EndsWith(Intruded(sig, x, m), sig[..m])
    ensures m >= 3 ==> !Occurs(sig[..m], Intruded(sig, x, m))
  {
    var t, prefix := Intruded(sig, x, m), sig[..m];
    EndsElsewhere(t, m + 1, prefix, 0);
    assert t[..m + 1] == t;
    if m >= 3 {
      EndsElsewhere(t, m, prefix, 2);
    }
  }

  lemma EndsElsewhere(stream: Line, p: nat, sig: Line, j: nat)
    requires |sig| <= p <= |stream| && j < |sig| && stream[p - |sig| + j] != sig[j]
    ensures !EndsWith(stream[..p], sig)
  {
    assert stream[..p][p - |sig|..][j] == stream[p - |sig| + j];
  }

  // ----- How far a row can be driven -----

  /** Comparator `j` can be made to hold a match while its predecessor is low, so that the next byte leaves it alone. */
  predicate Free(sig: Line, j: nat)
    requires j < |sig|
  {
    && j >= 1 && sig[j] != sig[j - 1]
    && (j == 1 || Free(sig, j - 2) || (Free(sig, j - 1) && sig[j] != sig[j - 2]))
  }

  /** Comparator `k` can be driven high at all. */
  predicate Reachable(sig: Line, k: nat)
    requires k < |sig|
  {
    sig[0] != 0 && (k == 0 || Free(sig, k) || Free(sig, k - 1))
  }

  ghost predicate Loose(sig: Line, j: nat, stream: Line)
    requires 1 <= j < |sig|
  {
    && stream != [] && Dense(stream) && LastByte(stream) == sig[j]
    && StreamRow(sig, stream).stages[j] && !StreamRow(sig, stream).stages[j - 1]
  }

  /** The stream goes on from `base` with the first `n` bytes of the signature and foreign ones, but not with `avoid`. */
  ghost predicate Continues(sig: Line, n: nat, base: Line, stream: Line, avoid: Byte)
    requires n <= |sig|
  {
    base <= stream && (avoid !in base && avoid !in sig[..n] ==> avoid !in stream)
  }

  lemma ContinuesAppend(sig: Line, n: nat, base: Line, stream: Line, avoid: Byte, b: Byte)
    requires n <= |sig| && Continues(sig, n, base, stream, avoid) && (b in sig[..n] || b != avoid)
    ensures Continues(sig, n, base, stream + [b], avoid)
  {}

  lemma ContinuesOn(sig: Line, m: nat, n: nat, base: Line, middle: Line, stream: Line, avoid: Byte)
    requires m <= n <= |sig| && Continues(sig, m, base, middle, avoid)
    requires middle <= stream && (avoid !in middle && avoid !in sig[..n] ==> avoid !in stream)
    ensures Continues(sig, n, base, stream, avoid)
  {
    forall b | b in sig[..m] ensures b in sig[..n] {
      var k :| 0 <= k < m && sig[k] == b;
      assert sig[..n][k] == b;
    }
  }

  lemma InPrefix(sig: Line, k: nat, n: nat)
    requires k < n <= |sig|
    ensures sig[k] in sig[..n]
  {
    assert sig[..n][k] == sig[k];
  }

  /** With the two comparators before it high, byte `j` raises comparator `j` and lowers its predecessor. */
  lemma Release(sig: Line, j: nat, stream: Line)
    requires 1 <= j < |sig| && 0 !in sig && sig[j] != sig[j - 1] && stream != [] && Dense(stream)
    requires StreamRow(sig, stream).stages[j - 1] && (j == 1 || StreamRow(sig, stream).stages[j - 2])
    requires LastByte(stream) != sig[j]
    ensures Loose(sig, j, stream + [sig[j]])
  {
    hide StreamRow, Dense;
    assert sig[j] in sig;
    DenseAppend(stream, sig[j]);
    DenseStep(sig, stream, sig[j], j);
    DenseStep(sig, stream, sig[j], j - 1);
  }

  /** From a match that is left alone the next comparator is raised beside it, over a foreign byte if it has to be. */
  lemma FromLoose(sig: Line, k: nat, loose: Line, avoid: Byte) returns (stream: Line)
    requires 2 <= k < |sig| && 0 !in sig && Loose(sig, k - 1, loose)
    ensures stream != [] && Dense(stream) && LastByte(stream) == sig[k]
    ensures StreamRow(sig, stream).stages[k] && StreamRow(sig, stream).stages[k - 1]
    ensures Continues(sig, k + 1, loose, stream, avoid)
  {
    hide StreamRow, Dense;
    assert sig[k] in sig;
    InPrefix(sig, k, k + 1);
    var over := loose;
    if sig[k] == sig[k - 1] {
      var y := FreshByte(sig[k - 1], sig[k - 2], avoid);
      over := loose + [y];
      DenseAppend(loose, y);
      DenseStep(sig, loose, y, k - 1);
      DenseStep(sig, loose, y, k - 2);
    }
    stream := over + [sig[k]];
    DenseAppend(over, sig[k]);
    DenseStep(sig, over, sig[k], k);
    DenseStep(sig, over, sig[k], k - 1);
  }

  /** While comparator `j-1` is low comparator `j` is left alone, up to the byte that raises `j-1`. */
  lemma {:induction false} FirstRaised(sig: Line, j: nat, from: Line, to: Line) returns (stream: Line)
    requires 1 <= j < |sig| && 0 !in sig && from != [] && from <= to && Dense(to)
    requires StreamRow(sig, from).stages[j] && !StreamRow(sig, from).stages[j - 1]
    requires StreamRow(sig, to).stages[j - 1]
    ensures from <= stream <= to && Dense(stream) && LastByte(stream) == sig[j - 1]
    ensures StreamRow(sig, stream).stages[j] && StreamRow(sig, stream).stages[j - 1]
    decreases |to| - |from|
  {
    hide StreamRow, Dense;
    assert |from| < |to| by {
      assert |from| == |to| ==> from == to;
    }
    var b := to[|from|];
    var next := from + [b];
    assert next == to[..|from| + 1];
    DenseCut(to, |from| + 1);
    DenseStep(sig, from, b, j);
    DenseStep(sig, from, b, j - 1);
    if StreamRow(sig, next).stages[j - 1] {
      stream := next;
    } else {
      stream := FirstRaised(sig, j, next, to);
    }
  }

  lemma DenseCut(stream: Line, n: nat)
    requires Dense(stream) && n <= |stream|
    ensures Dense(stream[..n])
  {
    forall b | b in stream[..n] ensures b in stream {}
    assert forall t :: 0 <= t < n ==> stream[..n][t] == stream[t];
  }

  lemma FirstHigh(sig: Line, base: Line, avoid: Byte) returns (stream: Line)
    requires sig != [] && sig[0] != 0 && Dense(base)
    ensures stream != [] && Dense(stream) && LastByte(stream) == sig[0] && StreamRow(sig, stream).stages[0]
    ensures Continues(sig, 1, base, stream, avoid)
  {
    hide StreamRow, Dense;
    InPrefix(sig, 0, 1);
    if LastByte(base) == sig[0] {
      stream := base;
      var init := base[..|base| - 1];
      assert base == init + [sig[0]];
      DenseStep(sig, init, sig[0], 0);
    } else {
      stream := base + [sig[0]];
      DenseAppend(base, sig[0]);
      DenseStep(sig, base, sig[0], 0);
    }
  }

  /** Whatever has gone by, a free comparator can be raised and left with its predecessor low. */
  lemma {:induction false} MakeLoose(sig: Line, j: nat, base: Line, avoid: Byte) returns (stream: Line)
    requires j < |sig| && 0 !in sig && Free(sig, j) && Dense(base)
    ensures Loose(sig, j, stream) && Continues(sig, j + 1, base, stream, avoid)
    decreases j, 0
  {
    hide StreamRow, Dense, Continues;
    InPrefix(sig, j, j + 1);
    assert sig[0] in sig;
    var both;
    if j == 1 {
      both := FirstHigh(sig, base, avoid);
      LiftContinues(sig, 1, 2, base, both, avoid);
    } else if Free(sig, j - 2) {
      var loose := MakeLoose(sig, j - 2, base, avoid);
      both := FromLoose(sig, j - 1, loose, avoid);
      JoinContinues(sig, j - 1, j, base, loose, both, avoid);
      LiftContinues(sig, j, j + 1, base, both, avoid);
    } else {
      var loose := MakeLoose(sig, j - 1, base, avoid);
      var high := MakeHigh(sig, j - 2, loose, avoid);
      LooseDense(sig, j - 1, loose);
      ContinuesPrefix(sig, j - 1, loose, high, avoid);
      both := FirstRaised(sig, j - 1, loose, high);
      CutContinues(sig, j - 1, loose, high, both, avoid);
      LiftContinues(sig, j - 1, j, loose, both, avoid);
      JoinContinues(sig, j, j, base, loose, both, avoid);
      LiftContinues(sig, j, j + 1, base, both, avoid);
    }
    Release(sig, j, both);
    stream := both + [sig[j]];
    ContinuesAppend(sig, j + 1, base, both, avoid, sig[j]);
  }

  /** Whatever has gone by, a reachable comparator can be driven high. */
  lemma {:induction false} MakeHigh(sig: Line, k: nat, base: Line, avoid: Byte) returns (stream: Line)
    requires k < |sig| && 0 !in sig && Reachable(sig, k) && Dense(base)
    ensures Dense(stream) && StreamRow(sig, stream).stages[k] && Continues(sig, k + 1, base, stream, avoid)
    decreases k, 1
  {
    hide StreamRow, Dense, Continues;
    if k == 0 {
      stream := FirstHigh(sig, base, avoid);
    } else if Free(sig, k) {
      stream := MakeLoose(sig, k, base, avoid);
      LooseDense(sig, k, stream);
    } else {
      var loose := MakeLoose(sig, k - 1, base, avoid);
      stream := FromLoose(sig, k, loose, avoid);
      JoinContinues(sig, k, k + 1, base, loose, stream, avoid);
    }
  }

  lemma LooseDense(sig: Line, j: nat, stream: Line)
    requires 1 <= j < |sig| && Loose(sig, j, stream)
    ensures Dense(stream) && StreamRow(sig, stream).stages[j]
  {}

  lemma ContinuesPrefix(sig: Line, n: nat, base: Line, stream: Line, avoid: Byte)
    requires n <= |sig| && Continues(sig, n, base, stream, avoid)
    ensures base <= stream
  {}

  lemma LiftContinues(sig: Line, m: nat, n: nat, base: Line, stream: Line, avoid: Byte)
    requires m <= n <= |sig| && Continues(sig, m, base, stream, avoid)
    ensures Continues(sig, n, base, stream, avoid)
  {
    ContinuesOn(sig, m, n, base, stream, stream, avoid);
  }

  lemma JoinContinues(sig: Line, m: nat, n: nat, base: Line, middle: Line, stream: Line, avoid: Byte)
    requires m <= n <= |sig| && Continues(sig, m, base, middle, avoid) && Continues(sig, n, middle, stream, avoid)
    ensures Continues(sig, n, base, stream, avoid)
  {
    ContinuesOn(sig, m, n, base, middle, stream, avoid);
  }

  lemma CutContinues(sig: Line, n: nat, base: Line, stream: Line, cut: Line, avoid: Byte)
    requires n <= |sig| && Continues(sig, n, base, stream, avoid) && base <= cut <= stream
    ensures Continues(sig, n, base, cut, avoid)
  {
    forall b | b in cut ensures b in stream {}
  }
}
