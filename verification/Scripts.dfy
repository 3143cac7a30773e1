/** `main` of the two scripts, from the lines of the input file on: the sort, which line gets which output port,
    and what the finished detector says about the lines as they were written. */
module Scripts {
  import opened Names
  import opened Hex
  import opened Signatures
  import opened Streams
  import K = ClockedGenerator
  import T = TriggeredGenerator
  import C = ClockedTheorems
  import D = TriggeredTheorems
  import S = TriggeredStreams
  import N = NameLists
  import CI = ClockedIdentifiers
  import TI = TriggeredIdentifiers

  // ----- `sig_list.sort()` -----

  /** Python's order of byte strings. */
  predicate LessEq(a: Line, b: Line) {
    if a == [] then true
    else if b == [] then false
    else if a[0] != b[0] then a[0] < b[0]
    else LessEq(a[1..], b[1..])
  }

  lemma {:induction false} LessEqTotal(a: Line, b: Line)
    ensures LessEq(a, b) || LessEq(b, a)
    ensures LessEq(a, b) && LessEq(b, a) ==> a == b
  {
    if a != [] && b != [] && a[0] == b[0] {
      LessEqTotal(a[1..], b[1..]);
      assert a == [a[0]] + a[1..] && b == [b[0]] + b[1..];
    }
  }

  lemma {:induction false} LessEqTransitive(a: Line, b: Line, c: Line)
    requires LessEq(a, b) && LessEq(b, c)
    ensures LessEq(a, c)
  {
    if a != [] && a[0] == b[0] && b[0] == c[0] {
      LessEqTransitive(a[1..], b[1..], c[1..]);
    }
  }

  ghost predicate Ordered(lines: seq<Line>) {
    forall a, b :: 0 <= a < b < |lines| ==> LessEq(lines[a], lines[b])
  }

  /** Behind the last line that is not above `x`. */
  function Position(sorted: seq<Line>, x: Line): (p: nat)
    ensures p <= |sorted|
  {
    if sorted == [] || LessEq(sorted[|sorted| - 1], x) then |sorted|
    else Position(sorted[..|sorted| - 1], x)
  }

  function Sorted(lines: seq<Line>): (sorted: seq<Line>)
    ensures |sorted| == |lines|
  {
    if lines == [] then []
    else
      var init, x := Sorted(lines[..|lines| - 1]), lines[|lines| - 1];
      var p := Position(init, x);
      init[..p] + [x] + init[p..]
  }

  lemma {:induction false} PositionSplits(sorted: seq<Line>, x: Line)
    requires Ordered(sorted)
    ensures forall a :: 0 <= a < |sorted| ==>
              if a < Position(sorted, x) then LessEq(sorted[a], x) else LessEq(x, sorted[a])
  {
    if sorted != [] {
      var last := |sorted| - 1;
      LessEqTotal(sorted[last], x);
      if LessEq(sorted[last], x) {
        forall a | 0 <= a < last ensures LessEq(sorted[a], x) {
          LessEqTransitive(sorted[a], sorted[last], x);
        }
      } else {
        PositionSplits(sorted[..last], x);
        assert forall a :: 0 <= a < last ==> sorted[..last][a] == sorted[a];
      }
    }
  }

  lemma InsertOrdered(sorted: seq<Line>, p: nat, x: Line)
    requires Ordered(sorted) && p <= |sorted|
    requires forall a :: 0 <= a < |sorted| ==> if a < p then LessEq(sorted[a], x) else LessEq(x, sorted[a])
    ensures Ordered(sorted[..p] + [x] + sorted[p..])
    ensures multiset(sorted[..p] + [x] + sorted[p..]) == multiset(sorted + [x])
  {
    hide LessEq;
    assert sorted == sorted[..p] + sorted[p..];
    var longer := sorted[..p] + [x] + sorted[p..];
    forall a, b | 0 <= a < b < |longer| ensures LessEq(longer[a], longer[b]) {
      assert a < p ==> longer[a] == sorted[a];
      assert b < p ==> longer[b] == sorted[b];
      assert a > p ==> longer[a] == sorted[a - 1];
      assert b > p ==> longer[b] == sorted[b - 1];
    }
  }

  lemma {:induction false} SortedOrdered(lines: seq<Line>)
    ensures Ordered(Sorted(lines)) && multiset(Sorted(lines)) == multiset(lines)
  {
    hide LessEq, Position;
    if lines != [] {
      var init, x := Sorted(lines[..|lines| - 1]), lines[|lines| - 1];
      SortedOrdered(lines[..|lines| - 1]);
      PositionSplits(init, x);
      InsertOrdered(init, Position(init, x), x);
      assert lines == lines[..|lines| - 1] + [x];
    }
  }

  /** Sorting has one result: whatever algorithm the library uses, an ordered permutation of the lines is
      `Sorted(lines)`. */
  lemma {:induction false} OrderedUnique(a: seq<Line>, b: seq<Line>)
    requires Ordered(a) && Ordered(b) && multiset(a) == multiset(b)
    ensures a == b
  {
    hide LessEq, Ordered;
    if a == [] {
      assert |multiset(b)| == 0;
    } else {
      assert |multiset(a)| == |a| && |multiset(b)| == |b|;
      var last := |a| - 1;
      LastAbove(a, b);
      LastAbove(b, a);
      LessEqTotal(a[last], b[last]);
      WithoutLast(a);
      WithoutLast(b);
      OrderedUnique(a[..last], b[..last]);
    }
  }

  lemma WithoutLast(a: seq<Line>)
    requires a != []
    ensures var last := |a| - 1;
            && a == a[..last] + [a[last]] && multiset(a[..last]) == multiset(a) - multiset{a[last]}
            && (Ordered(a) ==> Ordered(a[..last]))
  {
    var last := |a| - 1;
    assert a == a[..last] + [a[last]];
    assert forall j :: 0 <= j < last ==> a[..last][j] == a[j];
  }

  lemma LastAbove(a: seq<Line>, b: seq<Line>)
    requires Ordered(b) && multiset(a) == multiset(b) && a != [] && |a| == |b|
    ensures LessEq(a[|a| - 1], b[|b| - 1])
  {
    var x := a[|a| - 1];
    assert x in multiset(b);
    var k :| 0 <= k < |b| && b[k] == x;
    LessEqTotal(x, x);
  }

  // ----- Which output belongs to which line -----

  function OutputOf(lines: seq<Line>, p: nat): (i: nat)
    requires p < |lines|
    ensures i < |lines|
  {
    var last := |lines| - 1;
    var at := Position(Sorted(lines[..last]), lines[last]);
    if p == last then at
    else var i := OutputOf(lines[..last], p);
         if i < at then i else i + 1
  }

  lemma {:induction false} OutputOfLine(lines: seq<Line>, p: nat)
    requires p < |lines|
    ensures Sorted(lines)[OutputOf(lines, p)] == lines[p]
  {
    hide Position;
    if p < |lines| - 1 {
      OutputOfLine(lines[..|lines| - 1], p);
    }
  }

  /** Different lines, even equal ones at different places, own different outputs. */
  lemma {:induction false} OutputOfInjective(lines: seq<Line>, p: nat, q: nat)
    requires p < q < |lines|
    ensures OutputOf(lines, p) != OutputOf(lines, q)
  {
    hide Position;
    if q < |lines| - 1 {
      OutputOfInjective(lines[..|lines| - 1], p, q);
    }
  }

  /** `a` and `b` agree on their first `k` bytes, and then `a` ends or has the smaller one. */
  predicate Before(a: Line, b: Line, k: nat) {
    k <= |a| && k < |b| && a[..k] == b[..k] && (k == |a| || a[k] < b[k])
  }

  lemma {:induction false} BeforeNotAfter(a: Line, b: Line, k: nat)
    requires Before(a, b, k)
    ensures !LessEq(b, a)
  {
    if k > 0 {
      assert a[0] == a[..k][0] == b[..k][0] == b[0];
      assert a[1..][..k - 1] == a[..k][1..] && b[1..][..k - 1] == b[..k][1..];
      BeforeNotAfter(a[1..], b[1..], k - 1);
    }
  }

  /** The outputs are numbered in the order of the lines as strings of bytes. */
  lemma SmallerLineFirst(lines: seq<Line>, p: nat, q: nat, k: nat)
    requires p < |lines| && q < |lines|
    requires k <= |lines[p]| && k < |lines[q]| && lines[p][..k] == lines[q][..k]
    requires k == |lines[p]| || lines[p][k] < lines[q][k]
    ensures OutputOf(lines, p) < OutputOf(lines, q)
  {
    hide Sorted, OutputOf, LessEq;
    OutputOfLine(lines, p);
    OutputOfLine(lines, q);
    SortedOrdered(lines);
    BeforeNotAfter(lines[p], lines[q], k);
    LessEqTotal(lines[p], lines[p]);
  }

  /** "cat" comes before "dog", wherever the lines stand. */
  lemma CatBeforeDog()
    ensures var cat, dog := [99, 97, 116, 10], [100, 111, 103, 10];
            Sorted([cat, dog]) == Sorted([dog, cat]) == [cat, dog]
  {
    hide Sorted;
    var cat, dog := [99, 97, 116, 10], [100, 111, 103, 10];
    SmallerOfTwo([cat, dog], 0);
    SmallerOfTwo([dog, cat], 1);
  }

  /** The line with the smaller first byte comes first. */
  lemma SmallerOfTwo(lines: seq<Line>, p: nat)
    requires p < |lines| == 2 && lines[p] != [] && lines[1 - p] != [] && lines[p][0] < lines[1 - p][0]
    ensures Sorted(lines) == [lines[p], lines[1 - p]]
  {
    hide Sorted, OutputOf;
    SmallerLineFirst(lines, p, 1 - p, 0);
    OutputOfLine(lines, p);
    OutputOfLine(lines, 1 - p);
  }

  /** Every output is owned by a line. */
  lemma {:induction false} LineOfOutput(lines: seq<Line>, i: nat) returns (p: nat)
    requires i < |lines|
    ensures p < |lines| && OutputOf(lines, p) == i
  {
    hide Position;
    var last := |lines| - 1;
    var at := Position(Sorted(lines[..last]), lines[last]);
    if i == at {
      p := last;
    } else {
      p := LineOfOutput(lines[..last], if i < at then i else i - 1);
    }
  }

  // ----- What becomes of a file -----

  /** Characters below 0x10 print one digit instead of two. */
  function LowCount(line: Line): nat {
    if line == [] then 0
    else LowCount(line[..|line| - 1]) + (if line[|line| - 1] < 16 then 1 else 0)
  }

  lemma {:induction false} HexLineLength(line: Line)
    ensures |HexLine(line)| == 2 * |line| - LowCount(line)
  {
    if line != [] {
      HexLineLength(line[..|line| - 1]);
    }
  }

  predicate OddDigits(line: Line) {
    LowCount(RStrip(line)) % 2 == 1
  }

  predicate Blank(line: Line) {
    RStrip(line) == []
  }

  /** The first line in order is blank, and the loop variable `j` is read before it is bound. */
  ghost predicate BlankFirst(lines: seq<Line>) {
    exists line :: line in lines && Blank(line) && forall other :: other in lines ==> LessEq(line, other)
  }

  lemma HexListDigits(lines: seq<Line>)
    ensures EvenDigits(HexList(lines)) <==> forall line :: line in lines ==> !OddDigits(line)
  {
    forall i | 0 <= i < |lines| ensures |HexList(lines)[i]| % 2 == 0 <==> !OddDigits(lines[i]) {
      HexLineLength(RStrip(lines[i]));
    }
    if EvenDigits(HexList(lines)) {
      forall line | line in lines ensures !OddDigits(line) {
        var i :| 0 <= i < |lines| && lines[i] == line;
      }
    }
  }

  lemma HexListBlank(lines: seq<Line>, i: nat)
    requires i < |lines|
    ensures HexList(lines)[i] == "" <==> Blank(lines[i])
  {
    HexLineText(RStrip(lines[i]));
  }

  lemma SortedMembers(lines: seq<Line>)
    ensures forall line :: line in Sorted(lines) <==> line in lines
  {
    SortedOrdered(lines);
    forall line ensures line in Sorted(lines) <==> line in lines {
      assert line in Sorted(lines) <==> line in multiset(Sorted(lines));
      assert line in lines <==> line in multiset(lines);
    }
  }

  lemma FirstBlank(lines: seq<Line>)
    ensures lines != [] && HexList(Sorted(lines))[0] == "" <==> BlankFirst(lines)
  {
    hide Sorted, LessEq;
    var sorted := Sorted(lines);
    SortedOrdered(lines);
    SortedMembers(lines);
    if lines != [] {
      HexListBlank(sorted, 0);
      LessEqTotal(sorted[0], sorted[0]);
      assert forall other :: other in sorted ==> LessEq(sorted[0], other);
      assert sorted[0] in sorted;
      if BlankFirst(lines) {
        var line :| line in lines && Blank(line) && forall other :: other in lines ==> LessEq(line, other);
        LessEqTotal(line, sorted[0]);
      }
    }
  }

  /** The clocked script: which exception the lines raise, or the design written for them. */
  method ClockedScript(lines: seq<Line>) returns (r: Result)
    ensures r.TypeError? <==> exists line :: line in lines && OddDigits(line)
    ensures r.UnboundLocalError? <==> !r.TypeError? && BlankFirst(lines)
    ensures r.Written? ==> r.design == K.Compiled(HexList(Sorted(lines)))
  {
    hide K.Compiled, Sorted, OddDigits, BlankFirst, HexLine;
    r := K.Compile(Sorted(lines));
    HexListDigits(Sorted(lines));
    SortedMembers(lines);
    FirstBlank(lines);
  }

  /** The data-triggered script. */
  method TriggeredScript(lines: seq<Line>) returns (r: Result)
    ensures r.TypeError? <==> exists line :: line in lines && OddDigits(line)
    ensures r.UnboundLocalError? <==> !r.TypeError? && BlankFirst(lines)
    ensures r.Written? ==> r.design == T.Compiled(HexList(Sorted(lines)))
  {
    hide T.Compiled, Sorted, OddDigits, BlankFirst, HexLine;
    r := T.Compile(Sorted(lines));
    HexListDigits(Sorted(lines));
    SortedMembers(lines);
    FirstBlank(lines);
  }

  ghost predicate Compilable(lines: seq<Line>) {
    forall line :: line in lines ==> !OddDigits(line) && !Blank(line)
  }

  lemma CompilableAdmissible(lines: seq<Line>)
    requires Compilable(lines)
    ensures Admissible(HexList(Sorted(lines)))
  {
    hide Sorted, LowCount;
    var sorted := Sorted(lines);
    SortedMembers(lines);
    HexListDigits(sorted);
    forall i | 0 <= i < |sorted| ensures HexText(HexList(sorted)[i]) && HexList(sorted)[i] != "" {
      assert sorted[i] in sorted;
      HexLineText(RStrip(sorted[i]));
      HexListBlank(sorted, i);
    }
  }

  /** From the file to the hardware: the output owned by line `p` goes high on exactly the streams that contain the
      line, without its trailing whitespace, if and only if no character of it is below 0x10. */
  lemma LineDetected(lines: seq<Line>, p: nat, limit: nat)
    requires Compilable(lines) && p < |lines| && limit >= 6
    ensures Admissible(HexList(Sorted(lines)))
    ensures (forall stream: Line :: C.ClockedDetects(HexList(Sorted(lines)), OutputOf(lines, p), stream, limit) <==>
                                    Occurs(RStrip(lines[p]), stream))
            <==> TwoDigits(RStrip(lines[p]))
  {
    hide Sorted, OutputOf, Occurs, C.ClockedDetects, RStrip;
    CompilableAdmissible(lines);
    OutputOfLine(lines, p);
    var hexList, i, line := HexList(Sorted(lines)), OutputOf(lines, p), RStrip(lines[p]);
    var sig := Signature(hexList, i);
    HexFaithful(line);
    if TwoDigits(line) {
      forall stream: Line ensures C.ClockedDetects(hexList, i, stream, limit) <==> Occurs(line, stream) {
        C.ClockedDetectsExactly(hexList, i, stream, limit);
      }
    } else {
      C.ClockedDetectsExactly(hexList, i, sig, limit);
      DecodedShorter(line);
      OccursItself(sig);
      OccursLonger(line, sig);
      assert C.ClockedDetects(hexList, i, sig, limit) != Occurs(line, sig);
    }
  }

  /** The data-triggered detector does the same for lines of one character, once zero bytes are deleted, and for no
      others. */
  lemma TriggeredLineDetected(lines: seq<Line>, p: nat, limit: nat)
    requires Compilable(lines) && p < |lines| && 0 !in RStrip(lines[p]) && limit >= 6
    ensures Admissible(HexList(Sorted(lines)))
    ensures (forall stream: Line :: S.TriggeredDetects(HexList(Sorted(lines)), OutputOf(lines, p), stream, limit) <==>
                                    Occurs(RStrip(lines[p]), D.DeleteZeros(stream)))
            <==> |RStrip(lines[p])| == 1 && TwoDigits(RStrip(lines[p]))
  {
    hide Sorted, OutputOf, Occurs, S.TriggeredDetects, S.StreamRow, RStrip, D.DeleteZeros, D.ZeroSeparated, HexLine;
    CompilableAdmissible(lines);
    OutputOfLine(lines, p);
    var hexList, i, line := HexList(Sorted(lines)), OutputOf(lines, p), RStrip(lines[p]);
    var sig := Signature(hexList, i);
    HexFaithful(line);
    DecodedNonZero(line);
    StagesSignature(hexList, i);
    if |line| == 1 && TwoDigits(line) {
      assert sig[0] in sig;
      forall stream: Line
        ensures S.TriggeredDetects(hexList, i, stream, limit) <==> Occurs(line, D.DeleteZeros(stream))
      {
        S.DetectsRow(hexList, i, stream, limit);
        D.SingleByte(sig, stream);
      }
    } else {
      var stream := LineMisjudged(line, sig);
      S.DetectsRow(hexList, i, stream, limit);
      assert S.TriggeredDetects(hexList, i, stream, limit) != Occurs(line, D.DeleteZeros(stream));
    }
  }

  /** A stream on which the row for the digits of a line says something else than the line. */
  lemma LineMisjudged(line: Line, sig: Line) returns (stream: Line)
    requires 0 !in line && 0 !in sig && sig != [] && HexText(HexLine(line)) && sig == Decode(HexLine(line))
    requires |line| != 1 || !TwoDigits(line)
    ensures S.StreamRow(sig, stream).latched != Occurs(line, D.DeleteZeros(stream))
  {
    hide Occurs, S.StreamRow, D.DeleteZeros, D.ZeroSeparated, HexLine, Decode;
    HexFaithful(line);
    if !TwoDigits(line) {
      DecodedShorter(line);
    }
    if |sig| == 1 {
      stream := sig;
      assert sig[0] in sig;
      D.SingleByte(sig, sig);
      D.NothingDeleted(sig);
      OccursItself(sig);
      OccursLonger(line, sig);
    } else {
      stream := D.ZeroSeparated(line);
      D.ZeroSeparatedDeleted(line);
      D.SeparatedDeaf(sig, line);
      OccursItself(line);
    }
  }

  /** A blank line that is not the first in order raises nothing, but then the file written, by either script, refers to
      a signal that it does not declare. */
  lemma WellFormedIff(lines: seq<Line>)
    ensures N.Closed(K.Compiled(HexList(Sorted(lines)))) <==> forall line :: line in lines ==> !Blank(line)
    ensures N.Closed(T.Compiled(HexList(Sorted(lines)))) <==> forall line :: line in lines ==> !Blank(line)
  {
    hide Sorted, HexLine, RStrip, N.Closed, K.Compiled, T.Compiled;
    var sorted := Sorted(lines);
    SortedMembers(lines);
    forall i | 0 <= i < |sorted| ensures HexText(HexList(sorted)[i]) && (HexList(sorted)[i] == "" <==> Blank(sorted[i])) {
      HexLineText(RStrip(sorted[i]));
      HexListBlank(sorted, i);
    }
    CI.ClosedIffNoBlank(HexList(sorted));
    TI.ClosedIffNoBlank(HexList(sorted));
    assert forall i :: 0 <= i < |sorted| ==> sorted[i] in sorted;
  }

  lemma DecodedShorter(line: Line)
    requires !TwoDigits(line)
    ensures HexText(HexLine(line)) && |Decode(HexLine(line))| < |line|
  {
    HexLineText(line);
    var b :| b in line && b < 16;
    ShortText(line, b);
  }

  /** For an empty file the port written is not even an identifier. */
  lemma EmptyFile()
    ensures HexList(Sorted([])) == []
    ensures K.Compiled([]).outputs == ["output_-1"] && !BasicIdentifier("output_-1")
  {
    var port := "output_-1";
    assert port[7] == '-' && port[7] in port;
  }
}
