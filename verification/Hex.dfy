/** `hexify`: signature lines to lower-case hexadecimal text, two digits per character (unless there is one). */
module Hex {
  import opened Bytes
  import opened Vhdl

  type Line = seq<Byte>

  function HexChar(d: int): (c: char)
    requires 0 <= d < 16
    ensures HexDigit(c) && DigitValue(c) == d
  {
    if d < 10 then '0' + d as char else 'a' + (d - 10) as char
  }

  /** Python's `hex(b)[2:]`: no leading zero. */
  function HexOf(b: Byte): string {
    if b < 16 then [HexChar(b)] else [HexChar(b / 16), HexChar(b % 16)]
  }

  function HexLine(line: Line): string {
    if line == [] then "" else HexLine(line[..|line| - 1]) + HexOf(line[|line| - 1])
  }

  predicate Whitespace(b: Byte) {
    9 <= b <= 13 || b == 32
  }

  /** Python 2's `rstrip`. */
  function RStrip(line: Line): Line {
    if line != [] && Whitespace(line[|line| - 1]) then RStrip(line[..|line| - 1]) else line
  }

  /** The longest prefix that does not end in whitespace. */
  lemma {:induction false} RStripExactly(line: Line, kept: Line)
    ensures kept == RStrip(line) <==>
            && kept <= line && (forall k :: |kept| <= k < |line| ==> Whitespace(line[k]))
            && (kept == [] || !Whitespace(kept[|kept| - 1]))
  {
    if line != [] && Whitespace(line[|line| - 1]) {
      var init := line[..|line| - 1];
      RStripExactly(init, kept);
      assert kept <= line && |kept| < |line| ==> kept <= init;
    }
  }

  /** Which bytes are stripped: tab, line feed, vertical tab, form feed, carriage return and space. */
  lemma RStripByte(line: Line, b: Byte)
    ensures RStrip([]) == []
    ensures b in {9, 10, 11, 12, 13, 32} ==> RStrip(line + [b]) == RStrip(line)
    ensures b !in {9, 10, 11, 12, 13, 32} ==> RStrip(line + [b]) == line + [b]
  {
    assert (line + [b])[..|line|] == line;
  }

  function HexList(lines: seq<Line>): seq<string> {
    seq(|lines|, i requires 0 <= i < |lines| => HexLine(RStrip(lines[i])))
  }

  method Hexify(sigList: seq<Line>) returns (list: seq<string>)
    ensures list == HexList(sigList)
  {
    list := [];
    for i := 0 to |sigList|
      invariant list == HexList(sigList[..i])
    {
      var hexVal := "";
      var line := RStrip(sigList[i]);
      for c := 0 to |line|
        invariant hexVal == HexLine(line[..c])
      {
        assert line[..c + 1][..c] == line[..c];
        hexVal := hexVal + HexOf(line[c]);
      }
      assert line[..|line|] == line;
      list := list + [hexVal];
    }
  }

  // ----- Reading the text back -----

  predicate HexText(h: string) {
    forall c :: c in h ==> HexDigit(c)
  }

  function Min(a: nat, b: nat): nat {
    if a < b then a else b
  }

  /** Python's slice h[2k:2k+2], which both generators take for stage `k`. */
  function Slice(h: string, k: nat): string {
    h[Min(2 * k, |h|)..Min(2 * k + 2, |h|)]
  }

  /** The number of values of `range(0, len(h), 2)`. */
  function Stages(h: string): nat {
    (|h| + 1) / 2
  }

  /** The bytes the two-digit slices denote. */
  function Decode(h: string): Line
    requires HexText(h)
  {
    seq(|h| / 2, k requires 0 <= k < |h| / 2 => SliceByte(h, k))
  }

  function SliceByte(h: string, k: nat): (b: Byte)
    requires HexText(h) && 2 * k + 2 <= |h|
    ensures Literal(Slice(h, k)) == Vector(b)
  {
    assert h[2 * k] in h && h[2 * k + 1] in h;
    DigitValue(h[2 * k]) * 16 + DigitValue(h[2 * k + 1])
  }

  /** Two more digits spell one more byte. */
  lemma Spelled(h: string, a: char, b: char, longer: string)
    requires HexText(h) && |h| % 2 == 0 && HexDigit(a) && HexDigit(b) && longer == h + [a, b]
    ensures HexText(longer) && Decode(longer) == Decode(h) + [DigitValue(a) * 16 + DigitValue(b)]
  {
    assert forall k :: 0 <= k < |h| ==> longer[k] == h[k];
    assert longer[|h|] == a && longer[|h| + 1] == b;
  }

  lemma NothingSpelled()
    ensures HexText("") && Decode("") == []
  {}

  lemma {:induction false} HexLineText(line: Line)
    ensures HexText(HexLine(line)) && |line| <= |HexLine(line)| <= 2 * |line|
  {
    if line != [] {
      HexLineText(line[..|line| - 1]);
    }
  }

  predicate TwoDigits(line: Line) {
    forall b :: b in line ==> b >= 16
  }

  lemma {:induction false} LongText(line: Line)
    requires TwoDigits(line)
    ensures |HexLine(line)| == 2 * |line|
  {
    if line != [] {
      var init := line[..|line| - 1];
      assert line[|line| - 1] in line && forall b :: b in init ==> b in line;
      LongText(init);
    }
  }

  lemma SliceConcat(a: string, b: string, k: nat)
    ensures 2 * k + 2 <= |a| ==> Slice(a + b, k) == Slice(a, k)
    ensures |a| == 2 * k && |b| == 2 ==> Slice(a + b, k) == b
  {
    if 2 * k + 2 <= |a| {
      assert (a + b)[2 * k..2 * k + 2] == a[2 * k..2 * k + 2];
    } else if |a| == 2 * k && |b| == 2 {
      assert (a + b)[|a|..|a| + 2] == b;
    }
  }

  /** Slices recover the characters, if every one of them has two digits. */
  lemma {:induction false} SliceRoundTrip(line: Line, k: nat)
    requires TwoDigits(line) && k < |line|
    ensures Slice(HexLine(line), k) == HexOf(line[k])
  {
    var last := |line| - 1;
    assert line[last] in line && forall b :: b in line[..last] ==> b in line;
    LongText(line[..last]);
    SliceConcat(HexLine(line[..last]), HexOf(line[last]), k);
    if k < last {
      SliceRoundTrip(line[..last], k);
    }
  }

  /** One character below 0x10 makes the text too short. */
  lemma {:induction false} ShortText(line: Line, b: Byte)
    requires b in line && b < 16
    ensures |HexLine(line)| < 2 * |line|
  {
    var last := |line| - 1;
    if b in line[..last] {
      ShortText(line[..last], b);
    } else {
      assert line == line[..last] + [line[last]];
      HexLineText(line[..last]);
    }
  }

  /** The text says what the line says exactly when no character is below 0x10. */
  lemma HexFaithful(line: Line)
    ensures HexText(HexLine(line))
    ensures Decode(HexLine(line)) == line <==> TwoDigits(line)
  {
    HexLineText(line);
    var h := HexLine(line);
    if TwoDigits(line) {
      LongText(line);
      forall k | 0 <= k < |line| ensures Decode(h)[k] == line[k] {
        SliceRoundTrip(line, k);
        assert Literal(HexOf(line[k])) == Vector(line[k]);
      }
    } else {
      var b :| b in line && b < 16;
      ShortText(line, b);
      assert |Decode(h)| < |line|;
    }
  }

  /** Two digits '0' never meet, unless the line holds a zero byte. */
  lemma {:induction false} NoZeroPair(line: Line)
    requires 0 !in line
    ensures forall j :: 0 < j < |HexLine(line)| ==> HexLine(line)[j - 1] != '0' || HexLine(line)[j] != '0'
  {
    if line != [] {
      var init, b := line[..|line| - 1], line[|line| - 1];
      NoZeroPair(init);
      assert b in line && HexOf(b)[0] != '0';
    }
  }

  lemma DecodedNonZero(line: Line)
    requires 0 !in line
    ensures HexText(HexLine(line)) && 0 !in Decode(HexLine(line))
  {
    HexLineText(line);
    NoZeroPair(line);
    var h := HexLine(line);
    forall k | 0 <= k < |Decode(h)| ensures Decode(h)[k] != 0 {
      assert h[2 * k + 1 - 1] != '0' || h[2 * k + 1] != '0';
      assert h[2 * k] in h && h[2 * k + 1] in h;
    }
  }

  lemma HexInjective(a: Line, b: Line)
    requires TwoDigits(a) && TwoDigits(b) && HexLine(a) == HexLine(b)
    ensures a == b
  {
    HexFaithful(a);
    HexFaithful(b);
  }

  /** The line "jay" with its line feed becomes 6a6179. */
  lemma JayText()
    ensures HexLine(RStrip([106, 97, 121, 10])) == "6a6179"
  {
    hide HexLine, RStrip;
    RStripByte([106, 97, 121], 10);
    RStripByte([106, 97], 121);
    assert [106, 97] + [121] == [106, 97, 121] && [106, 97, 121] + [10] == [106, 97, 121, 10];
    HexLineAppend([], 106);
    HexLineAppend([106], 97);
    HexLineAppend([106, 97], 121);
    assert [] + [106] == [106] && [106] + [97] == [106, 97];
  }

  lemma HexLineAppend(line: Line, b: Byte)
    ensures HexLine([]) == "" && HexLine(line + [b]) == HexLine(line) + HexOf(b)
  {
    assert (line + [b])[..|line|] == line;
  }

  /** Two characters below 0x10 pass every check of the scripts and are compiled as one other character. */
  lemma HexCollision()
    ensures HexLine([1, 2]) == HexLine([0x12])
  {
    assert HexLine([1, 2]) == HexLine([1, 2][..1]) + HexOf(2);
    assert [1, 2][..1] == [1] && [1][..0] == [];
    assert HexLine([1]) == HexLine([1][..0]) + HexOf(1);
    assert [0x12][..0] == [];
    assert HexLine([0x12]) == HexLine([0x12][..0]) + HexOf(0x12);
  }
}
