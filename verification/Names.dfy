/** The identifiers the generators print. Two different names never print alike, not even up to letter case
    (section 15.4.2 of IEEE Std 1076-2008: identifiers that differ only in case are the same). */
module Names {
  import opened Vhdl

  datatype Name =
    // ports and shared signals
    | Clk | Reset | DataIn | Input | Enable
    // component names
    | CompareCell | FlipFlopCell | PullUpCell
    // one per signature
    | Output(i: nat) | Match(i: nat) | Hold(i: nat) | Spare(i: nat)
    // one per signature and stage
    | Cmp(i: nat, hex: string, k: nat) | Stage(i: nat, k: nat) | AndOut(i: nat, k: nat) | EnAnd(i: nat, k: nat)
    // labels
    | CompareLabel(i: nat, hex: string, k: nat) | StageLabel(i: nat, k: nat) | AndLabel(i: nat, k: nat)
    | EnAndLabel(i: nat, k: nat) | PullLabel(i: nat) | OutputLabel(i: nat)
  {
    predicate Valid() {
      (Cmp? || CompareLabel?) ==> forall c :: c in hex ==> HexDigit(c)
    }

    /** Nothing is missing where the digits of a byte belong. */
    predicate Complete() {
      Valid() && ((Cmp? || CompareLabel?) ==> hex != "")
    }

    function Prefix(): string {
      match this
      case Clk => "clk"
      case Reset => "reset"
      case DataIn => "data_in"
      case Input => "input"
      case Enable => "enable"
      case CompareCell => "byte_compare"
      case FlipFlopCell => "FF"
      case PullUpCell => "pull_up_module"
      case Output(_) => "output_"
      case Match(_) => "isMatching_"
      case Hold(_) => "hold_"
      case Spare(_) => "out_s"
      case Cmp(_, _, _) => "cmp_s"
      case Stage(_, _) => "s"
      case AndOut(_, _) => "out_and_s"
      case EnAnd(_, _) => "en_and_cmp_s"
      case CompareLabel(_, _, _) => "byte_comp_s"
      case StageLabel(_, _) => "flipflop_s"
      case AndLabel(_, _) => "and_s"
      case EnAndLabel(_, _) => "and_s"
      case PullLabel(_) => "pull_"
      case OutputLabel(_) => "FF_out_"
    }

    predicate PerStage() {
      Cmp? || Stage? || AndOut? || EnAnd? || CompareLabel? || StageLabel? || AndLabel? || EnAndLabel?
    }

    predicate PerSignature() {
      Output? || Match? || Hold? || Spare? || PullLabel? || OutputLabel?
    }

    /** What stands between the underline after the signature index and the stage index. */
    function Infix(): string {
      match this
      case Cmp(_, hex, _) => "0x" + hex + "_"
      case CompareLabel(_, hex, _) => hex + "_"
      case StageLabel(_, _) => "f"
      case EnAnd(_, _) => ""
      case EnAndLabel(_, _) => ""
      case _ => "ff_"
    }

    function Suffix(): string {
      if PerStage() then Dec(i) + ("_" + Infix()) + Dec(k)
      else if PerSignature() then Dec(i)
      else ""
    }
  }

  function Show(n: Name): string {
    n.Prefix() + n.Suffix()
  }

  /** Python's `str` on a non-negative integer. */
  function Dec(n: nat): (s: string)
    ensures s != "" && forall c :: c in s ==> '0' <= c <= '9'
  {
    var last := ['0' + (n % 10) as char];
    if n < 10 then last else Dec(n / 10) + last
  }

  function Parse(s: string): int {
    if s == "" then 0 else Parse(s[..|s| - 1]) * 10 + (s[|s| - 1] as int - '0' as int)
  }

  lemma {:induction false} ParseDec(n: nat)
    ensures Parse(Dec(n)) == n
  {
    var s := Dec(n);
    if n < 10 {
      assert s[..0] == "";
    } else {
      ParseDec(n / 10);
      assert s[..|s| - 1] == Dec(n / 10);
    }
  }

  /** No leading zeros. */
  lemma {:induction false} DecLeading(n: nat)
    ensures n > 0 ==> Dec(n)[0] != '0'
    ensures Dec(0) == "0"
  {
    if n >= 10 {
      DecLeading(n / 10);
    }
  }

  lemma DecInjective(m: nat, n: nat)
    requires Dec(m) == Dec(n)
    ensures m == n
  {
    ParseDec(m);
    ParseDec(n);
  }

  // ----- The names of the interface and of the signals, letter by letter -----

  lemma InputsSpelled()
    ensures Show(Clk) == "clk" && Show(Reset) == "reset" && Show(DataIn) == "data_in"
  {}

  lemma SharedSpelled()
    ensures Show(Input) == "input" && Show(Enable) == "enable"
    ensures Show(CompareCell) == "byte_compare" && Show(FlipFlopCell) == "FF" && Show(PullUpCell) == "pull_up_module"
  {}

  lemma OutputsSpelled(i: nat)
    ensures Show(Output(i)) == "output_" + Dec(i)
  {
    hide Dec;
  }

  lemma FirstOutputs()
    ensures Show(Output(0)) == "output_0" && Show(Output(12)) == "output_12"
  {
    OutputsSpelled(0);
    OutputsSpelled(12);
    assert Dec(1) == "1" && Dec(12) == "12";
  }

  lemma MatchSpelled(i: nat)
    ensures Show(Match(i)) == "isMatching_" + Dec(i)
    ensures Show(Hold(i)) == "hold_" + Dec(i)
    ensures Show(Spare(i)) == "out_s" + Dec(i)
  {
    hide Dec;
  }

  lemma LatchSpelled(i: nat)
    ensures Show(PullLabel(i)) == "pull_" + Dec(i)
    ensures Show(OutputLabel(i)) == "FF_out_" + Dec(i)
  {
    hide Dec;
  }

  lemma CompareSpelled(i: nat, hex: string, k: nat)
    ensures Show(Cmp(i, hex, k)) == "cmp_s" + Dec(i) + "_0x" + hex + "_" + Dec(k)
  {
    hide Dec;
    assert "_" + ("0x" + hex + "_") == "_0x" + hex + "_";
  }

  lemma CompareLabelSpelled(i: nat, hex: string, k: nat)
    ensures Show(CompareLabel(i, hex, k)) == "byte_comp_s" + Dec(i) + "_" + hex + "_" + Dec(k)
  {
    hide Dec;
    assert "_" + (hex + "_") == "_" + hex + "_";
  }

  lemma StageSpelled(i: nat, k: nat)
    ensures Show(Stage(i, k)) == "s" + Dec(i) + "_ff_" + Dec(k)
    ensures Show(AndOut(i, k)) == "out_and_s" + Dec(i) + "_ff_" + Dec(k)
  {
    hide Dec;
    assert "_" + "ff_" == "_ff_";
  }

  lemma EnAndSpelled(i: nat, k: nat)
    ensures Show(EnAnd(i, k)) == "en_and_cmp_s" + Dec(i) + "_" + Dec(k)
    ensures Show(EnAndLabel(i, k)) == "and_s" + Dec(i) + "_" + Dec(k)
  {
    hide Dec;
    assert "_" + "" == "_";
  }

  lemma StageLabelsSpelled(i: nat, k: nat)
    ensures Show(StageLabel(i, k)) == "flipflop_s" + Dec(i) + "_f" + Dec(k)
    ensures Show(AndLabel(i, k)) == "and_s" + Dec(i) + "_ff_" + Dec(k)
  {
    hide Dec;
    assert "_" + "f" == "_f" && "_" + "ff_" == "_ff_";
  }

  // ----- Letter case -----

  function LowerChar(c: char): char {
    if 'A' <= c <= 'Z' then c + ('a' - 'A') else c
  }

  function Lower(s: string): (t: string)
    ensures |t| == |s|
  {
    seq(|s|, i requires 0 <= i < |s| => LowerChar(s[i]))
  }

  predicate Plain(s: string) {
    forall c :: c in s ==> '0' <= c <= '9' || 'a' <= c <= 'z' || c == '_'
  }

  lemma LowerPrefixed(p: string, s: string)
    requires Plain(s)
    ensures Lower(p + s) == Lower(p) + s
  {
    forall i | 0 <= i < |s| ensures LowerChar(s[i]) == s[i] {
      assert s[i] in s;
    }
  }

  lemma SuffixPlain(n: Name)
    requires n.Valid()
    ensures Plain(n.Suffix())
  {}

  // ----- Injectivity -----

  /** Which family of names a lower-case identifier belongs to, read off its first characters. */
  function Family(s: string): nat {
    if |s| < 2 then 0
    else match s[0]
      case 'c' => if s[1] == 'l' then 1 else 2
      case 'r' => 3
      case 'd' => 4
      case 'i' => if s[1] == 'n' then 5 else 6
      case 'e' => if |s| > 2 && s[2] == 'a' then 7 else 8
      case 'b' => if |s| > 9 && s[9] == 'a' then 9 else 10
      case 'f' => if s[1] == 'l' then 11 else if |s| == 2 then 12 else 13
      case 'p' => if |s| > 5 && s[5] == 'u' then 14 else 15
      case 'o' => if |s| > 4 then (if s[3] == 'p' then 16 else if s[4] == 'a' then 17 else 18) else 0
      case 'h' => 19
      case 's' => 20
      case 'a' => 21
      case _ => 0
  }

  function FamilyOf(n: Name): nat {
    match n
    case Clk => 1
    case Cmp(_, _, _) => 2
    case Reset => 3
    case DataIn => 4
    case Input => 5
    case Match(_) => 6
    case Enable => 7
    case EnAnd(_, _) => 8
    case CompareCell => 9
    case CompareLabel(_, _, _) => 10
    case StageLabel(_, _) => 11
    case FlipFlopCell => 12
    case OutputLabel(_) => 13
    case PullUpCell => 14
    case PullLabel(_) => 15
    case Output(_) => 16
    case AndOut(_, _) => 17
    case Spare(_) => 18
    case Hold(_) => 19
    case Stage(_, _) => 20
    case AndLabel(_, _) => 21
    case EnAndLabel(_, _) => 21
  }

  lemma FamilyOfPrefix(s: string, p: string)
    requires p <= s
    ensures var t := Lower(s); |t| >= |p| && forall i :: 0 <= i < |p| ==> t[i] == LowerChar(p[i])
  {}

  lemma SharedFamily(n: Name)
    requires !n.PerStage() && !n.PerSignature()
    ensures Family(Lower(Show(n))) == FamilyOf(n)
  {
    FamilyOfPrefix(Show(n), n.Prefix());
  }

  lemma SignatureFamily(n: Name)
    requires n.PerSignature()
    ensures Family(Lower(Show(n))) == FamilyOf(n)
  {
    FamilyOfPrefix(Show(n), n.Prefix());
    assert n.PullLabel? ==> Lower(Show(n))[5] == LowerChar(Dec(n.i)[0]) && Dec(n.i)[0] in Dec(n.i);
  }

  lemma StageFamily(n: Name)
    requires n.PerStage()
    ensures Family(Lower(Show(n))) == FamilyOf(n)
  {
    FamilyOfPrefix(Show(n), n.Prefix());
    assert |n.Suffix()| > 0;
  }

  lemma ShowFamily(n: Name)
    ensures Family(Lower(Show(n))) == FamilyOf(n)
  {
    hide Show;
    if n.PerStage() {
      StageFamily(n);
    } else if n.PerSignature() {
      SignatureFamily(n);
    } else {
      SharedFamily(n);
    }
  }

  lemma SplitUnderscore(a: string, x: string, b: string, y: string)
    requires '_' !in a && '_' !in b
    requires a + "_" + x == b + "_" + y
    ensures a == b && x == y
  {
    var s := a + "_" + x;
    assert s[|a|] == '_' && s[|b|] == '_';
    assert forall k :: 0 <= k < |a| ==> s[k] == a[k] && a[k] in a;
    assert forall k :: 0 <= k < |b| ==> s[k] == b[k] && b[k] in b;
    assert a == s[..|a|] && b == s[..|b|];
    assert x == s[|a| + 1..] && y == s[|b| + 1..];
  }

  lemma Regroup(a: string, x: string, b: string)
    ensures a + ("_" + x) + b == a + "_" + (x + b)
  {}

  lemma IndexedSuffix(i: nat, x: string, k: nat, j: nat, y: string, l: nat)
    requires Dec(i) + ("_" + x) + Dec(k) == Dec(j) + ("_" + y) + Dec(l)
    ensures i == j && x + Dec(k) == y + Dec(l)
  {
    Regroup(Dec(i), x, Dec(k));
    Regroup(Dec(j), y, Dec(l));
    SplitUnderscore(Dec(i), x + Dec(k), Dec(j), y + Dec(l));
    DecInjective(i, j);
  }

  lemma SameInfix(x: string, k: nat, l: nat)
    requires x + Dec(k) == x + Dec(l)
    ensures k == l
  {
    assert Dec(k) == (x + Dec(k))[|x|..] && Dec(l) == (x + Dec(l))[|x|..];
    DecInjective(k, l);
  }

  lemma SuffixInjective(m: Name, n: Name)
    requires m.Valid() && n.Valid() && FamilyOf(m) == FamilyOf(n)
    requires m.Suffix() == n.Suffix()
    ensures m == n
  {
    if m.PerStage() {
      IndexedSuffix(m.i, m.Infix(), m.k, n.i, n.Infix(), n.k);
      InfixInjective(m, n);
    } else if m.PerSignature() {
      DecInjective(m.i, n.i);
    }
  }

  lemma InfixInjective(m: Name, n: Name)
    requires m.Valid() && n.Valid() && FamilyOf(m) == FamilyOf(n) && m.PerStage() && n.PerStage()
    requires m.i == n.i && m.Infix() + Dec(m.k) == n.Infix() + Dec(n.k)
    ensures m == n
  {
    if m.Cmp? {
      SplitUnderscore("0x" + m.hex, Dec(m.k), "0x" + n.hex, Dec(n.k));
      assert m.hex == ("0x" + m.hex)[2..] && n.hex == ("0x" + n.hex)[2..];
      DecInjective(m.k, n.k);
    } else if m.CompareLabel? {
      SplitUnderscore(m.hex, Dec(m.k), n.hex, Dec(n.k));
      DecInjective(m.k, n.k);
    } else {
      // The two generators label their AND gates alike but for the infix, which no digit starts.
      var x, y := m.Infix() + Dec(m.k), n.Infix() + Dec(n.k);
      assert m.EnAndLabel? ==> x[0] in Dec(m.k);
      assert n.EnAndLabel? ==> y[0] in Dec(n.k);
      assert m.AndLabel? ==> x[0] == 'f';
      assert n.AndLabel? ==> y[0] == 'f';
      SameInfix(m.Infix(), m.k, n.k);
    }
  }

  lemma SamePrefix(m: Name, n: Name)
    requires FamilyOf(m) == FamilyOf(n)
    ensures m.Prefix() == n.Prefix()
  {}

  /** No capture: identifiers that VHDL takes to be the same come from the same name. */
  lemma ShowInjective(m: Name, n: Name)
    requires m.Valid() && n.Valid()
    requires Lower(Show(m)) == Lower(Show(n))
    ensures m == n
  {
    hide Family, FamilyOf, Lower, Plain;
    ShowFamily(m);
    ShowFamily(n);
    SamePrefix(m, n);
    SuffixPlain(m);
    SuffixPlain(n);
    LowerPrefixed(m.Prefix(), m.Suffix());
    LowerPrefixed(n.Prefix(), n.Suffix());
    SameTail(Lower(m.Prefix()), m.Suffix(), n.Suffix());
    SuffixInjective(m, n);
  }

  lemma SameTail(p: string, a: string, b: string)
    requires p + a == p + b
    ensures a == b
  {
    assert a == (p + a)[|p|..] && b == (p + b)[|p|..];
  }

  lemma ShowEqual(m: Name, n: Name)
    requires m.Valid() && n.Valid() && Show(m) == Show(n)
    ensures m == n
  {
    ShowInjective(m, n);
  }

  ghost predicate Named(s: string) {
    exists m: Name :: m.Valid() && Lower(Show(m)) == Lower(s)
  }

  /** The name behind an identifier of the emitted text. */
  ghost function NameOf(s: string): (n: Name)
    requires Named(s)
    ensures n.Valid() && Lower(Show(n)) == Lower(s)
  {
    var m: Name :| m.Valid() && Lower(Show(m)) == Lower(s);
    m
  }

  lemma NameOfShow(n: Name)
    requires n.Valid()
    ensures Named(Show(n)) && NameOf(Show(n)) == n
  {
    ShowInjective(NameOf(Show(n)), n);
  }

  /** A rank on identifiers, given one on names. */
  ghost function RankBy(rankOf: Name -> nat): string -> nat {
    x => RankAt(rankOf, x)
  }

  ghost function RankAt(rankOf: Name -> nat, x: string): nat {
    if Named(x) then rankOf(NameOf(x)) else 0
  }

  lemma RankByShow(rankOf: Name -> nat, n: Name)
    requires n.Valid()
    ensures RankBy(rankOf)(Show(n)) == rankOf(n)
  {
    NameOfShow(n);
  }

  // ----- Basic identifiers -----

  predicate LetterOrDigit(c: char) {
    'a' <= c <= 'z' || 'A' <= c <= 'Z' || '0' <= c <= '9'
  }

  predicate Spaced(s: string) {
    && (forall c :: c in s ==> LetterOrDigit(c) || c == '_')
    && (forall i :: 0 <= i < |s| - 1 ==> s[i] != '_' || s[i + 1] != '_')
  }

  /** A letter, then letters and digits with single underlines between them. */
  predicate BasicIdentifier(s: string) {
    Spaced(s) && s != "" && LetterOrDigit(s[0]) && !('0' <= s[0] <= '9') && s[|s| - 1] != '_'
  }

  lemma SpacedConcat(a: string, b: string)
    requires Spaced(a) && Spaced(b)
    requires a != "" && b != "" ==> a[|a| - 1] != '_' || b[0] != '_'
    ensures Spaced(a + b)
  {}

  lemma DecSpaced(n: nat)
    ensures Spaced(Dec(n)) && Dec(n)[0] != '_' && Dec(n)[|Dec(n)| - 1] != '_'
  {
    var s := Dec(n);
    assert s[0] in s && s[|s| - 1] in s;
    assert forall i :: 0 <= i < |s| ==> s[i] in s;
  }

  lemma IndexedSpaced(i: nat, mid: string, k: nat)
    requires Spaced(mid) && mid != "" && mid[0] == '_'
    ensures var s := Dec(i) + mid + Dec(k); Spaced(s) && s[0] != '_' && s[|s| - 1] != '_'
  {
    DecSpaced(i);
    DecSpaced(k);
    SpacedConcat(Dec(i), mid);
    SpacedConcat(Dec(i) + mid, Dec(k));
  }

  lemma InfixSpaced(n: Name)
    requires n.Complete() && n.PerStage()
    ensures Spaced("_" + n.Infix())
  {
    if n.Cmp? {
      HexSpaced(n.hex, "_0x");
      assert "_" + n.Infix() == "_0x" + n.hex + "_";
    } else if n.CompareLabel? {
      HexSpaced(n.hex, "_");
      assert "_" + n.Infix() == "_" + n.hex + "_";
    }
  }

  lemma SuffixSpaced(n: Name)
    requires n.Complete()
    ensures var s := n.Suffix(); Spaced(s) && (s != "" ==> s[0] != '_' && s[|s| - 1] != '_')
  {
    if n.PerStage() {
      InfixSpaced(n);
      IndexedSpaced(n.i, "_" + n.Infix(), n.k);
    } else if n.PerSignature() {
      DecSpaced(n.i);
    }
  }

  lemma HexSpaced(h: string, front: string)
    requires h != "" && (forall c :: c in h ==> HexDigit(c))
    requires front == "_" || front == "_0x"
    ensures Spaced(front + h + "_")
  {
    assert Spaced(h) by { assert forall i :: 0 <= i < |h| ==> h[i] in h; }
    assert h[0] in h && h[|h| - 1] in h;
    SpacedConcat(front, h);
    SpacedConcat(front + h, "_");
  }

  predicate LetterFirst(s: string) {
    s != "" && LetterOrDigit(s[0]) && !('0' <= s[0] <= '9')
  }

  lemma SharedPrefixSpaced(n: Name)
    requires !n.PerStage() && !n.PerSignature()
    ensures Spaced(n.Prefix()) && LetterFirst(n.Prefix()) && n.Prefix()[|n.Prefix()| - 1] != '_'
  {}

  lemma SignaturePrefixSpaced(n: Name)
    requires n.PerSignature()
    ensures Spaced(n.Prefix()) && LetterFirst(n.Prefix())
  {}

  lemma StagePrefixSpaced(n: Name)
    requires n.PerStage()
    ensures Spaced(n.Prefix()) && LetterFirst(n.Prefix())
  {}

  /** Every name in which no digits are missing prints a basic identifier. */
  lemma ShowIdentifier(n: Name)
    requires n.Complete()
    ensures BasicIdentifier(Show(n))
  {
    SuffixSpaced(n);
    if !n.PerStage() && !n.PerSignature() {
      SharedPrefixSpaced(n);
    } else if n.PerStage() {
      StagePrefixSpaced(n);
    } else {
      SignaturePrefixSpaced(n);
    }
    SpacedConcat(n.Prefix(), n.Suffix());
    var s := Show(n);
    assert n.Suffix() != "" ==> s[|s| - 1] == n.Suffix()[|n.Suffix()| - 1];
  }
}
