/** Lists of names and what they print: the identifiers of an architecture are the names of a chain of stages per
    signature and of rows with one name per signature. */
module NameLists {
  import opened Vhdl
  import opened Names
  import opened Hex
  import opened Signatures

  ghost function Shows(names: seq<Name>): seq<string> {
    seq(|names|, j requires 0 <= j < |names| => Show(names[j]))
  }

  lemma ShowsConcat(a: seq<Name>, b: seq<Name>)
    ensures Shows(a + b) == Shows(a) + Shows(b)
  {
    hide Show;
  }

  ghost predicate Distinct(names: seq<Name>) {
    forall a, b :: 0 <= a < b < |names| ==> names[a] != names[b]
  }

  ghost predicate AllComplete(names: seq<Name>) {
    forall n :: n in names ==> n.Complete()
  }

  lemma DistinctConcat(a: seq<Name>, b: seq<Name>)
    requires Distinct(a) && Distinct(b) && forall n :: n in a ==> n !in b
    ensures Distinct(a + b)
  {
    forall x, y | 0 <= x < y < |a + b| ensures (a + b)[x] != (a + b)[y] {
      if x < |a| <= y {
        assert a[x] in a && b[y - |a|] in b;
      }
    }
  }

  /** Declared signals, instance labels, or the targets of statements, of one script or the other. */
  datatype Kind = Declaration(clocked: bool) | Label(clocked: bool) | Target(clocked: bool)

  ghost function StageNames(kind: Kind, i: nat, h: string, k: nat): seq<Name> {
    if kind.clocked then
      if kind.Label? then [CompareLabel(i, Slice(h, k), k), StageLabel(i, k), AndLabel(i, k)]
      else [Cmp(i, Slice(h, k), k), Stage(i, k), AndOut(i, k)]
    else
      if kind.Label? then [CompareLabel(i, Slice(h, k), k), EnAndLabel(i, k)]
      else if kind.Target? then [Cmp(i, Slice(h, k), k), EnAnd(i, k)]
      else [EnAnd(i, k), Cmp(i, Slice(h, k), k)]
  }

  /** What follows the stages of a signature. */
  ghost function TailNames(kind: Kind, i: nat): seq<Name> {
    if kind.Target? then [Match(i)] else if kind == Declaration(false) then [Spare(i)] else []
  }

  ghost function ChainNames(kind: Kind, i: nat, h: string, stages: nat): seq<Name> {
    if stages == 0 then [] else ChainNames(kind, i, h, stages - 1) + StageNames(kind, i, h, stages - 1)
  }

  ghost function BlockNames(kind: Kind, hexList: seq<string>, count: nat): seq<Name>
    requires count <= |hexList|
  {
    if count == 0 then []
    else BlockNames(kind, hexList, count - 1)
         + ChainNames(kind, count - 1, hexList[count - 1], Stages(hexList[count - 1]))
         + TailNames(kind, count - 1)
  }

  /** The names of which there is one per signature. */
  datatype Row = Matches | Holds | Ports | Pulls | Flops

  ghost function RowName(row: Row, i: nat): Name {
    match row
    case Matches => Match(i)
    case Holds => Hold(i)
    case Ports => Output(i)
    case Pulls => PullLabel(i)
    case Flops => OutputLabel(i)
  }

  ghost function RowNames(row: Row, count: nat): (names: seq<Name>)
    ensures Distinct(names) && AllComplete(names)
    ensures forall n :: n in names ==> n.PerSignature() && n.i < count && n == RowName(row, n.i)
  {
    seq(count, i requires 0 <= i < count => RowName(row, i))
  }

  // ----- The lists at the level of names -----

  ghost predicate OfKind(kind: Kind, n: Name) {
    if kind.Label? then n.CompareLabel? || (if kind.clocked then n.StageLabel? || n.AndLabel? else n.EnAndLabel?)
    else n.Cmp? || (if kind.clocked then n.Stage? || n.AndOut? else n.EnAnd?)
  }

  ghost predicate OfTail(kind: Kind, n: Name) {
    if kind.Target? then n.Match? else kind == Declaration(false) && n.Spare?
  }

  lemma StageDistinct(kind: Kind, i: nat, h: string, k: nat)
    requires HexText(h) && k < Stages(h)
    ensures var names := StageNames(kind, i, h, k);
            && Distinct(names) && AllComplete(names)
            && forall n :: n in names ==> OfKind(kind, n) && n.i == i && n.k == k
  {
    hide Slice;
    SliceText(h, k);
  }

  lemma {:induction false} ChainDistinct(kind: Kind, i: nat, h: string, stages: nat)
    requires HexText(h) && stages <= Stages(h)
    ensures var names := ChainNames(kind, i, h, stages);
            && Distinct(names) && AllComplete(names)
            && forall n :: n in names ==> OfKind(kind, n) && n.i == i && n.k < stages
  {
    hide Slice, StageNames, OfKind;
    if stages > 0 {
      ChainDistinct(kind, i, h, stages - 1);
      StageDistinct(kind, i, h, stages - 1);
      DistinctConcat(ChainNames(kind, i, h, stages - 1), StageNames(kind, i, h, stages - 1));
    }
  }

  lemma TailDistinct(kind: Kind, i: nat)
    ensures var names := TailNames(kind, i);
            && Distinct(names) && AllComplete(names)
            && forall n :: n in names ==> OfTail(kind, n) && n.i == i
  {}

  lemma {:induction false} BlockDistinct(kind: Kind, hexList: seq<string>, count: nat)
    requires HexTexts(hexList) && count <= |hexList|
    ensures var names := BlockNames(kind, hexList, count);
            && Distinct(names) && AllComplete(names)
            && forall n :: n in names ==> (OfKind(kind, n) || OfTail(kind, n)) && n.i < count
  {
    hide StageNames, ChainNames, TailNames, Distinct;
    if count == 0 {
      DistinctNothing();
    } else {
      BlockDistinct(kind, hexList, count - 1);
      var i := count - 1;
      ChainDistinct(kind, i, hexList[i], Stages(hexList[i]));
      TailDistinct(kind, i);
      var front, chain := BlockNames(kind, hexList, i), ChainNames(kind, i, hexList[i], Stages(hexList[i]));
      DistinctConcat(front, chain);
      DistinctConcat(front + chain, TailNames(kind, i));
    }
  }

  lemma DistinctNothing()
    ensures Distinct([])
  {}

  // ----- What lists print -----

  lemma NothingPrinted()
    ensures Shows([]) == [] && DeclNames([]) == [] && Labels([]) == [] && Targets([]) == []
  {}

  lemma NoLabel(s: Stmt)
    requires !s.Labelled()
    ensures Labels([s]) == []
  {
    assert [s][..0] == [];
  }

  lemma BlockNamesShown(kind: Kind, hexList: seq<string>, count: nat)
    requires 0 < count <= |hexList|
    ensures Shows(BlockNames(kind, hexList, count)) ==
            Shows(BlockNames(kind, hexList, count - 1))
            + Shows(ChainNames(kind, count - 1, hexList[count - 1], Stages(hexList[count - 1])))
            + Shows(TailNames(kind, count - 1))
  {
    hide Show, Shows, ChainNames, Stages;
    var front := BlockNames(kind, hexList, count - 1);
    var tail := ChainNames(kind, count - 1, hexList[count - 1], Stages(hexList[count - 1]));
    ShowsConcat(front, tail);
    ShowsConcat(front + tail, TailNames(kind, count - 1));
  }

  lemma {:induction false} RowLabels(net: seq<Stmt>, row: Row, count: nat)
    requires |net| == count
    requires forall i :: 0 <= i < count ==> net[i].Labelled() && net[i].instance == Show(RowName(row, i))
    ensures Labels(net) == Shows(RowNames(row, count))
  {
    hide Show;
    if count > 0 {
      RowLabels(net[..count - 1], row, count - 1);
      assert RowNames(row, count) == RowNames(row, count - 1) + [RowName(row, count - 1)];
    }
  }

  // ----- Distinct names print distinct, legal identifiers -----

  /** All are legal, and no two agree, not even up to letter case. */
  ghost predicate Legible(ids: seq<string>) {
    && (forall a :: 0 <= a < |ids| ==> BasicIdentifier(ids[a]))
    && (forall a, b :: 0 <= a < b < |ids| ==> Lower(ids[a]) != Lower(ids[b]))
  }

  lemma ShownLegible(names: seq<Name>)
    requires Distinct(names) && AllComplete(names)
    ensures Legible(Shows(names))
  {
    hide Show, BasicIdentifier, Lower;
    var ids := Shows(names);
    forall a | 0 <= a < |ids| ensures BasicIdentifier(ids[a]) {
      assert names[a] in names;
      ShowIdentifier(names[a]);
    }
    forall a, b | 0 <= a < b < |ids| ensures Lower(ids[a]) != Lower(ids[b]) {
      assert names[a] in names && names[b] in names;
      if Lower(ids[a]) == Lower(ids[b]) {
        ShowInjective(names[a], names[b]);
      }
    }
  }

  lemma ShownTargets(net: seq<Stmt>, names: seq<Name>)
    requires Distinct(names) && AllComplete(names) && Targets(net) == Shows(names)
    ensures DistinctTargets(net)
  {
    hide Show;
    forall a, b | 0 <= a < b < |net| ensures net[a].target != net[b].target {
      assert net[a].target == Targets(net)[a] == Show(names[a]) && net[b].target == Targets(net)[b] == Show(names[b]);
      assert names[a] in names && names[b] in names;
      if net[a].target == net[b].target {
        ShowEqual(names[a], names[b]);
      }
    }
  }

  /** Every signal that a statement reads is declared, and is an input port or driven. */
  ghost predicate Closed(d: Design) {
    forall s, x :: s in d.stmts && x in s.Reads() ==> x in d.Objects() && (x in d.inputs || Driven(d.stmts, x))
  }
}
