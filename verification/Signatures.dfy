/** What the two generator scripts share: lists of hexadecimal signatures and what becomes of the loop variables. */
module Signatures {
  import opened Vhdl
  import opened Hex

  /** The stage `j / 2` that the loop variable `j` names once the first `i` signatures are done: a blank
      signature leaves the value of the one before. */
  function LeftoverStage(hexList: seq<string>, i: nat): nat
    requires i <= |hexList|
  {
    if i == 0 then 0
    else if hexList[i - 1] == "" then LeftoverStage(hexList, i - 1)
    else Stages(hexList[i - 1]) - 1
  }

  /** A loop over the stages of a signature that is not blank ends with `j` on its last one. */
  lemma LeftoverNext(hexList: seq<string>, i: nat, next: nat)
    requires i < |hexList| && next % 2 == 0 && next / 2 <= Stages(hexList[i]) && next >= |hexList[i]|
    ensures LeftoverStage(hexList, i + 1) == if next == 0 then LeftoverStage(hexList, i) else (next - 2) / 2
    ensures next / 2 == Stages(hexList[i])
  {}

  ghost predicate HexTexts(hexList: seq<string>) {
    forall i :: 0 <= i < |hexList| ==> HexText(hexList[i])
  }

  ghost predicate NoBlank(hexList: seq<string>) {
    forall i :: 0 <= i < |hexList| ==> hexList[i] != ""
  }

  ghost predicate HasStage(hexList: seq<string>, i: nat, k: nat) {
    i < |hexList| && k < Stages(hexList[i])
  }

  ghost predicate Admissible(hexList: seq<string>) {
    HexTexts(hexList) && NoBlank(hexList) && EvenDigits(hexList)
  }

  /** The signature that `hexList[i]` spells. */
  ghost function Signature(hexList: seq<string>, i: nat): Line
    requires HexTexts(hexList) && i < |hexList|
  {
    Decode(hexList[i])
  }

  /** The exceptions the script dies of: `decode("hex")` of an odd number of digits, and reading the loop
      variable `j` before any loop has assigned it. */
  datatype Result = Written(design: Design) | TypeError | UnboundLocalError

  predicate EvenDigits(hexList: seq<string>) {
    forall i :: 0 <= i < |hexList| ==> |hexList[i]| % 2 == 0
  }

  lemma LastStage(hexList: seq<string>, i: nat)
    requires NoBlank(hexList) && i < |hexList|
    ensures LeftoverStage(hexList, i + 1) == Stages(hexList[i]) - 1
  {}

  lemma SliceText(h: string, k: nat)
    requires HexText(h) && k < Stages(h)
    ensures Slice(h, k) != "" && HexText(Slice(h, k))
  {
    forall c | c in Slice(h, k) ensures c in h {}
  }

  lemma StagesSignature(hexList: seq<string>, i: nat)
    requires Admissible(hexList) && i < |hexList|
    ensures Stages(hexList[i]) == |Signature(hexList, i)| > 0
  {}

  lemma LiteralOfSlice(hexList: seq<string>, i: nat, k: nat)
    requires Admissible(hexList) && HasStage(hexList, i, k)
    ensures k < |Signature(hexList, i)|
    ensures Literal(Slice(hexList[i], k)) == Vector(Signature(hexList, i)[k])
  {}
}
