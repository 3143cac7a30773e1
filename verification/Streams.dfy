/** What the detectors are for: a signature occurring in a stream of bytes. */
module Streams {
  import opened Bytes
  import opened Hex

  predicate EndsWith(stream: Line, sig: Line) {
    |sig| <= |stream| && stream[|stream| - |sig|..] == sig
  }

  /** `sig` is a contiguous part of `stream`. */
  ghost predicate Occurs(sig: Line, stream: Line) {
    exists p :: 0 <= p <= |stream| && EndsWith(stream[..p], sig)
  }

  lemma OccursAppend(sig: Line, stream: Line, b: Byte)
    ensures Occurs(sig, stream + [b]) <==> Occurs(sig, stream) || EndsWith(stream + [b], sig)
  {
    var longer := stream + [b];
    if Occurs(sig, stream) {
      var p :| 0 <= p <= |stream| && EndsWith(stream[..p], sig);
      assert longer[..p] == stream[..p];
    }
    if EndsWith(longer, sig) {
      assert longer[..|longer|] == longer;
    }
    if Occurs(sig, longer) {
      var p :| 0 <= p <= |longer| && EndsWith(longer[..p], sig);
      assert p == |longer| ==> longer[..p] == longer;
      assert p < |longer| ==> longer[..p] == stream[..p];
    }
  }

  lemma OccursEmpty(sig: Line)
    requires sig != []
    ensures !Occurs(sig, [])
  {}

  lemma OccursItself(sig: Line)
    ensures Occurs(sig, sig)
  {
    assert sig[..|sig|] == sig && EndsWith(sig[..|sig|], sig);
  }

  lemma OccursLonger(sig: Line, stream: Line)
    requires |sig| > |stream|
    ensures !Occurs(sig, stream)
  {}

  /** A later end of the stream never loses an occurrence. */
  lemma OccursPrefix(sig: Line, stream: Line, n: nat)
    requires n <= |stream| && Occurs(sig, stream[..n])
    ensures Occurs(sig, stream)
  {
    var p :| 0 <= p <= n && EndsWith(stream[..n][..p], sig);
    assert stream[..n][..p] == stream[..p];
  }

  lemma EndsWithAppend(stream: Line, sig: Line, k: nat, b: Byte)
    requires k < |sig|
    ensures EndsWith(stream + [b], sig[..k + 1]) <==> EndsWith(stream, sig[..k]) && b == sig[k]
  {
    var longer := stream + [b];
    assert longer[|longer| - 1] == b && sig[..k + 1][k] == sig[k];
    if k <= |stream| {
      assert longer[|longer| - (k + 1)..] == stream[|stream| - k..] + [b];
      assert sig[..k + 1] == sig[..k] + [sig[k]];
    }
  }

  /** A factor of something that occurs occurs too. */
  lemma OccursFactor(part: Line, whole: Line, stream: Line)
    requires Occurs(part, whole) && Occurs(whole, stream)
    ensures Occurs(part, stream)
  {
    var p :| 0 <= p <= |stream| && EndsWith(stream[..p], whole);
    var q :| 0 <= q <= |whole| && EndsWith(whole[..q], part);
    var start := p - |whole|;
    assert forall j :: 0 <= j < |whole| ==> stream[start + j] == stream[..p][start..][j];
    assert stream[..start + q][start + q - |part|..] == whole[..q][q - |part|..];
    assert EndsWith(stream[..start + q], part);
  }

  lemma EndsWithSuffix(part: Line, whole: Line, stream: Line)
    requires EndsWith(whole, part) && EndsWith(stream, whole)
    ensures EndsWith(stream, part)
  {
    assert stream[|stream| - |part|..] == stream[|stream| - |whole|..][|whole| - |part|..];
  }

  /** The number of positions at which an occurrence, possibly overlapping others, ends. */
  function Occurrences(sig: Line, stream: Line): nat {
    if stream == [] then 0
    else Occurrences(sig, stream[..|stream| - 1]) + (if EndsWith(stream, sig) then 1 else 0)
  }
}
