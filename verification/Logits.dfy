/** Logits and the greedy choice among them. */
module Logits {
  import opened Wrappers

  type Token = nat

  /** A float up to rounding: finite values are read as reals. */
  datatype Float = Finite(value: real) | PositiveInfinity | NegativeInfinity | NaN

  /** Every finite logit is below the one at `i`, strictly so to its left. */
  ghost predicate IsFirstMaximum(logits: seq<Float>, i: nat)
  {
    && i < |logits| && logits[i].Finite?
    && (forall j :: 0 <= j < |logits| && logits[j].Finite? ==> logits[j].value <= logits[i].value)
    && (forall j :: 0 <= j < i && logits[j].Finite? ==> logits[j].value < logits[i].value)
  }

  ghost predicate NoneFinite(logits: seq<Float>)
  {
    forall j :: 0 <= j < |logits| ==> !logits[j].Finite?
  }

  /** The first position of the largest finite logit, or 0 if there is none. */
  function Argmax(logits: seq<Float>): (best: Token)
    ensures IsFirstMaximum(logits, best) || (NoneFinite(logits) && best == 0)
  {
    if logits == [] then 0
    else
      var n := |logits| - 1;
      var before := Argmax(logits[..n]);
      assert NoneFinite(logits[..n]) || IsFirstMaximum(logits[..n], before);
      if logits[n].Finite? && (n == 0 || !logits[before].Finite? || logits[n].value > logits[before].value)
      then n else before
  }

  /** The two conditions leave one possible answer. */
  lemma ArgmaxIsUnique(logits: seq<Float>, i: nat)
    requires IsFirstMaximum(logits, i) || (NoneFinite(logits) && i == 0)
    ensures i == Argmax(logits)
  {
  }

  /** The verifier's argmax: starts from negative infinity. */
  method ArgmaxFiniteToken(logits: seq<Float>) returns (token: Token)
    ensures token == Argmax(logits)
  {
    token := 0;
    var best: Option<real> := None;
    for i := 0 to |logits|
      invariant if best.None? then token == 0 && NoneFinite(logits[..i]) else IsFirstMaximum(logits[..i], token)
      invariant best.Some? ==> logits[token] == Finite(best.value)
    {
      if logits[i].Finite? && (best.None? || logits[i].value > best.value) {
        best := Some(logits[i].value);
        token := i;
      }
    }
    assert logits[..|logits|] == logits;
    ArgmaxIsUnique(logits, token);
  }

  /** The sampler's argmax: starts from the first logit and reads the rest clamped. */
  method SamplerArgmax(logits: seq<Float>) returns (token: Token)
    ensures token == Argmax(logits)
  {
    token := 0;
    var best: Option<real> := if logits != [] && logits[0].Finite? then Some(logits[0].value) else None;
    if logits == [] {
      return;
    }
    for i := 1 to |logits|
      invariant if best.None? then token == 0 && NoneFinite(logits[..i]) else IsFirstMaximum(logits[..i], token)
      invariant best.Some? ==> logits[token] == Finite(best.value)
    {
      if logits[i].Finite? && (best.None? || logits[i].value > best.value) {
        best := Some(logits[i].value);
        token := i;
      }
    }
    assert logits[..|logits|] == logits;
    ArgmaxIsUnique(logits, token);
  }
}
