/**
 Top-k sampling and the repetition penalty in plain terms: which tokens may be drawn, with which
 weights, and where a draw falls; and what a penalty makes of a logit.
 */
module SamplingLaws {
  import opened Wrappers
  import opened Logits
  import opened Sampling

  /** Token `a` comes before token `b`: larger, or equally large and of the smaller number. */
  ghost predicate Before(logits: seq<Float>, a: nat, b: nat)
    requires a < |logits| && b < |logits|
  {
    if logits[a].Finite? && logits[b].Finite? then
      logits[a].value > logits[b].value || (logits[a].value == logits[b].value && a < b)
    else logits[a].Finite? || (!logits[b].Finite? && a < b)
  }

  /** The `k` best tokens, or all if there are no more, best first. */
  ghost predicate AreBest(logits: seq<Float>, k: nat, order: seq<nat>)
  {
    && |order| == (if k <= |logits| then k else |logits|)
    && (forall i :: 0 <= i < |order| ==> order[i] < |logits|)
    && (forall i, j :: 0 <= i < j < |order| ==> Before(logits, order[i], order[j]))
    && (forall t: nat, i :: t < |logits| && t !in order && 0 <= i < |order| ==> Before(logits, order[i], t))
  }

  lemma {:induction false} BestAreUnique(logits: seq<Float>, k: nat, a: seq<nat>, b: seq<nat>, n: nat)
    requires AreBest(logits, k, a) && AreBest(logits, k, b) && n <= |a|
    ensures a[..n] == b[..n]
    decreases n
  {
    if n > 0 {
      var i := n - 1;
      BestAreUnique(logits, k, a, b, i);
      NextIsBefore(logits, k, b, a, i);
      NextIsBefore(logits, k, a, b, i);
      assert a[..n] == a[..i] + [a[i]] && b[..n] == b[..i] + [b[i]];
    }
  }

  /** Of two lists that agree so far, the next token of one comes before any other that the other may go on with. */
  lemma NextIsBefore(logits: seq<Float>, k: nat, a: seq<nat>, b: seq<nat>, i: nat)
    requires AreBest(logits, k, a) && AreBest(logits, k, b) && i < |a| && a[..i] == b[..i]
    ensures a[i] != b[i] ==> Before(logits, a[i], b[i])
  {
    forall j | 0 <= j < i
      ensures a[j] == b[j] && b[j] != b[i]
    {
      assert a[j] == a[..i][j] && b[j] == b[..i][j];
      assert Before(logits, b[j], b[i]);
    }
    if b[i] in a {
      var j :| 0 <= j < |a| && a[j] == b[i];
      assert j > i ==> Before(logits, a[i], a[j]);
    }
  }

  /** The exponential of the distance from the best logit, divided by the temperature; nothing for a non-finite one. */
  ghost predicate Weighs(logit: Float, best: real, invTemp: real, exp: real -> real, weight: real)
  {
    if logit.Finite? then exists power :: power == (logit.value - best) * invTemp && weight == exp(power)
    else weight == 0.0
  }

  ghost predicate AreWeights(logits: seq<Float>, order: seq<nat>, invTemp: real, exp: real -> real, w: seq<real>)
  {
    && |w| == |order| && (forall i :: 0 <= i < |order| ==> order[i] < |logits|)
    && (order != [] ==> logits[order[0]].Finite?)
    && forall i :: 0 <= i < |order| ==> Weighs(logits[order[i]], logits[order[0]].value, invTemp, exp, w[i])
  }

  /** The first `cutoff` positions are the best one and those that pass both truncations. */
  ghost predicate IsCutoff(w: seq<real>, minP: real, topP: real, cutoff: nat)
  {
    && 1 <= cutoff <= |w|
    && forall i :: 0 <= i < |w| ==> (i < cutoff <==> i == 0 || Passes(w, minP, topP, i))
  }

  /** It weighs at least the min-p part of the best, and the mass before it is within the top-p part of the whole. */
  ghost predicate Passes(w: seq<real>, minP: real, topP: real, i: nat)
    requires i < |w|
  {
    (minP > 0.0 ==> w[i] >= minP * w[0]) && (topP < 1.0 ==> Total(w[..i]) <= topP * Total(w))
  }

  /** The draw falls on `at`: as far into the kept mass as `u` says. */
  ghost predicate FallsOn(w: seq<real>, cutoff: nat, u: real, at: nat)
  {
    at < cutoff <= |w| && Total(w[..at]) <= u * Total(w[..cutoff]) < Total(w[..at + 1])
  }

  /** The token on which the draw falls, among the `k` best. */
  ghost predicate IsSampled(
    logits: seq<Float>, k: nat, topP: real, minP: real, invTemp: real, u: real, exp: real -> real, token: Token)
  {
    exists order: seq<nat>, w: seq<real>, cutoff: nat, at: nat ::
      && AreBest(logits, k, order) && AreWeights(logits, order, invTemp, exp, w)
      && IsCutoff(w, minP, topP, cutoff) && FallsOn(w, cutoff, u, at)
      && at < |order| && order[at] == token
  }

  /** The mass of a list is the sum of its weights. */
  lemma TotalIsSum(w: seq<real>, last: real)
    ensures Total([]) == 0.0 && Total(w + [last]) == Total(w) + last
  {
    assert (w + [last])[..|w|] == w;
  }

  function Tokens(kept: seq<Candidate>): (order: seq<nat>)
    ensures |order| == |kept| && forall i :: 0 <= i < |kept| ==> order[i] == kept[i].index
  {
    seq(|kept|, i requires 0 <= i < |kept| => kept[i].index)
  }

  /** Every entry of the ranking belongs to its token, and every token has one. */
  lemma RankingIsComplete(logits: seq<Float>)
    ensures forall c :: c in Ranking(logits, |logits|) ==> c.index < |logits| && c.logit == Clamp(logits[c.index])
    ensures forall t: nat :: t < |logits| ==> Candidate(t, Clamp(logits[t])) in Ranking(logits, |logits|)
  {
    var (r, all) := (Ranking(logits, |logits|), Candidates(logits, |logits|));
    RankingIsStableSort(logits, |logits|);
    forall c | c in r
      ensures c in all
    {
      assert c in multiset(r);
    }
    forall t: nat | t < |logits|
      ensures Candidate(t, Clamp(logits[t])) in r
    {
      assert all[t] in multiset(all);
    }
  }

  lemma AheadIsBefore(logits: seq<Float>, a: Candidate, b: Candidate)
    requires a.index < |logits| && a.logit == Clamp(logits[a.index])
    requires b.index < |logits| && b.logit == Clamp(logits[b.index])
    ensures Ahead(a, b) <==> Before(logits, a.index, b.index)
  {
  }

  /** The kept candidates are the best tokens. */
  lemma KeptAreBest(logits: seq<Float>, k: nat)
    ensures AreBest(logits, k, Tokens(Kept(logits, k)))
  {
    var (r, kept) := (Ranking(logits, |logits|), Kept(logits, k));
    var order := Tokens(kept);
    RankingIsRanked(logits, |logits|);
    RankingIsComplete(logits);
    assert forall i :: 0 <= i < |kept| ==> kept[i] == r[i] && r[i] in r && order[i] == r[i].index && order[i] in order;
    forall i, j | 0 <= i < j < |order|
      ensures Before(logits, order[i], order[j])
    {
      AheadIsBefore(logits, r[i], r[j]);
    }
    forall t: nat, i | t < |logits| && t !in order && 0 <= i < |order|
      ensures Before(logits, order[i], t)
    {
      KeptBeforeOthers(logits, r, |order|, i, t);
    }
  }

  lemma KeptBeforeOthers(logits: seq<Float>, r: seq<Candidate>, n: nat, i: nat, t: nat)
    requires Ranked(r) && i < n <= |r| && t < |logits| && forall j :: 0 <= j < n ==> r[j].index != t
    requires Candidate(t, Clamp(logits[t])) in r
    requires r[i].index < |logits| && r[i].logit == Clamp(logits[r[i].index])
    ensures Before(logits, r[i].index, t)
  {
    var c := Candidate(t, Clamp(logits[t]));
    var j :| 0 <= j < |r| && r[j] == c;
    AheadIsBefore(logits, r[i], c);
  }

  lemma KeptWeights(logits: seq<Float>, k: nat, invTemp: real, exp: real -> real)
    requires Kept(logits, k) != [] && Kept(logits, k)[0].logit.Some?
    ensures
      var kept := Kept(logits, k);
      AreWeights(logits, Tokens(kept), invTemp, exp, Weights(exp, kept[0].logit.value, invTemp, kept))
  {
    var (r, kept) := (Ranking(logits, |logits|), Kept(logits, k));
    RankingIsComplete(logits);
    var (order, w) := (Tokens(kept), Weights(exp, kept[0].logit.value, invTemp, kept));
    forall i | 0 <= i < |kept|
      ensures order[i] < |logits| && kept[i].logit == Clamp(logits[order[i]])
      ensures w[i] == Weight(exp, kept[0].logit.value, invTemp, kept[i])
    {
      assert kept[i] == r[i] && r[i] in r;
    }
    WeightsSpelled(logits, order, kept, invTemp, exp, w);
  }

  lemma WeightSpelled(exp: real -> real, best: real, invTemp: real, c: Candidate, logit: Float)
    requires c.logit == Clamp(logit)
    ensures Weighs(logit, best, invTemp, exp, Weight(exp, best, invTemp, c))
  {
    if logit.Finite? {
      var power := (logit.value - best) * invTemp;
      FiniteWeight(exp, best, invTemp, c.index, logit.value, power);
      assert c == Candidate(c.index, Some(logit.value));
    }
  }

  lemma FiniteWeight(exp: real -> real, best: real, invTemp: real, index: nat, v: real, power: real)
    requires power == (v - best) * invTemp
    ensures Weight(exp, best, invTemp, Candidate(index, Some(v))) == exp(power)
  {
  }

  lemma WeightsSpelled(
    logits: seq<Float>, order: seq<nat>, kept: seq<Candidate>, invTemp: real, exp: real -> real, w: seq<real>)
    requires kept != [] && |w| == |order| == |kept| && kept[0].logit.Some?
    requires forall i :: 0 <= i < |kept| ==> order[i] < |logits| && kept[i].logit == Clamp(logits[order[i]])
    requires forall i :: 0 <= i < |kept| ==> w[i] == Weight(exp, kept[0].logit.value, invTemp, kept[i])
    ensures AreWeights(logits, order, invTemp, exp, w)
  {
    var best := kept[0].logit.value;
    assert logits[order[0]] == Finite(best);
    forall i | 0 <= i < |order|
      ensures Weighs(logits[order[i]], best, invTemp, exp, w[i])
    {
      assert kept[i].logit == Clamp(logits[order[i]]);
      assert w[i] == Weight(exp, best, invTemp, kept[i]);
      WeightSpelled(exp, best, invTemp, kept[i], logits[order[i]]);
    }
  }

  /** If any logit is finite, the best one is. */
  lemma BestIsFinite(logits: seq<Float>, k: nat, t: nat)
    requires k > 0 && t < |logits| && logits[t].Finite?
    ensures Kept(logits, k) != [] && Kept(logits, k)[0].logit.Some?
  {
    var (r, c) := (Ranking(logits, |logits|), Candidate(t, Clamp(logits[t])));
    RankingIsRanked(logits, |logits|);
    RankingIsComplete(logits);
    var j :| 0 <= j < |r| && r[j] == c;
    assert j > 0 ==> Ahead(r[0], r[j]);
  }

  lemma PickedIsCutoff(w: seq<real>, minP: real, topP: real, u: real, at: nat)
    requires at < |w| && Picks(w, minP, topP, u, at)
    ensures exists cutoff: nat :: IsCutoff(w, minP, topP, cutoff) && FallsOn(w, cutoff, u, at)
  {
    var cutoff: nat :| IsNucleus(w, minP, topP, cutoff) && PicksWithin(w, cutoff, u, at);
    forall i | 0 <= i < |w|
      ensures i < cutoff <==> i == 0 || Passes(w, minP, topP, i)
    {
      assert i < cutoff <==> Belongs(w, minP, topP, i);
    }
    assert IsCutoff(w, minP, topP, cutoff) && FallsOn(w, cutoff, u, at);
  }

  /** What top-k sampling returns is the token on which the draw falls. */
  lemma ChoiceIsSampled(
    logits: seq<Float>, k: nat, topP: real, minP: real, invTemp: real, u: real, exp: real -> real, finite: nat)
    requires k > 1 && finite < |logits| && logits[finite].Finite?
    requires Exponential(exp) && invTemp > 0.0 && 0.0 <= u < 1.0
    ensures IsSampled(logits, k, topP, minP, invTemp, u, exp, TopKChoice(logits, k, topP, minP, invTemp, u, exp))
  {
    BestIsFinite(logits, k, finite);
    var kept := Kept(logits, k);
    var w := Weights(exp, kept[0].logit.value, invTemp, kept);
    var at := WeightChoice(w, minP, topP, u);
    TokenIsPicked(logits, k, topP, minP, invTemp, u, exp, at);
    PickedIsCutoff(w, minP, topP, u, at);
    KeptAreBest(logits, k);
    KeptWeights(logits, k, invTemp, exp);
    var cutoff: nat :| IsCutoff(w, minP, topP, cutoff) && FallsOn(w, cutoff, u, at);
    assert AreBest(logits, k, Tokens(kept)) && AreWeights(logits, Tokens(kept), invTemp, exp, w);
  }

  lemma OneCutoff(w: seq<real>, minP: real, topP: real, a: nat, b: nat)
    requires IsCutoff(w, minP, topP, a) && IsCutoff(w, minP, topP, b)
    ensures a == b
  {
    assert a < |w| ==> !Passes(w, minP, topP, a);
    assert b < |w| ==> !Passes(w, minP, topP, b);
  }

  lemma OnePosition(w: seq<real>, cutoff: nat, u: real, a: nat, b: nat)
    requires FallsOn(w, cutoff, u, a) && FallsOn(w, cutoff, u, b) && forall n :: 0 <= n < |w| ==> w[n] >= 0.0
    ensures a == b
  {
    if a < b {
      TotalGrows(w, a + 1, b);
    }
    if b < a {
      TotalGrows(w, b + 1, a);
    }
  }

  lemma SameWeights(logits: seq<Float>, order: seq<nat>, invTemp: real, exp: real -> real, a: seq<real>, b: seq<real>)
    requires AreWeights(logits, order, invTemp, exp, a) && AreWeights(logits, order, invTemp, exp, b) && Exponential(exp)
    ensures a == b && forall n :: 0 <= n < |a| ==> a[n] >= 0.0
  {
    forall n | 0 <= n < |a|
      ensures a[n] == b[n] >= 0.0
    {
      SameWeight(logits[order[n]], logits[order[0]].value, invTemp, exp, a[n], b[n]);
    }
  }

  lemma SameWeight(logit: Float, best: real, invTemp: real, exp: real -> real, a: real, b: real)
    requires Weighs(logit, best, invTemp, exp, a) && Weighs(logit, best, invTemp, exp, b) && Exponential(exp)
    ensures a == b >= 0.0
  {
  }

  lemma WhySampled(
    logits: seq<Float>, k: nat, topP: real, minP: real, invTemp: real, u: real, exp: real -> real, token: Token)
    returns (order: seq<nat>, w: seq<real>, cutoff: nat, at: nat)
    requires IsSampled(logits, k, topP, minP, invTemp, u, exp, token)
    ensures AreBest(logits, k, order) && AreWeights(logits, order, invTemp, exp, w)
    ensures IsCutoff(w, minP, topP, cutoff) && FallsOn(w, cutoff, u, at) && at < |order| && order[at] == token
  {
    order, w, cutoff, at :|
      && AreBest(logits, k, order) && AreWeights(logits, order, invTemp, exp, w)
      && IsCutoff(w, minP, topP, cutoff) && FallsOn(w, cutoff, u, at)
      && at < |order| && order[at] == token;
  }

  /** The draw falls on one token and no other. */
  lemma SampledIsUnique(
    logits: seq<Float>, k: nat, topP: real, minP: real, invTemp: real, u: real, exp: real -> real, a: Token, b: Token)
    requires Exponential(exp)
    requires IsSampled(logits, k, topP, minP, invTemp, u, exp, a) && IsSampled(logits, k, topP, minP, invTemp, u, exp, b)
    ensures a == b
  {
    var o1, w1, c1, i1 := WhySampled(logits, k, topP, minP, invTemp, u, exp, a);
    var o2, w2, c2, i2 := WhySampled(logits, k, topP, minP, invTemp, u, exp, b);
    SameOrder(logits, k, o1, o2);
    SameWeights(logits, o1, invTemp, exp, w1, w2);
    OneCutoff(w1, minP, topP, c1, c2);
    OnePosition(w1, c1, u, i1, i2);
  }

  lemma SameOrder(logits: seq<Float>, k: nat, a: seq<nat>, b: seq<nat>)
    requires AreBest(logits, k, a) && AreBest(logits, k, b)
    ensures a == b
  {
    BestAreUnique(logits, k, a, b, |a|);
    assert a[..|a|] == a && b[..|b|] == b;
  }

  /**
   Samples one token from the `k` best; `u` is the random draw. With an exponential and a draw
   from the unit interval the result is the one token on which the draw falls.
   */
  method SampleTopK(
    logits: seq<Float>, k: nat, topP: real, minP: real, invTemp: real, u: real, exp: real -> real)
    returns (token: Token)
    requires k > 0
    ensures token == TopKChoice(logits, k, topP, minP, invTemp, u, exp)
    ensures k == 1 || NoneFinite(logits) ==> token == Argmax(logits)
    ensures k > 1 && !NoneFinite(logits) && Exponential(exp) && invTemp > 0.0 && 0.0 <= u < 1.0 ==>
              IsSampled(logits, k, topP, minP, invTemp, u, exp, token)
  {
    if k > 1 && !NoneFinite(logits) && Exponential(exp) && invTemp > 0.0 && 0.0 <= u < 1.0 {
      var t :| 0 <= t < |logits| && logits[t].Finite?;
      ChoiceIsSampled(logits, k, topP, minP, invTemp, u, exp, t);
    }
    if k == 1 {
      token := ArgmaxFiniteToken(logits);
      return;
    }
    var buffer, len := TopCandidates(logits, k);
    var kept := buffer[..len];
    if kept == [] || kept[0].logit.None? {
      token := ArgmaxFiniteToken(logits);
      return;
    }
    KeptAreBest(logits, k);
    KeptWeights(logits, k, invTemp, exp);
    var at := DrawPosition(Weights(exp, kept[0].logit.value, invTemp, kept), minP, topP, u);
    token := kept[at].index;
  }

  // ---------- The repetition penalty ----------

  function Power(x: real, n: nat): real
  {
    if n == 0 then 1.0 else Power(x, n - 1) * x
  }

  lemma {:induction false} PowerIsPositive(x: real, n: nat)
    requires x > 0.0
    ensures Power(x, n) > 0.0
    decreases n
  {
    if n > 0 {
      PowerIsPositive(x, n - 1);
    }
  }

  /** `w` is what is left of `v` when a positive value is divided by `p` and any other multiplied by it. */
  predicate IsPenalized(v: real, w: real, p: real)
  {
    if v > 0.0 then w * p == v && w > 0.0 else w == v * p && w <= 0.0
  }

  /** A penalty acts once per occurrence. */
  lemma {:induction false} PenaltyIsPower(v: real, penalty: real, times: nat)
    requires penalty > 0.0
    ensures
      var w := PenalizeTimes(Finite(v), penalty, times);
      w.Finite? && IsPenalized(v, w.value, Power(penalty, times))
    decreases times
  {
    if times > 0 {
      PenaltyIsPower(v, penalty, times - 1);
      var (before, p) := (PenalizeTimes(Finite(v), penalty, times - 1).value, Power(penalty, times - 1));
      OnceMore(v, before, penalty, p);
      OneStep(v, before, penalty, p, times);
    }
  }

  lemma OneStep(v: real, before: real, penalty: real, p: real, times: nat)
    requires penalty > 0.0 && times > 0
    requires PenalizeTimes(Finite(v), penalty, times - 1) == Finite(before) && Power(penalty, times - 1) == p
    ensures PenalizeTimes(Finite(v), penalty, times) == Penalize(Finite(before), penalty)
    ensures Power(penalty, times) == p * penalty
  {
  }

  lemma OnceMore(v: real, before: real, penalty: real, p: real)
    requires penalty > 0.0 && IsPenalized(v, before, p)
    ensures
      var w := Penalize(Finite(before), penalty);
      w.Finite? && IsPenalized(v, w.value, p * penalty)
  {
    if v > 0.0 {
      Divided(before, penalty, p, v);
    } else {
      Multiplied(v, penalty, p, before);
    }
  }

  /** A logit that is not finite is ruled out by one occurrence. */
  lemma {:induction false} NonFiniteIsRuledOut(v: Float, penalty: real, times: nat)
    requires penalty > 0.0 && times > 0 && !v.Finite?
    ensures PenalizeTimes(v, penalty, times) == NegativeInfinity
    decreases times
  {
    if times > 1 {
      NonFiniteIsRuledOut(v, penalty, times - 1);
    }
  }

  lemma Divided(w: real, penalty: real, p: real, v: real)
    requires penalty > 0.0 && w > 0.0 && w * p == v
    ensures w / penalty > 0.0 && w / penalty * (p * penalty) == v
  {
    var q := w / penalty;
    assert q * penalty == w;
    assert q * (p * penalty) == q * penalty * p;
  }

  lemma Multiplied(v: real, penalty: real, p: real, w: real)
    requires penalty > 0.0 && w <= 0.0 && w == v * p
    ensures w * penalty == v * (p * penalty) && w * penalty <= 0.0
  {
  }
}
