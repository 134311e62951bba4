/**
 Choosing a token from logits: the repetition penalty, the bounded candidate list of top-k
 sampling, and the min-p and top-p truncations. Floats are read as reals, up to rounding.
 */
module Sampling {
  import opened Wrappers
  import opened Logits

  // ---------- Repetition penalty ----------

  /** One application of the penalty pushes a logit down; a non-finite one is ruled out. */
  function Penalize(v: Float, penalty: real): Float
    requires penalty > 0.0
  {
    if !v.Finite? then NegativeInfinity
    else if v.value > 0.0 then Finite(v.value / penalty)
    else Finite(v.value * penalty)
  }

  function PenalizeTimes(v: Float, penalty: real, times: nat): Float
    requires penalty > 0.0
  {
    if times == 0 then v else Penalize(PenalizeTimes(v, penalty, times - 1), penalty)
  }

  /**
   Applies the penalty in place. A token that occurs several times in the window is penalized
   as many times; tokens outside the vocabulary are ignored.
   */
  method ApplyRepeatPenalty(logits: array<Float>, recent: seq<Token>, penalty: real)
    requires penalty > 0.0
    modifies logits
    ensures forall t :: 0 <= t < logits.Length ==>
              logits[t] == if penalty == 1.0 then old(logits[t])
                           else PenalizeTimes(old(logits[t]), penalty, multiset(recent)[t])
  {
    if penalty == 1.0 {
      return;
    }
    for i := 0 to |recent|
      invariant forall t :: 0 <= t < logits.Length ==>
                  logits[t] == PenalizeTimes(old(logits[t]), penalty, multiset(recent[..i])[t])
    {
      assert recent[..i + 1] == recent[..i] + [recent[i]];
      if recent[i] < logits.Length {
        logits[recent[i]] := Penalize(logits[recent[i]], penalty);
      }
    }
    assert recent[..|recent|] == recent;
  }

  /** With a penalty of at least one no finite logit ever rises, and none changes sign. */
  lemma {:induction false} PenaltyNeverHelps(v: real, penalty: real, times: nat)
    requires penalty >= 1.0
    ensures
      var w := PenalizeTimes(Finite(v), penalty, times);
      w.Finite? && w.value <= v && (v > 0.0 ==> w.value > 0.0) && (v <= 0.0 ==> w.value <= 0.0)
    decreases times
  {
    if times > 0 {
      PenaltyNeverHelps(v, penalty, times - 1);
      PenaltyOnce(PenalizeTimes(Finite(v), penalty, times - 1).value, penalty);
    }
  }

  function Abs(x: real): real
  {
    if x < 0.0 then -x else x
  }

  lemma {:induction false} PenaltyBySign(v: real, penalty: real, times: nat)
    requires penalty > 1.0
    ensures
      var w := PenalizeTimes(Finite(v), penalty, times);
      && w.Finite?
      && (v > 0.0 ==> 0.0 < w.value <= v)
      && (v == 0.0 ==> w.value == 0.0)
      && (v < 0.0 ==> w.value <= v && (times > 0 ==> w.value < v))
    decreases times
  {
    if times > 0 {
      PenaltyBySign(v, penalty, times - 1);
      var w := PenalizeTimes(Finite(v), penalty, times - 1).value;
      PenaltyOnce(w, penalty);
      if w < 0.0 {
        StrictProduct(w, penalty - 1.0);
        assert w * penalty == w + w * (penalty - 1.0);
      }
    }
  }

  /**
   A real penalty moves a logit toward zero exactly if it is not negative: a negative one is
   pushed further away, whenever its token occurs in the window at all.
   */
  lemma PenaltyTowardZeroIff(v: real, penalty: real, times: nat)
    requires penalty > 1.0 && times > 0
    ensures
      var w := PenalizeTimes(Finite(v), penalty, times);
      w.Finite? && (Abs(w.value) <= Abs(v) <==> v >= 0.0)
  {
    PenaltyBySign(v, penalty, times);
  }

  lemma StrictProduct(a: real, b: real)
    requires a < 0.0 && b > 0.0
    ensures a * b < 0.0
  {
  }

  /** A logit of minus one, penalized by two, is further from zero than before. */
  lemma NegativeIsPushedAway()
    ensures PenalizeTimes(Finite(-1.0), 2.0, 1) == Finite(-2.0)
  {
    assert PenalizeTimes(Finite(-1.0), 2.0, 0) == Finite(-1.0);
  }

  lemma PenaltyOnce(w: real, p: real)
    requires p >= 1.0
    ensures
      var r := Penalize(Finite(w), p).value;
      r <= w && (w > 0.0 ==> r > 0.0) && (w <= 0.0 ==> r <= 0.0)
  {
    if w > 0.0 {
      var q := w / p;
      assert q * p == w;
      ProductSign(q, p);
      ProductSign(q, p - 1.0);
      assert q * (p - 1.0) == w - q;
    } else {
      ProductSign(w, p);
      ProductSign(w, p - 1.0);
      assert w * (p - 1.0) == w * p - w;
    }
  }

  lemma ProductSign(a: real, b: real)
    requires b >= 0.0
    ensures a >= 0.0 ==> a * b >= 0.0
    ensures a <= 0.0 ==> a * b <= 0.0
  {
  }

  // ---------- The candidate list ----------

  /** A candidate's logit; none stands for negative infinity. */
  datatype Candidate = Candidate(index: nat, logit: Option<real>)

  predicate Exceeds(a: Option<real>, b: Option<real>)
  {
    a.Some? && (b.None? || a.value > b.value)
  }

  function Clamp(logit: Float): Option<real>
  {
    if logit.Finite? then Some(logit.value) else None
  }

  /** Inserts behind everything that is at least as large. */
  function Insert(s: seq<Candidate>, x: Candidate): (t: seq<Candidate>)
    ensures |t| == |s| + 1
  {
    if s == [] || !Exceeds(x.logit, s[|s| - 1].logit) then s + [x]
    else Insert(s[..|s| - 1], x) + [s[|s| - 1]]
  }

  /** All logits, largest first, equal ones in order of their index. */
  function Ranking(logits: seq<Float>, n: nat): (t: seq<Candidate>)
    requires n <= |logits|
    ensures |t| == n
  {
    if n == 0 then [] else Insert(Ranking(logits, n - 1), Candidate(n - 1, Clamp(logits[n - 1])))
  }

  /** Strictly ahead in the ranking. */
  predicate Ahead(a: Candidate, b: Candidate)
  {
    Exceeds(a.logit, b.logit) || (!Exceeds(b.logit, a.logit) && a.index < b.index)
  }

  ghost predicate Ranked(s: seq<Candidate>)
  {
    forall i, j :: 0 <= i < j < |s| ==> Ahead(s[i], s[j])
  }

  /** Everything in the result is the new candidate or was there before. */
  lemma {:induction false} InsertAddsOnly(s: seq<Candidate>, x: Candidate, i: nat)
    requires i <= |s|
    ensures Insert(s, x)[i] == x || Insert(s, x)[i] in s
    decreases |s|
  {
    if s != [] && Exceeds(x.logit, s[|s| - 1].logit) && i < |s| {
      InsertAddsOnly(s[..|s| - 1], x, i);
    }
  }

  lemma {:induction false} InsertKeepsRanked(s: seq<Candidate>, x: Candidate)
    requires Ranked(s) && forall i :: 0 <= i < |s| ==> s[i].index < x.index
    ensures Ranked(Insert(s, x))
    decreases |s|
  {
    if s != [] && Exceeds(x.logit, s[|s| - 1].logit) {
      var (front, last) := (s[..|s| - 1], s[|s| - 1]);
      InsertKeepsRanked(front, x);
      var t := Insert(front, x);
      forall i | 0 <= i < |t|
        ensures Ahead(t[i], last)
      {
        InsertAddsOnly(front, x, i);
      }
    } else {
      assert forall i :: 0 <= i < |s| ==> Ahead(s[i], s[|s| - 1]) || i == |s| - 1;
    }
  }

  lemma {:induction false} InsertKeepsElements(s: seq<Candidate>, x: Candidate)
    ensures multiset(Insert(s, x)) == multiset(s) + multiset{x}
    decreases |s|
  {
    if s != [] {
      InsertKeepsElements(s[..|s| - 1], x);
      assert s == s[..|s| - 1] + [s[|s| - 1]];
    }
  }

  function Candidates(logits: seq<Float>, n: nat): (all: seq<Candidate>)
    requires n <= |logits|
  {
    seq(n, i requires 0 <= i < n => Candidate(i, Clamp(logits[i])))
  }

  /** The ranking lists every logit exactly once, in strictly descending rank. */
  lemma {:induction false} RankingIsStableSort(logits: seq<Float>, n: nat)
    requires n <= |logits|
    ensures Ranked(Ranking(logits, n))
    ensures multiset(Ranking(logits, n)) == multiset(Candidates(logits, n))
    decreases n
  {
    if n == 0 {
      assert Candidates(logits, n) == [];
    } else {
      RankingIsStableSort(logits, n - 1);
      var r, before, x := Ranking(logits, n - 1), Candidates(logits, n - 1), Candidate(n - 1, Clamp(logits[n - 1]));
      assert Candidates(logits, n) == before + [x];
      forall i | 0 <= i < |r|
        ensures r[i].index < n - 1
      {
        assert r[i] in multiset(before);
      }
      InsertKeepsRanked(r, x);
      InsertKeepsElements(r, x);
    }
  }

  /** Bounding the list to its first `k` entries loses nothing that could still matter. */
  lemma {:induction false} InsertWithinBound(s: seq<Candidate>, x: Candidate, k: nat)
    requires Ranked(s) && 0 < k <= |s|
    ensures Insert(s, x)[..k] == if Exceeds(x.logit, s[k - 1].logit) then Insert(s[..k - 1], x) else s[..k]
    decreases |s|
  {
    var (front, last) := (s[..|s| - 1], s[|s| - 1]);
    if Exceeds(x.logit, last.logit) {
      if k < |s| {
        InsertWithinBound(front, x, k);
        assert front[..k - 1] == s[..k - 1] && front[..k] == s[..k];
      }
    } else if k < |s| {
      assert Ahead(s[k - 1], last);
    }
  }

  /** Restores descending order after the last candidate was written. */
  method BubbleUpLast(candidates: array<Candidate>, len: nat)
    requires 0 < len <= candidates.Length
    modifies candidates
    ensures candidates[..len] == Insert(old(candidates[..len - 1]), old(candidates[len - 1]))
    ensures candidates[len..] == old(candidates[len..])
  {
    var i := len - 1;
    ghost var s, x := candidates[..len - 1], candidates[len - 1];
    assert s[..i] == s && s[i..] == [];
    while i > 0 && Exceeds(candidates[i].logit, candidates[i - 1].logit)
      invariant 0 <= i < len && candidates[i] == x
      invariant candidates[..i] == s[..i] && candidates[i + 1..len] == s[i..]
      invariant candidates[len..] == old(candidates[len..])
      invariant Insert(s[..i], x) + s[i..] == Insert(s, x)
    {
      InsertStep(s, x, i);
      SwapUp(candidates, i, s, x, len);
      i := i - 1;
    }
    assert candidates[..len] == s[..i] + [x] + s[i..];
  }

  /** Swaps the candidate that rises with the one before it. */
  method SwapUp(candidates: array<Candidate>, i: nat, ghost s: seq<Candidate>, ghost x: Candidate, ghost len: nat)
    requires 0 < i < len <= candidates.Length && |s| == len - 1
    requires candidates[i] == x && candidates[..i] == s[..i] && candidates[i + 1..len] == s[i..]
    modifies candidates
    ensures candidates[i - 1] == x && candidates[..i - 1] == s[..i - 1] && candidates[i..len] == s[i - 1..]
    ensures candidates[len..] == old(candidates[len..])
  {
    assert s[..i][i - 1] == s[i - 1] && s[..i][..i - 1] == s[..i - 1];
    candidates[i], candidates[i - 1] := candidates[i - 1], candidates[i];
    assert candidates[i..len] == [candidates[i]] + candidates[i + 1..len];
    assert s[i - 1..] == [s[i - 1]] + s[i..];
  }

  lemma InsertStep(s: seq<Candidate>, x: Candidate, i: nat)
    requires 0 < i <= |s| && Exceeds(x.logit, s[i - 1].logit)
    ensures Insert(s[..i], x) + s[i..] == Insert(s[..i - 1], x) + s[i - 1..]
  {
    assert s[..i][..i - 1] == s[..i - 1];
    assert s[i - 1..] == [s[i - 1]] + s[i..];
  }

  /** Offers one more logit to a list that already holds the best of those before it. */
  method Offer(candidates: array<Candidate>, len: nat, x: Candidate, ghost ranking: seq<Candidate>) returns (newLen: nat)
    requires 0 < candidates.Length && Ranked(ranking)
    requires len == (if candidates.Length <= |ranking| then candidates.Length else |ranking|)
    requires candidates[..len] == ranking[..len]
    modifies candidates
    ensures newLen == if len < candidates.Length then len + 1 else len
    ensures candidates[..newLen] == Insert(ranking, x)[..newLen]
  {
    newLen := len;
    if len < candidates.Length {
      assert ranking[..len] == ranking;
      candidates[len] := x;
      newLen := len + 1;
      assert candidates[..newLen - 1] == ranking;
      BubbleUpLast(candidates, newLen);
      assert Insert(ranking, x)[..newLen] == Insert(ranking, x);
    } else {
      InsertWithinBound(ranking, x, len);
      assert candidates[len - 1] == candidates[..len][len - 1];
      if Exceeds(x.logit, candidates[len - 1].logit) {
        assert candidates[..len - 1] == ranking[..len][..len - 1] == ranking[..len - 1];
        candidates[len - 1] := x;
        BubbleUpLast(candidates, newLen);
      }
    }
  }

  lemma RankingIsRanked(logits: seq<Float>, n: nat)
    requires n <= |logits|
    ensures Ranked(Ranking(logits, n))
  {
    RankingIsStableSort(logits, n);
  }

  /** Collects the `k` best logits in a bounded list, by insertion. */
  method TopCandidates(logits: seq<Float>, k: nat) returns (candidates: array<Candidate>, len: nat)
    requires k > 0
    ensures fresh(candidates) && len <= candidates.Length && len == (if k <= |logits| then k else |logits|)
    ensures candidates[..len] == Ranking(logits, |logits|)[..len]
  {
    candidates := new Candidate[k](_ => Candidate(0, None));
    len := 0;
    for idx := 0 to |logits|
      invariant fresh(candidates) && candidates.Length == k
      invariant len == (if k <= idx then k else idx)
      invariant candidates[..len] == Ranking(logits, idx)[..len]
    {
      RankingIsRanked(logits, idx);
      var x := Candidate(idx, Clamp(logits[idx]));
      len := Offer(candidates, len, x, Ranking(logits, idx));
      assert Ranking(logits, idx + 1) == Insert(Ranking(logits, idx), x);
    }
  }

  // ---------- Truncation and the draw ----------

  function Total(w: seq<real>): real
  {
    if w == [] then 0.0 else Total(w[..|w| - 1]) + w[|w| - 1]
  }

  /** The sampling weight of a candidate relative to the best one. */
  function Weight(exp: real -> real, best: real, invTemp: real, c: Candidate): real
  {
    if c.logit.Some? then exp((c.logit.value - best) * invTemp) else 0.0
  }

  function Weights(exp: real -> real, best: real, invTemp: real, s: seq<Candidate>): (w: seq<real>)
    ensures |w| == |s| && forall i :: 0 <= i < |s| ==> w[i] == Weight(exp, best, invTemp, s[i])
  {
    seq(|s|, i requires 0 <= i < |s| => Weight(exp, best, invTemp, s[i]))
  }

  function FirstBelow(w: seq<real>, threshold: real, from: nat): (at: nat)
    requires from <= |w|
    ensures from <= at <= |w|
    ensures forall i :: from <= i < at ==> w[i] >= threshold
    ensures at < |w| ==> w[at] < threshold
    decreases |w| - from
  {
    if from == |w| || w[from] < threshold then from else FirstBelow(w, threshold, from + 1)
  }

  /** The first position whose prefix sum exceeds `threshold`, or `limit`. */
  function FirstExceeding(w: seq<real>, threshold: real, from: nat, limit: nat): (at: nat)
    requires from <= limit <= |w|
    ensures from <= at <= limit
    ensures forall i :: from < i <= at ==> Total(w[..i]) <= threshold
    ensures at < limit ==> Total(w[..at + 1]) > threshold
    decreases limit - from
  {
    if from == limit || Total(w[..from + 1]) > threshold then from
    else FirstExceeding(w, threshold, from + 1, limit)
  }

  /** Length of the head down to the first weight below `floor`; the best candidate always stays. */
  function HeadAbove(w: seq<real>, floor: Option<real>): (limit: nat)
    requires w != []
    ensures 1 <= limit <= |w|
    ensures floor.Some? ==> forall i :: 1 <= i < limit ==> w[i] >= floor.value
    ensures floor.Some? && limit < |w| && w[0] >= floor.value ==> w[limit] < floor.value
    ensures floor.None? ==> limit == |w|
  {
    if floor.None? then |w|
    else
      var at := FirstBelow(w, floor.value, 0);
      if at == 0 then 1 else at
  }

  /** Length of the shortest prefix of `w[..limit]` whose mass exceeds `mass`, or all of it. */
  function PrefixExceeding(w: seq<real>, limit: nat, mass: Option<real>): (cutoff: nat)
    requires 1 <= limit <= |w|
    ensures 1 <= cutoff <= limit
    ensures mass.Some? ==> forall i :: 1 <= i < cutoff ==> Total(w[..i]) <= mass.value
    ensures mass.Some? && cutoff < limit ==> Total(w[..cutoff]) > mass.value
    ensures mass.None? ==> cutoff == limit
  {
    if mass.None? then limit
    else
      var at := FirstExceeding(w, mass.value, 0, limit);
      if at < limit then at + 1 else limit
  }

  /** A share of a whole. */
  function Share(fraction: real, whole: real): real
  {
    fraction * whole
  }

  /** The min-p floor is relative to the best weight; zero switches the filter off. */
  function Floor(w: seq<real>, minP: real): Option<real>
    requires w != []
  {
    if minP > 0.0 then Some(Share(minP, w[0])) else None
  }

  /** The top-p mass is relative to the whole mass; one switches the truncation off. */
  function Mass(w: seq<real>, topP: real): Option<real>
  {
    if topP < 1.0 then Some(Share(topP, Total(w))) else None
  }

  function Nucleus(w: seq<real>, minP: real, topP: real): (cutoff: nat)
    requires w != []
    ensures 1 <= cutoff <= |w|
  {
    PrefixExceeding(w, HeadAbove(w, Floor(w, minP)), Mass(w, topP))
  }

  /** Where a draw lands among the kept weights: the first prefix sum beyond it. */
  function Landing(w: seq<real>, cutoff: nat, threshold: real): (at: nat)
    requires 1 <= cutoff <= |w|
    ensures at < cutoff
    ensures forall i :: 0 < i <= at && at + 1 < cutoff ==> Total(w[..i]) <= threshold
  {
    var at := FirstExceeding(w, threshold, 0, cutoff);
    if at < cutoff then at else cutoff - 1
  }

  /** Position drawn from the kept weights; a degenerate mass falls back to the best candidate. */
  function WeightChoice(w: seq<real>, minP: real, topP: real, u: real): (at: nat)
    requires w != []
    ensures at < Nucleus(w, minP, topP)
  {
    var cutoff := Nucleus(w, minP, topP);
    if Total(w) <= 0.0 || Total(w[..cutoff]) <= 0.0 then 0 else Landing(w, cutoff, Share(u, Total(w[..cutoff])))
  }

  /** The token that top-k sampling returns, from the first `k` entries of the ranking. */
  function TopKChoice(
    logits: seq<Float>, k: nat, topP: real, minP: real, invTemp: real, u: real, exp: real -> real): (token: Token)
    requires k > 0
  {
    var kept := Kept(logits, k);
    if k == 1 || kept == [] || kept[0].logit.None? then Argmax(logits)
    else kept[WeightChoice(Weights(exp, kept[0].logit.value, invTemp, kept), minP, topP, u)].index
  }

  /** With a monotone exponential the weights descend, so both truncations keep the heaviest. */
  lemma WeightsDescend(exp: real -> real, best: real, invTemp: real, s: seq<Candidate>, i: nat, j: nat)
    requires Ranked(s) && i < j < |s| && invTemp > 0.0 && Exponential(exp)
    ensures Weights(exp, best, invTemp, s)[i] >= Weights(exp, best, invTemp, s)[j]
  {
    assert Ahead(s[i], s[j]);
    if s[j].logit.Some? {
      var (a, b) := (s[i].logit.value - best, s[j].logit.value - best);
      ProductSign(a - b, invTemp);
      assert a * invTemp - b * invTemp == (a - b) * invTemp;
    }
  }

  lemma {:induction false} TotalGrows(w: seq<real>, i: nat, j: nat)
    requires i <= j <= |w| && forall n :: 0 <= n < |w| ==> w[n] >= 0.0
    ensures Total(w[..i]) <= Total(w[..j])
    decreases j - i
  {
    if i < j {
      TotalGrows(w, i, j - 1);
      assert w[..j][..j - 1] == w[..j - 1];
    }
  }

  /**
   A draw lands on a position exactly if the point lies in that position's stretch of the kept
   mass. The stretch is as long as the weight, so positions are drawn in proportion to it.
   */
  lemma LandingIsExact(w: seq<real>, cutoff: nat, threshold: real, at: nat)
    requires 1 <= cutoff <= |w| && at < cutoff && forall n :: 0 <= n < |w| ==> w[n] >= 0.0
    requires 0.0 <= threshold < Total(w[..cutoff])
    ensures Landing(w, cutoff, threshold) == at <==> Total(w[..at]) <= threshold < Total(w[..at + 1])
  {
    var found := FirstExceeding(w, threshold, 0, cutoff);
    assert found < cutoff && Total(w[..0]) == 0.0;
    if found < at {
      TotalGrows(w, found + 1, at);
    }
  }

  /** Weights are not negative and never rise. */
  ghost predicate Descending(w: seq<real>)
  {
    && (forall i :: 0 <= i < |w| ==> w[i] >= 0.0)
    && (forall i, j :: 0 <= i < j < |w| ==> w[i] >= w[j])
  }

  /** A positive function that never falls, as the exponential is. */
  ghost predicate Exponential(exp: real -> real)
  {
    (forall x, y :: x <= y ==> exp(x) <= exp(y)) && (forall x :: exp(x) > 0.0)
  }

  lemma WeightsAreDescending(exp: real -> real, best: real, invTemp: real, s: seq<Candidate>)
    requires Ranked(s) && invTemp > 0.0 && Exponential(exp)
    ensures Descending(Weights(exp, best, invTemp, s))
  {
    var w := Weights(exp, best, invTemp, s);
    forall i, j | 0 <= i < j < |w|
      ensures w[i] >= w[j]
    {
      WeightsDescend(exp, best, invTemp, s, i, j);
    }
  }

  /** The head above a floor is the best candidate with all whose weight reaches it. */
  lemma HeadIsExact(w: seq<real>, floor: Option<real>, i: nat)
    requires Descending(w) && i < |w|
    ensures i < HeadAbove(w, floor) <==> i == 0 || (floor.Some? ==> w[i] >= floor.value)
  {
  }

  /** The prefix that first exceeds a mass ends with the last position that has no more before it. */
  lemma PrefixIsExact(w: seq<real>, limit: nat, mass: Option<real>, i: nat)
    requires Descending(w) && 1 <= limit <= |w| && i < |w|
    ensures i < PrefixExceeding(w, limit, mass) <==> i < limit && (i == 0 || (mass.Some? ==> Total(w[..i]) <= mass.value))
  {
    var cutoff := PrefixExceeding(w, limit, mass);
    if cutoff <= i < limit {
      TotalGrows(w, cutoff, i);
    }
  }

  /**
   Which positions may be drawn: the best one, and every other whose weight reaches the min-p
   share of the best weight while the mass before it is no more than the top-p share of the whole.
   */
  ghost predicate Belongs(w: seq<real>, minP: real, topP: real, i: nat)
    requires i < |w|
  {
    i == 0 || ((minP > 0.0 ==> w[i] >= Share(minP, w[0])) && (topP < 1.0 ==> Total(w[..i]) <= Share(topP, Total(w))))
  }

  /** The first `cutoff` positions are those that may be drawn. */
  ghost predicate IsNucleus(w: seq<real>, minP: real, topP: real, cutoff: nat)
  {
    1 <= cutoff <= |w| && forall i :: 0 <= i < |w| ==> (i < cutoff <==> Belongs(w, minP, topP, i))
  }

  lemma NucleusIsExact(w: seq<real>, minP: real, topP: real)
    requires Descending(w) && w != []
    ensures IsNucleus(w, minP, topP, Nucleus(w, minP, topP))
  {
    var limit := HeadAbove(w, Floor(w, minP));
    forall i | 0 <= i < |w|
      ensures i < Nucleus(w, minP, topP) <==> Belongs(w, minP, topP, i)
    {
      HeadIsExact(w, Floor(w, minP), i);
      PrefixIsExact(w, limit, Mass(w, topP), i);
    }
  }

  lemma NucleusIsUnique(w: seq<real>, minP: real, topP: real, a: nat, b: nat)
    requires IsNucleus(w, minP, topP, a) && IsNucleus(w, minP, topP, b)
    ensures a == b
  {
    assert a < |w| ==> !Belongs(w, minP, topP, a);
    assert b < |w| ==> !Belongs(w, minP, topP, b);
  }

  /** A draw picks a position: it may be drawn, and the point falls into its stretch of the kept mass. */
  ghost predicate Picks(w: seq<real>, minP: real, topP: real, u: real, at: nat)
    requires at < |w|
  {
    exists cutoff: nat :: IsNucleus(w, minP, topP, cutoff) && PicksWithin(w, cutoff, u, at)
  }

  ghost predicate PicksWithin(w: seq<real>, cutoff: nat, u: real, at: nat)
    requires cutoff <= |w| && at < |w|
  {
    at < cutoff && Total(w[..at]) <= Share(u, Total(w[..cutoff])) < Total(w[..at + 1])
  }

  /** Every draw picks one position, and it is the one returned. */
  lemma ChoiceIsPicked(w: seq<real>, minP: real, topP: real, u: real, at: nat)
    requires Descending(w) && at < |w| && w[0] > 0.0 && 0.0 <= u < 1.0
    ensures WeightChoice(w, minP, topP, u) == at <==> Picks(w, minP, topP, u, at)
  {
    var cutoff := Nucleus(w, minP, topP);
    NucleusIsExact(w, minP, topP);
    var mass := Total(w[..cutoff]);
    assert w[..1][..0] == [] && Total(w[..1]) == w[0];
    TotalGrows(w, 1, cutoff);
    TotalGrows(w, cutoff, |w|);
    assert w[..|w|] == w;
    ShareIsBelow(u, mass);
    if at < cutoff {
      LandingIsExact(w, cutoff, Share(u, mass), at);
    }
    if c: nat :| IsNucleus(w, minP, topP, c) && PicksWithin(w, c, u, at) {
      NucleusIsUnique(w, minP, topP, c, cutoff);
    }
  }

  lemma ShareIsBelow(u: real, mass: real)
    requires 0.0 <= u < 1.0 && mass > 0.0
    ensures 0.0 <= Share(u, mass) < mass
  {
    ProductSign(mass, u);
    StrictProduct(-mass, 1.0 - u);
    assert (-mass) * (1.0 - u) == u * mass - mass;
  }

  /** No two candidates of the ranking are the same token. */
  ghost predicate Distinct(s: seq<Candidate>, n: nat)
  {
    && (forall i :: 0 <= i < |s| ==> s[i].index < n)
    && (forall i, j :: 0 <= i < j < |s| ==> s[i].index != s[j].index)
  }

  lemma {:induction false} InsertKeepsDistinct(s: seq<Candidate>, x: Candidate)
    requires Distinct(s, x.index)
    ensures Distinct(Insert(s, x), x.index + 1)
    decreases |s|
  {
    if s != [] && Exceeds(x.logit, s[|s| - 1].logit) {
      var front := s[..|s| - 1];
      InsertKeepsDistinct(front, x);
      forall i | 0 <= i < |Insert(front, x)|
        ensures Insert(front, x)[i].index != s[|s| - 1].index
      {
        InsertAddsOnly(front, x, i);
      }
    }
  }

  lemma {:induction false} RankingIsDistinct(logits: seq<Float>, n: nat)
    requires n <= |logits|
    ensures Distinct(Ranking(logits, n), n)
    decreases n
  {
    if n > 0 {
      RankingIsDistinct(logits, n - 1);
      InsertKeepsDistinct(Ranking(logits, n - 1), Candidate(n - 1, Clamp(logits[n - 1])));
    }
  }

  /** The `k` best candidates, best first. */
  function Kept(logits: seq<Float>, k: nat): seq<Candidate>
  {
    Ranking(logits, |logits|)[..if k <= |logits| then k else |logits|]
  }

  /**
   What top-k sampling returns, in terms of weights alone: a token is drawn exactly if it is one
   of the `k` best and the draw picks its position.
   */
  lemma TokenIsPicked(
    logits: seq<Float>, k: nat, topP: real, minP: real, invTemp: real, u: real, exp: real -> real, at: nat)
    requires k > 1 && Exponential(exp) && invTemp > 0.0 && 0.0 <= u < 1.0
    requires at < |Kept(logits, k)| && Kept(logits, k)[0].logit.Some?
    ensures
      var kept := Kept(logits, k);
      TopKChoice(logits, k, topP, minP, invTemp, u, exp) == kept[at].index <==>
        Picks(Weights(exp, kept[0].logit.value, invTemp, kept), minP, topP, u, at)
  {
    var kept := Kept(logits, k);
    var w := Weights(exp, kept[0].logit.value, invTemp, kept);
    KeptIsRanked(logits, k);
    WeightsAreDescending(exp, kept[0].logit.value, invTemp, kept);
    assert w[0] == exp(0.0 * invTemp);
    ChoiceIsPicked(w, minP, topP, u, at);
    SameToken(kept, |logits|, WeightChoice(w, minP, topP, u), at);
  }

  lemma KeptIsRanked(logits: seq<Float>, k: nat)
    ensures Ranked(Kept(logits, k)) && Distinct(Kept(logits, k), |logits|)
  {
    RankingIsRanked(logits, |logits|);
    RankingIsDistinct(logits, |logits|);
  }

  lemma SameToken(kept: seq<Candidate>, n: nat, i: nat, j: nat)
    requires Distinct(kept, n) && i < |kept| && j < |kept|
    ensures kept[i].index == kept[j].index <==> i == j
  {
  }

  /** Sums the weights from left to right until the sum exceeds a threshold. */
  method Accumulate(w: seq<real>, limit: nat, threshold: real) returns (at: nat, sum: real)
    requires limit <= |w|
    ensures at == FirstExceeding(w, threshold, 0, limit)
    ensures sum == Total(w[..if at < limit then at + 1 else limit])
  {
    at, sum := 0, 0.0;
    while at < limit
      invariant at <= limit && sum == Total(w[..at])
      invariant FirstExceeding(w, threshold, at, limit) == FirstExceeding(w, threshold, 0, limit)
    {
      sum := sum + w[at];
      assert w[..at + 1][..at] == w[..at];
      if sum > threshold {
        return;
      }
      at := at + 1;
    }
  }

  method SumOf(w: seq<real>) returns (sum: real)
    ensures sum == Total(w)
  {
    sum := 0.0;
    for i := 0 to |w|
      invariant sum == Total(w[..i])
    {
      assert w[..i + 1][..i] == w[..i];
      sum := sum + w[i];
    }
    assert w[..|w|] == w;
  }

  /** Finds the nucleus and its mass with one running sum. */
  method Truncate(w: seq<real>, floor: Option<real>, mass: Option<real>) returns (cutoff: nat, keptSum: real)
    requires w != []
    ensures cutoff == PrefixExceeding(w, HeadAbove(w, floor), mass) && keptSum == Total(w[..cutoff])
  {
    var limit := HeadAbove(w, floor);
    cutoff := limit;
    keptSum := SumOf(w[..limit]);
    if mass.Some? {
      var first, cumulated := Accumulate(w, limit, mass.value);
      if first < limit {
        cutoff, keptSum := first + 1, cumulated;
      }
    }
  }

  /** Truncates and draws. */
  method DrawPosition(w: seq<real>, minP: real, topP: real, u: real) returns (at: nat)
    requires w != []
    ensures at == WeightChoice(w, minP, topP, u)
  {
    var sum := SumOf(w);
    if sum <= 0.0 {
      return 0;
    }
    var cutoff, keptSum := Truncate(w, Floor(w, minP), Mass(w, topP));
    if keptSum <= 0.0 {
      return 0;
    }
    at := DrawAmong(w, cutoff, Share(u, keptSum));
  }

  method DrawAmong(w: seq<real>, cutoff: nat, threshold: real) returns (at: nat)
    requires 1 <= cutoff <= |w|
    ensures at == Landing(w, cutoff, threshold)
  {
    var found, ignored := Accumulate(w, cutoff, threshold);
    at := if found < cutoff then found else cutoff - 1;
  }
}
