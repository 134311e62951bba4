/**
 The backtracking matcher that the pre-tokenizers imitate, reduced to the constructs their
 patterns use. A pattern yields every end position it can reach, in the order in which a
 backtracking engine would try them; the engine's answer is the first.
 */
module Regex {
  import opened Wrappers

  type Class = char -> bool

  datatype Pattern =
    | One(cls: Class)
    /** Greedy optional character. */
    | Maybe(cls: Class)
    /** Greedy repetition. */
    | Star(cls: Class)
    /** Negative lookahead of one character. */
    | NotAhead(cls: Class)
    | Then(first: Pattern, second: Pattern)
    | Either(first: Pattern, second: Pattern)

  function Plus(cls: Class): Pattern
  {
    Then(One(cls), Star(cls))
  }

  predicate At(s: string, i: nat, cls: Class)
  {
    i < |s| && cls(s[i])
  }

  predicate Between(ends: seq<nat>, low: nat, high: nat)
  {
    forall k :: 0 <= k < |ends| ==> low <= ends[k] <= high
  }

  /** All ends of a match of `p` that starts at `i`, in order of preference. */
  function Ends(p: Pattern, s: string, i: nat): (ends: seq<nat>)
    requires i <= |s|
    ensures Between(ends, i, |s|)
    decreases p, |s| - i, 0
  {
    match p
    case One(cls) => if At(s, i, cls) then [i + 1] else []
    case Maybe(cls) => if At(s, i, cls) then [i + 1, i] else [i]
    case Star(cls) => if At(s, i, cls) then Ends(p, s, i + 1) + [i] else [i]
    case NotAhead(cls) => if At(s, i, cls) then [] else [i]
    case Then(first, second) => EndsFrom(second, s, Ends(first, s, i), i)
    case Either(first, second) => Ends(first, s, i) + Ends(second, s, i)
  }

  /** The ends reached by matching `p` from each of `starts` in turn. */
  function EndsFrom(p: Pattern, s: string, starts: seq<nat>, low: nat): (ends: seq<nat>)
    requires Between(starts, low, |s|)
    ensures Between(ends, low, |s|)
    decreases p, |s| + 1, |starts|
  {
    if starts == [] then []
    else Ends(p, s, starts[0]) + EndsFrom(p, s, starts[1..], low)
  }

  /** The end the backtracking engine reports. */
  function First(p: Pattern, s: string, i: nat): (end: Option<nat>)
    requires i <= |s|
    ensures end.Some? ==> i <= end.value <= |s|
  {
    if Ends(p, s, i) == [] then None else Some(Ends(p, s, i)[0])
  }

  function OrElse(a: Option<nat>, b: Option<nat>): Option<nat>
  {
    if a.Some? then a else b
  }

  /** The end of the run of `cls` that starts at `i`. */
  function RunEnd(s: string, cls: Class, i: nat): (end: nat)
    requires i <= |s|
    ensures i <= end <= |s| && !At(s, end, cls)
    ensures forall k :: i <= k < end ==> cls(s[k])
    decreases |s| - i
  {
    if At(s, i, cls) then RunEnd(s, cls, i + 1) else i
  }

  method ScanRun(s: string, cls: Class, i: nat) returns (end: nat)
    requires i <= |s|
    ensures end == RunEnd(s, cls, i)
  {
    end := i;
    while end < |s| && cls(s[end])
      invariant i <= end <= |s| && RunEnd(s, cls, end) == RunEnd(s, cls, i)
    {
      end := end + 1;
    }
  }

  /** Greedy repetition gives characters back one at a time, from the whole run to none. */
  lemma {:induction false} StarGivesBack(s: string, cls: Class, i: nat)
    requires i <= |s|
    ensures
      var (ends, run) := (Ends(Star(cls), s, i), RunEnd(s, cls, i));
      |ends| == run - i + 1 && forall k :: 0 <= k < |ends| ==> ends[k] == run - k
    decreases |s| - i
  {
    if At(s, i, cls) {
      StarGivesBack(s, cls, i + 1);
    }
  }

  lemma PlusGivesBack(s: string, cls: Class, i: nat)
    requires i <= |s|
    ensures
      var (ends, run) := (Ends(Plus(cls), s, i), RunEnd(s, cls, i));
      |ends| == run - i && forall k :: 0 <= k < |ends| ==> ends[k] == run - k
  {
    if At(s, i, cls) {
      StarGivesBack(s, cls, i + 1);
      assert Ends(One(cls), s, i) == [i + 1];
      assert EndsFrom(Star(cls), s, [i + 1], i) == Ends(Star(cls), s, i + 1) + [];
    }
  }

  lemma FirstPlus(s: string, cls: Class, i: nat)
    requires i <= |s|
    ensures First(Plus(cls), s, i) == if At(s, i, cls) then Some(RunEnd(s, cls, i)) else None
  {
    PlusGivesBack(s, cls, i);
  }

  lemma FirstStar(s: string, cls: Class, i: nat)
    requires i <= |s|
    ensures First(Star(cls), s, i) == Some(RunEnd(s, cls, i))
  {
    StarGivesBack(s, cls, i);
  }

  lemma FirstEither(p: Pattern, q: Pattern, s: string, i: nat)
    requires i <= |s|
    ensures First(Either(p, q), s, i) == OrElse(First(p, s, i), First(q, s, i))
  {
  }

  /** A sequence succeeds from the first start, in order of preference, that lets the rest succeed. */
  lemma {:induction false} FirstFrom(p: Pattern, s: string, starts: seq<nat>, low: nat, k: nat)
    requires Between(starts, low, |s|)
    requires k < |starts| && First(p, s, starts[k]).Some?
    requires forall j :: 0 <= j < k ==> First(p, s, starts[j]).None?
    ensures EndsFrom(p, s, starts, low) != []
    ensures Some(EndsFrom(p, s, starts, low)[0]) == First(p, s, starts[k])
    decreases k
  {
    if k > 0 {
      assert First(p, s, starts[0]).None?;
      FirstFrom(p, s, starts[1..], low, k - 1);
    }
  }

  lemma {:induction false} NoneFrom(p: Pattern, s: string, starts: seq<nat>, low: nat)
    requires Between(starts, low, |s|)
    requires forall j :: 0 <= j < |starts| ==> First(p, s, starts[j]).None?
    ensures EndsFrom(p, s, starts, low) == []
    decreases |starts|
  {
    if starts != [] {
      assert First(p, s, starts[0]).None?;
      NoneFrom(p, s, starts[1..], low);
    }
  }

  lemma FirstThen(p: Pattern, q: Pattern, s: string, i: nat, k: nat)
    requires i <= |s|
    requires k < |Ends(p, s, i)| && First(q, s, Ends(p, s, i)[k]).Some?
    requires forall j :: 0 <= j < k ==> First(q, s, Ends(p, s, i)[j]).None?
    ensures First(Then(p, q), s, i) == First(q, s, Ends(p, s, i)[k])
  {
    FirstFrom(q, s, Ends(p, s, i), i, k);
  }

  lemma NoneThen(p: Pattern, q: Pattern, s: string, i: nat)
    requires i <= |s|
    requires forall j :: 0 <= j < |Ends(p, s, i)| ==> First(q, s, Ends(p, s, i)[j]).None?
    ensures First(Then(p, q), s, i) == None
  {
    NoneFrom(q, s, Ends(p, s, i), i);
  }

  /** An optional character is tried first and skipped only if the rest fails with it. */
  lemma FirstAfterMaybe(cls: Class, q: Pattern, s: string, i: nat)
    requires i <= |s|
    ensures First(Then(Maybe(cls), q), s, i)
         == if At(s, i, cls) then OrElse(First(q, s, i + 1), First(q, s, i)) else First(q, s, i)
  {
    var ends := Ends(Maybe(cls), s, i);
    if First(q, s, ends[0]).Some? {
      FirstThen(Maybe(cls), q, s, i, 0);
    } else if |ends| > 1 && First(q, s, ends[1]).Some? {
      FirstThen(Maybe(cls), q, s, i, 1);
    } else {
      NoneThen(Maybe(cls), q, s, i);
    }
  }

  // ---------- What is matched, without an order of preference ----------

  /** `p` matches `s[i..e]` in its place. */
  ghost predicate Matches(p: Pattern, s: string, i: nat, e: nat)
    requires i <= e <= |s|
  {
    match p
    case One(cls) => e == i + 1 && cls(s[i])
    case Maybe(cls) => e == i || (e == i + 1 && cls(s[i]))
    case Star(cls) => forall k :: i <= k < e ==> cls(s[k])
    case NotAhead(cls) => e == i && (i < |s| ==> !cls(s[i]))
    case Then(first, second) =>
      exists m :: i <= m <= e && Matches(first, s, i, m) && Matches(second, s, m, e)
    case Either(first, second) => Matches(first, s, i, e) || Matches(second, s, i, e)
  }

  /** The ends that are tried are those of all matches. */
  lemma {:induction false} EndsAreMatches(p: Pattern, s: string, i: nat, e: nat)
    requires i <= e <= |s|
    ensures e in Ends(p, s, i) <==> Matches(p, s, i, e)
    decreases p, |s| - i, 0
  {
    match p
    case One(_) =>
    case Maybe(_) =>
    case Star(cls) =>
      StarGivesBack(s, cls, i);
      var (ends, run) := (Ends(p, s, i), RunEnd(s, cls, i));
      assert e <= run ==> ends[run - e] == e;
      assert e > run ==> !cls(s[run]);
    case NotAhead(_) =>
    case Then(first, second) =>
      EndsFromAreMatches(second, s, Ends(first, s, i), i, e);
      forall m | i <= m <= e
        ensures m in Ends(first, s, i) <==> Matches(first, s, i, m)
      {
        EndsAreMatches(first, s, i, m);
      }
    case Either(first, second) =>
      EndsAreMatches(first, s, i, e);
      EndsAreMatches(second, s, i, e);
  }

  lemma {:induction false} EndsFromAreMatches(p: Pattern, s: string, starts: seq<nat>, low: nat, e: nat)
    requires low <= e <= |s| && Between(starts, low, |s|)
    ensures e in EndsFrom(p, s, starts, low) <==> exists m :: low <= m <= e && m in starts && Matches(p, s, m, e)
    decreases p, |s| + 1, |starts|
  {
    if starts != [] {
      if starts[0] <= e {
        EndsAreMatches(p, s, starts[0], e);
      }
      EndsFromAreMatches(p, s, starts[1..], low, e);
      assert forall m :: m in starts <==> m == starts[0] || m in starts[1..];
    }
  }

  /** What the engine reports is a match. */
  lemma FirstMatches(p: Pattern, s: string, i: nat)
    requires i <= |s| && First(p, s, i).Some?
    ensures Matches(p, s, i, First(p, s, i).value)
  {
    EndsAreMatches(p, s, i, First(p, s, i).value);
  }

  /** And it reports one whenever there is any. */
  lemma FirstIfAny(p: Pattern, s: string, i: nat, e: nat)
    requires i <= e <= |s| && Matches(p, s, i, e)
    ensures First(p, s, i).Some?
  {
    EndsAreMatches(p, s, i, e);
  }

  /** Where the first part of a match ends. */
  lemma PartsMatch(p: Pattern, s: string, i: nat, e: nat) returns (m: nat)
    requires p.Then? && i <= e <= |s| && Matches(p, s, i, e)
    ensures i <= m <= e && Matches(p.first, s, i, m) && Matches(p.second, s, m, e)
  {
    m :| i <= m <= e && Matches(p.first, s, i, m) && Matches(p.second, s, m, e);
  }

  lemma PlusMatches(s: string, cls: Class, i: nat, e: nat)
    requires i <= e <= |s|
    ensures Matches(Plus(cls), s, i, e) <==> i < e && forall k :: i <= k < e ==> cls(s[k])
  {
    if i < e {
      assert Matches(One(cls), s, i, i + 1) <==> cls(s[i]);
      assert Matches(Star(cls), s, i + 1, e) <==> forall k :: i + 1 <= k < e ==> cls(s[k]);
    }
  }

  /** The fewest characters a match consumes. */
  function MinLength(p: Pattern): nat
  {
    match p
    case One(_) => 1
    case Maybe(_) => 0
    case Star(_) => 0
    case NotAhead(_) => 0
    case Then(first, second) => MinLength(first) + MinLength(second)
    case Either(first, second) =>
      if MinLength(first) <= MinLength(second) then MinLength(first) else MinLength(second)
  }

  lemma PlusConsumes(cls: Class)
    ensures MinLength(Plus(cls)) == 1
  {
  }

  lemma {:induction false} MatchesAreLongEnough(p: Pattern, s: string, i: nat)
    requires i <= |s|
    ensures forall k :: 0 <= k < |Ends(p, s, i)| ==> Ends(p, s, i)[k] >= i + MinLength(p)
    decreases p, |s| - i, 0
  {
    match p
    case One(_) =>
    case Maybe(_) =>
    case Star(_) =>
    case NotAhead(_) =>
    case Then(first, second) =>
      MatchesAreLongEnough(first, s, i);
      AllLongEnough(second, s, Ends(first, s, i), i, i + MinLength(first));
    case Either(first, second) =>
      MatchesAreLongEnough(first, s, i);
      MatchesAreLongEnough(second, s, i);
  }

  lemma {:induction false} AllLongEnough(p: Pattern, s: string, starts: seq<nat>, low: nat, from: nat)
    requires Between(starts, low, |s|)
    requires forall k :: 0 <= k < |starts| ==> starts[k] >= from
    ensures forall k :: 0 <= k < |EndsFrom(p, s, starts, low)| ==> EndsFrom(p, s, starts, low)[k] >= from + MinLength(p)
    decreases p, |s| + 1, |starts|
  {
    if starts != [] {
      MatchesAreLongEnough(p, s, starts[0]);
      AllLongEnough(p, s, starts[1..], low, from);
    }
  }

  /** A pattern that matches something at every position. */
  ghost predicate Total(p: Pattern)
  {
    MinLength(p) > 0 && forall s, i: nat :: i < |s| ==> First(p, s, i).Some?
  }

  /** The consecutive matches that `s[i..]` is cut into. */
  ghost function Split(p: Pattern, s: string, i: nat): (pieces: seq<string>)
    requires i <= |s| && Total(p)
    decreases |s| - i
  {
    if i == |s| then []
    else
      MatchesAreLongEnough(p, s, i);
      var end := First(p, s, i).value;
      [s[i..end]] + Split(p, s, end)
  }
}
