/**
 Looking for stop strings after every token. Only a trailing window of the output is searched;
 because every earlier step left the output free of stop strings, nothing is missed.
 */
module StopSearch {
  import opened Wrappers
  import opened Search
  import opened Utf8

  ghost predicate FreeOf(text: Bytes, patterns: seq<Bytes>)
  {
    forall p, at :: p in patterns ==> !OccursAt(text, p, at)
  }

  /** The first occurrence of the first listed pattern that occurs at all. */
  function FindListed(text: Bytes, patterns: seq<Bytes>): (at: Option<nat>)
    ensures at.Some? ==> at.value <= |text|
  {
    if patterns == [] then None
    else
      match Find(text, patterns[0])
      case Some(at) => Some(at)
      case None => FindListed(text, patterns[1..])
  }

  lemma {:induction false} NothingListedMeansFree(text: Bytes, patterns: seq<Bytes>)
    ensures FindListed(text, patterns).None? <==> FreeOf(text, patterns)
    decreases |patterns|
  {
    if patterns != [] {
      NothingListedMeansFree(text, patterns[1..]);
      assert forall p :: p in patterns <==> p == patterns[0] || p in patterns[1..];
      assert Find(text, patterns[0]).Some? ==> OccursAt(text, patterns[0], Find(text, patterns[0]).value);
    }
  }

  function MaxLength(patterns: seq<Bytes>): (n: nat)
    ensures forall p :: p in patterns ==> |p| <= n
    ensures n > 0 ==> exists p :: p in patterns && |p| == n
  {
    if patterns == [] then 0
    else
      var rest := MaxLength(patterns[1..]);
      assert forall p :: p in patterns <==> p == patterns[0] || p in patterns[1..];
      if |patterns[0]| >= rest then |patterns[0]| else rest
  }

  function Shift(at: Option<nat>, offset: nat): Option<nat>
  {
    if at.None? then None else Some(offset + at.value)
  }

  /** A window starting far enough to the left sees the same first occurrence. */
  lemma WindowFindsPattern(before: Bytes, added: Bytes, pattern: Bytes, start: nat)
    requires start + |pattern| <= |before| || start == 0
    requires start <= |before + added|
    requires start == 0 || forall i :: !OccursAt(before, pattern, i)
    ensures Find(before + added, pattern) == Shift(Find((before + added)[start..], pattern), start)
  {
    var whole := before + added;
    var window := whole[start..];
    forall i | OccursAt(whole, pattern, i)
      ensures start <= i && OccursAt(window, pattern, i - start)
    {
      if i < start {
        OccursInPrefix(before, added, pattern, i);
        assert false;
      }
      OccursInSuffix(whole, pattern, start, i - start);
    }
    match Find(window, pattern)
    case Some(at) =>
      OccursInSuffix(whole, pattern, start, at);
      forall i | 0 <= i < start + at
        ensures !OccursAt(whole, pattern, i)
      {
        if start <= i {
          OccursInSuffix(whole, pattern, start, i - start);
        }
      }
      FindIs(whole, pattern, start + at);
    case None =>
  }

  /**
   Searching the window finds what searching the whole output finds, at the same place, if the
   output was still empty or free of all stop strings before `added` was appended. The window
   may start further left than the longest stop string requires.
   */
  lemma {:induction false} WindowSearchIsComplete(
    before: Bytes, added: Bytes, patterns: seq<Bytes>, longest: nat, start: nat)
    requires forall p :: p in patterns ==> |p| <= longest
    requires start + longest <= |before| || start == 0
    requires before == [] || FreeOf(before, patterns)
    requires start <= |before + added|
    ensures FindListed(before + added, patterns) == Shift(FindListed((before + added)[start..], patterns), start)
    decreases |patterns|
  {
    if patterns != [] {
      WindowFindsPattern(before, added, patterns[0], start);
      assert forall p :: p in patterns[1..] ==> p in patterns;
      WindowSearchIsComplete(before, added, patterns[1..], longest, start);
    }
  }

  predicate IsCharBoundary(text: Bytes, at: nat)
    requires at <= |text|
  {
    at == 0 || at == |text| || !IsContinuation(text[at])
  }

  /** The window start: `maxBytes` from the end, moved left to a character boundary. */
  method TrailingCharBoundaryStart(text: Bytes, maxBytes: nat) returns (start: nat)
    ensures start <= |text| && IsCharBoundary(text, start)
    ensures start + maxBytes <= |text| || start == 0
    ensures forall i :: start < i && i + maxBytes <= |text| ==> !IsCharBoundary(text, i)
  {
    start := if maxBytes <= |text| then |text| - maxBytes else 0;
    while start > 0 && !IsCharBoundary(text, start)
      invariant start <= |text|
      invariant start + maxBytes <= |text| || start == 0
      invariant forall i :: start < i && i + maxBytes <= |text| ==> !IsCharBoundary(text, i)
    {
      start := start - 1;
    }
  }

  /** Tries the patterns in the order they are listed. */
  method FindFirstListed(text: Bytes, patterns: seq<Bytes>) returns (at: Option<nat>)
    ensures at == FindListed(text, patterns)
  {
    for i := 0 to |patterns|
      invariant FindListed(text, patterns) == FindListed(text, patterns[i..])
    {
      var found := Find(text, patterns[i]);
      if found.Some? {
        return found;
      }
      assert patterns[i..][1..] == patterns[i + 1..];
    }
    at := None;
  }

  /**
   The search made after `added` was appended to the output. Without a stop string of positive
   length nothing is searched.
   */
  method FindStop(before: Bytes, added: Bytes, patterns: seq<Bytes>, longest: nat)
    returns (at: Option<nat>)
    requires longest == MaxLength(patterns)
    requires before == [] || FindListed(before, patterns).None? || longest == 0
    ensures at == if longest > 0 then FindListed(before + added, patterns) else None
  {
    at := None;
    if longest > 0 {
      var output := before + added;
      var start := TrailingCharBoundaryStart(output, longest + |added|);
      NothingListedMeansFree(before, patterns);
      WindowSearchIsComplete(before, added, patterns, longest, start);
      var found := FindFirstListed(output[start..], patterns);
      at := Shift(found, start);
    }
  }

  /** An empty stop string occurs at the start of every text. */
  lemma EmptyStopOccursAtOnce(text: Bytes, patterns: seq<Bytes>)
    requires patterns != [] && MaxLength(patterns) == 0
    ensures FindListed(text, patterns) == Some(0)
  {
    assert patterns[0] in patterns;
    assert OccursAt(text, patterns[0], 0);
  }

  // ---------- What is left of an output that was cut ----------

  /** The output up to the stop string that was found. */
  function Cut(text: Bytes, patterns: seq<Bytes>): Bytes
  {
    match FindListed(text, patterns)
    case None => text
    case Some(at) => text[..at]
  }

  /** The first listed stop string occurs in each of them, so that finding none of it is finding none at all. */
  ghost predicate FirstIsInAll(patterns: seq<Bytes>)
    requires patterns != []
  {
    forall j :: 0 <= j < |patterns| ==> Find(patterns[j], patterns[0]).Some?
  }

  /** A stop string inside a stop string occurs wherever that does. */
  lemma OccursInside(text: Bytes, outer: Bytes, inner: Bytes, at: nat)
    requires OccursAt(text, outer, at) && Find(outer, inner).Some?
    ensures OccursAt(text, inner, at + Find(outer, inner).value)
  {
    var i := Find(outer, inner).value;
    assert text[at..at + |outer|][i..i + |inner|] == text[at + i..at + i + |inner|];
  }

  lemma CutIsFree(text: Bytes, patterns: seq<Bytes>)
    requires patterns != [] && (forall p :: p in patterns ==> p != []) && FirstIsInAll(patterns)
    ensures FreeOf(Cut(text, patterns), patterns)
  {
    var (cut, first) := (Cut(text, patterns), patterns[0]);
    forall p, at | p in patterns
      ensures !OccursAt(cut, p, at)
    {
      if OccursAt(cut, p, at) {
        var j :| 0 <= j < |patterns| && patterns[j] == p;
        OccursInside(cut, p, first, at);
        NoFirstInCut(text, patterns, at + Find(p, first).value);
        assert false;
      }
    }
  }

  lemma NoFirstInCut(text: Bytes, patterns: seq<Bytes>, i: nat)
    requires patterns != [] && patterns[0] != [] && FirstIsInAll(patterns)
    ensures !OccursAt(Cut(text, patterns), patterns[0], i)
  {
    var cut := Cut(text, patterns);
    match Find(text, patterns[0])
    case Some(at) =>
      assert cut + text[at..] == text;
      if i + |patterns[0]| <= |cut| {
        OccursInPrefix(cut, text[at..], patterns[0], i);
      }
    case None =>
      WithoutFirstIsWhole(text, patterns);
  }

  /** Without the first listed stop string there is none, and nothing is cut. */
  lemma WithoutFirstIsWhole(text: Bytes, patterns: seq<Bytes>)
    requires patterns != [] && FirstIsInAll(patterns) && Find(text, patterns[0]).None?
    ensures Cut(text, patterns) == text
  {
    forall p, at | p in patterns
      ensures !OccursAt(text, p, at)
    {
      if OccursAt(text, p, at) {
        var j :| 0 <= j < |patterns| && patterns[j] == p;
        OccursInside(text, p, patterns[0], at);
        assert false;
      }
    }
    NothingListedMeansFree(text, patterns);
  }

  /** A byte that does not end the pattern. */
  function OtherByte(pattern: Bytes): Byte
    requires pattern != []
    ensures OtherByte(pattern) != pattern[|pattern| - 1]
  {
    if pattern[|pattern| - 1] == 0 then 1 else 0
  }

  /** A stop string without the first listed one in it, behind which that follows at a distance. */
  function Leaky(kept: Bytes, first: Bytes): Bytes
    requires first != []
  {
    kept + seq(|first|, _ => OtherByte(first)) + first
  }

  lemma LeakyStopsLate(kept: Bytes, first: Bytes)
    requires first != [] && Find(kept, first).None?
    ensures Find(Leaky(kept, first), first).Some? && Find(Leaky(kept, first), first).value >= |kept|
  {
    var (text, pad) := (Leaky(kept, first), seq(|first|, _ => OtherByte(first)));
    assert text[|kept| + |pad|..|kept| + |pad| + |first|] == first;
    assert OccursAt(text, first, |kept| + |pad|);
    assert text == kept + (pad + first);
    forall i | 0 <= i < |kept|
      ensures !OccursAt(text, first, i)
    {
      if i + |first| <= |kept| {
        OccursInPrefix(kept, pad + first, first, i);
        assert !OccursAt(kept, first, i);
      } else {
        var last := i + |first| - 1;
        assert text[last] == pad[last - |kept|] == OtherByte(first);
        assert text[i..i + |first|][|first| - 1] == text[last];
        assert text[i..i + |first|] != first;
      }
    }
  }

  lemma LeakyKeepsAStop(patterns: seq<Bytes>, j: nat)
    requires j < |patterns| && (forall p :: p in patterns ==> p != []) && Find(patterns[j], patterns[0]).None?
    ensures !FreeOf(Cut(Leaky(patterns[j], patterns[0]), patterns), patterns)
  {
    var text := Leaky(patterns[j], patterns[0]);
    LeakyStopsLate(patterns[j], patterns[0]);
    var cut := Cut(text, patterns);
    assert cut[0..|patterns[j]|] == patterns[j];
    assert OccursAt(cut, patterns[j], 0);
  }

  /**
   The output is cut at the first listed stop string, not at the first one. What is left is free
   of all of them, for every output, exactly if the first listed one occurs in each.
   */
  lemma CutIsFreeIff(patterns: seq<Bytes>)
    requires patterns != [] && forall p :: p in patterns ==> p != []
    ensures (forall text :: FreeOf(Cut(text, patterns), patterns)) <==> FirstIsInAll(patterns)
  {
    if FirstIsInAll(patterns) {
      forall text
        ensures FreeOf(Cut(text, patterns), patterns)
      {
        CutIsFree(text, patterns);
      }
    } else {
      var j :| 0 <= j < |patterns| && Find(patterns[j], patterns[0]).None?;
      LeakyKeepsAStop(patterns, j);
    }
  }

  /** With the stop strings 1 and 2, the output 2 1 is cut to 2. */
  lemma EarlierStopRemains()
    ensures Cut([2, 1], [[1], [2]]) == [2] && !FreeOf([2], [[1], [2]])
  {
    var text: Bytes, first: Bytes, second: Bytes := [2, 1], [1], [2];
    assert text[0..1][0] == 2 && text[1..2] == first;
    assert !OccursAt(text, first, 0) && OccursAt(text, first, 1);
    FindIs(text, first, 1);
    assert [first, second][1] == second && second[0..1] == second;
    assert OccursAt(second, second, 0);
  }
}
