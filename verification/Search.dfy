/** Finding one sequence inside another. */
module Search {
  import opened Wrappers

  ghost predicate OccursAt<T>(text: seq<T>, pattern: seq<T>, at: int)
  {
    0 <= at && at + |pattern| <= |text| && text[at..at + |pattern|] == pattern
  }

  /** The first occurrence of `pattern` at or after `from`. */
  function FindFrom<T(==)>(text: seq<T>, pattern: seq<T>, from: nat): (at: Option<nat>)
    requires from <= |text|
    ensures at.Some? ==> from <= at.value && OccursAt(text, pattern, at.value)
    ensures at.Some? ==> forall i :: from <= i < at.value ==> !OccursAt(text, pattern, i)
    ensures at.None? ==> forall i :: from <= i ==> !OccursAt(text, pattern, i)
    decreases |text| - from
  {
    if from + |pattern| <= |text| && text[from..from + |pattern|] == pattern then Some(from)
    else if from == |text| then None
    else FindFrom(text, pattern, from + 1)
  }

  function Find<T(==)>(text: seq<T>, pattern: seq<T>): (at: Option<nat>)
    ensures at.Some? ==> OccursAt(text, pattern, at.value)
    ensures at.Some? ==> forall i :: 0 <= i < at.value ==> !OccursAt(text, pattern, i)
    ensures at.None? ==> forall i :: !OccursAt(text, pattern, i)
  {
    FindFrom(text, pattern, 0)
  }

  /** Occurrences in a suffix are those of the whole, shifted. */
  lemma OccursInSuffix<T>(text: seq<T>, pattern: seq<T>, start: nat, i: nat)
    requires start <= |text|
    ensures OccursAt(text[start..], pattern, i) <==> OccursAt(text, pattern, start + i)
  {
    if start + i + |pattern| <= |text| {
      assert text[start..][i..i + |pattern|] == text[start + i..start + i + |pattern|];
    }
  }

  /** Occurrences that end within a prefix are occurrences in the prefix. */
  lemma OccursInPrefix<T>(before: seq<T>, added: seq<T>, pattern: seq<T>, i: nat)
    requires i + |pattern| <= |before|
    ensures OccursAt(before, pattern, i) <==> OccursAt(before + added, pattern, i)
  {
    assert before[i..i + |pattern|] == (before + added)[i..i + |pattern|];
  }

  /** Knowing the first occurrence is knowing what the search returns. */
  lemma FindIs<T>(text: seq<T>, pattern: seq<T>, at: nat)
    requires OccursAt(text, pattern, at) && forall i :: 0 <= i < at ==> !OccursAt(text, pattern, i)
    ensures Find(text, pattern) == Some(at)
  {
  }
}
