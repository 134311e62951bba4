/**
 The textbook merge loop of byte-pair encoding: rescan every adjacent pair, merge the leftmost
 pair of largest key, start again. It is the meaning that the queue-driven pass must reproduce.

 The ordering key is an integer. Both key types of the tokenizer are order-isomorphic to one:
 a reversed merge rank, and a finite score under the total order on floats.
 */
module ReferenceMerge {
  import opened Wrappers

  /** What a mergeable pair turns into: its priority, and the symbol that replaces it. */
  datatype Merge<+S> = Merge(key: int, merged: S)

  /** A merge table. It may be cyclic, and any number of pairs may share a key. */
  type PairTable<!S> = (S, S) -> Option<Merge<S>>

  predicate Mergeable<S>(s: seq<S>, pair: PairTable<S>, i: int)
  {
    0 <= i < |s| - 1 && pair(s[i], s[i + 1]).Some?
  }

  /** Pair `i` has a larger key than pair `j`, or the same key and is not further right. */
  predicate Beats<S>(s: seq<S>, pair: PairTable<S>, i: int, j: int)
    requires Mergeable(s, pair, i) && Mergeable(s, pair, j)
  {
    var (a, b) := (pair(s[i], s[i + 1]).value.key, pair(s[j], s[j + 1]).value.key);
    b < a || (a == b && i <= j)
  }

  ghost predicate IsLeftmostBest<S>(s: seq<S>, pair: PairTable<S>, i: int)
  {
    Mergeable(s, pair, i) && forall j :: Mergeable(s, pair, j) ==> Beats(s, pair, i, j)
  }

  /** Replaces the pair at `i` by its merged symbol. */
  function MergeAt<S>(s: seq<S>, pair: PairTable<S>, i: nat): (t: seq<S>)
    requires Mergeable(s, pair, i)
  {
    s[..i] + [pair(s[i], s[i + 1]).value.merged] + s[i + 2..]
  }

  /** The best mergeable pair that starts before `limit`, if any. */
  function BestBefore<S>(s: seq<S>, pair: PairTable<S>, limit: nat): (best: Option<nat>)
    requires limit <= |s|
    ensures best.Some? ==> best.value < limit && Mergeable(s, pair, best.value)
    ensures best.Some? ==>
              forall j :: 0 <= j < limit && Mergeable(s, pair, j) ==> Beats(s, pair, best.value, j)
    ensures best.None? ==> forall j :: 0 <= j < limit ==> !Mergeable(s, pair, j)
  {
    if limit == 0 then None
    else
      var best := BestBefore(s, pair, limit - 1);
      if Mergeable(s, pair, limit - 1) && (best.Some? ==> !Beats(s, pair, best.value, limit - 1))
      then Some(limit - 1)
      else best
  }

  /** The symbols left once no adjacent pair can merge any more. */
  function MergeAll<S>(s: seq<S>, pair: PairTable<S>): (t: seq<S>)
    ensures |t| <= |s|
    ensures s != [] ==> t != []
    ensures forall i :: !Mergeable(t, pair, i)
    decreases |s|
  {
    match BestBefore(s, pair, |s|)
    case None => s
    case Some(i) => MergeAll(MergeAt(s, pair, i), pair)
  }

  /** At most one pair is leftmost best, so one step of the loop has one possible outcome. */
  lemma LeftmostBestDecidesStep<S>(s: seq<S>, pair: PairTable<S>, i: nat)
    requires IsLeftmostBest(s, pair, i)
    ensures MergeAll(s, pair) == MergeAll(MergeAt(s, pair, i), pair)
  {
    var best := BestBefore(s, pair, |s|);
    assert Beats(s, pair, i, best.value) && Beats(s, pair, best.value, i);
  }

  /** Every property of symbol lists that single merges keep is kept by the whole pass. */
  lemma {:induction false} MergeAllKeeps<S>(s: seq<S>, pair: PairTable<S>, good: seq<S> -> bool)
    requires good(s)
    requires forall t, i :: good(t) && Mergeable(t, pair, i) ==> good(MergeAt(t, pair, i))
    ensures good(MergeAll(s, pair))
    decreases |s|
  {
    match BestBefore(s, pair, |s|)
    case None =>
    case Some(i) => MergeAllKeeps(MergeAt(s, pair, i), pair, good);
  }

  /** The rescan-and-remove loop itself. */
  method NaiveMerge<S>(input: seq<S>, pair: PairTable<S>) returns (symbols: seq<S>)
    ensures symbols == MergeAll(input, pair)
  {
    symbols := input;
    while |symbols| > 1
      invariant MergeAll(symbols, pair) == MergeAll(input, pair)
      decreases |symbols|
    {
      var best := Rescan(symbols, pair);
      if best.None? {
        break;
      }
      var (index, found) := best.value;
      symbols := symbols[..index] + [found.merged] + symbols[index + 2..];
    }
  }

  /** Looks at every adjacent pair; a later one has to be strictly better. */
  method Rescan<S>(symbols: seq<S>, pair: PairTable<S>) returns (best: Option<(nat, Merge<S>)>)
    requires symbols != []
    ensures best.Some? <==> BestBefore(symbols, pair, |symbols|).Some?
    ensures best.Some? ==>
              var (at, found) := best.value;
              BestBefore(symbols, pair, |symbols|) == Some(at) && pair(symbols[at], symbols[at + 1]) == Some(found)
  {
    best := None;
    for index := 0 to |symbols| - 1
      invariant best.Some? <==> BestBefore(symbols, pair, index).Some?
      invariant best.Some? ==>
          var (at, found) := best.value;
          BestBefore(symbols, pair, index) == Some(at) && pair(symbols[at], symbols[at + 1]) == Some(found)
    {
      match pair(symbols[index], symbols[index + 1])
      case None =>
      case Some(found) =>
        if best.None? || found.key > best.value.1.key {
          best := Some((index, found));
        }
    }
  }
}
