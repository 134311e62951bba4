/**
 The candidates of the queue-driven merge pass, the linked list they refer to, and the
 invariant that ties the two together.
 */
module MergeQueue {
  import opened Wrappers
  import opened ReferenceMerge

  /** An offer to merge two neighbours. The stamps tell whether either has changed since it was made. */
  datatype MergeCandidate<+S> = MergeCandidate(
    key: int,
    merged: S,
    left: nat,
    right: nat,
    leftVersion: nat,
    rightVersion: nat)
  {
    /** The queue's order: a larger key wins, and among equal keys the smaller left slot. */
    predicate AtMost(other: MergeCandidate<S>)
    {
      key < other.key || (key == other.key && other.left <= left)
    }
  }

  /**
   A priority queue, specified by its contract alone: popping removes one occurrence of a
   candidate that no other candidate exceeds. Which one of several equals is not promised.
   */
  method PopMax<S>(queue: seq<MergeCandidate<S>>)
    returns (best: MergeCandidate<S>, rest: seq<MergeCandidate<S>>)
    requires queue != []
    ensures multiset(queue) == multiset(rest) + multiset{best}
    ensures forall c :: c in queue ==> c.AtMost(best)
  {
    var at := 0;
    for i := 1 to |queue|
      invariant 0 <= at < |queue|
      invariant forall j :: 0 <= j < i ==> queue[j].AtMost(queue[at])
    {
      if queue[at].AtMost(queue[i]) {
        at := i;
      }
    }
    best := queue[at];
    rest := queue[..at] + queue[at + 1..];
    assert queue == queue[..at] + [best] + queue[at + 1..];
  }

  function Successor(slots: seq<nat>, i: int): int
    requires 0 <= i < |slots|
  {
    if i + 1 < |slots| then slots[i + 1] else -1
  }

  function Predecessor(slots: seq<nat>, i: int): int
    requires 0 <= i < |slots|
  {
    if i > 0 then slots[i - 1] else -1
  }

  ghost predicate Ascending(slots: seq<nat>, bound: nat)
  {
    && (forall i :: 0 <= i < |slots| ==> slots[i] < bound)
    && (forall i, j :: 0 <= i < j < |slots| ==> slots[i] < slots[j])
  }

  /** `slots` are exactly the live ones. */
  ghost predicate LiveExactly(alive: seq<bool>, slots: seq<nat>)
  {
    && (forall i :: 0 <= i < |slots| ==> slots[i] < |alive| && alive[slots[i]])
    && (forall x :: 0 <= x < |alive| && alive[x] ==> x in slots)
  }

  /** `next` and `prev` follow `slots` forwards and backwards. */
  ghost predicate Chained(next: seq<int>, prev: seq<int>, slots: seq<nat>)
  {
    forall i :: 0 <= i < |slots| ==> ChainedAt(next, prev, slots, i)
  }

  ghost predicate ChainedAt(next: seq<int>, prev: seq<int>, slots: seq<nat>, i: nat)
    requires i < |slots|
  {
    && slots[i] < |next| && slots[i] < |prev|
    && next[slots[i]] == Successor(slots, i) && prev[slots[i]] == Predecessor(slots, i)
  }

  /** `slots` without the one at position `at`. */
  function Without(slots: seq<nat>, at: nat): (rest: seq<nat>)
    requires at < |slots|
    ensures |rest| == |slots| - 1
    ensures forall i {:trigger rest[i]} :: 0 <= i < |rest| ==> rest[i] == if i < at then slots[i] else slots[i + 1]
  {
    slots[..at] + slots[at + 1..]
  }

  /** The symbols found at the given slots: the symbol list a pass stands for. */
  ghost function Pick<S>(symbols: seq<S>, slots: seq<nat>): (picked: seq<S>)
    requires Ascending(slots, |symbols|)
    ensures |picked| == |slots|
    ensures forall i {:trigger picked[i]} :: 0 <= i < |slots| ==> picked[i] == symbols[slots[i]]
  {
    seq(|slots|, i requires 0 <= i < |slots| => symbols[slots[i]])
  }

  /** Rewriting the symbol at position `k` and dropping the next one. */
  lemma PickAfterMerge<S>(symbols: seq<S>, slots: seq<nat>, k: nat, merged: S)
    requires Ascending(slots, |symbols|)
    requires k + 1 < |slots|
    ensures Ascending(Without(slots, k + 1), |symbols|)
    ensures Pick(symbols[slots[k] := merged], Without(slots, k + 1))
         == Pick(symbols, slots)[..k] + [merged] + Pick(symbols, slots)[k + 2..]
  {
  }

  /**
   The state of a pass between two pops. Slots keep their original index; `next` and `prev`
   hold -1 at the ends; `version` counts how often a slot has been rewritten.
   */
  datatype Pass<S(!new)> = Pass(
    symbols: seq<S>,
    prev: seq<int>,
    next: seq<int>,
    alive: seq<bool>,
    version: seq<nat>)
  {
    ghost predicate SameLength()
    {
      |prev| == |next| == |alive| == |version| == |symbols|
    }

    /**
     `slots` lists the live slots: ascending, starting with slot 0, and `next` and `prev` are
     each other's inverse along it.
     */
    ghost predicate Links(slots: seq<nat>)
    {
      && SameLength()
      && slots != [] && slots[0] == 0
      && Ascending(slots, |symbols|) && LiveExactly(alive, slots) && Chained(next, prev, slots)
    }

    predicate InRange(c: MergeCandidate<S>)
    {
      c.left < |symbols| && c.right < |symbols|
    }

    /** The staleness test applied to a popped candidate. */
    predicate Fresh(c: MergeCandidate<S>)
      requires |next| == |alive| == |version| == |symbols| && InRange(c)
    {
      && alive[c.left] && alive[c.right] && next[c.left] == c.right
      && version[c.left] == c.leftVersion && version[c.right] == c.rightVersion
    }

    /** `c` carries the current key and merged symbol of its two slots. */
    ghost predicate Current(pair: PairTable<S>, c: MergeCandidate<S>)
      requires InRange(c)
    {
      pair(symbols[c.left], symbols[c.right]) == Some(Merge(c.key, c.merged))
    }

    /**
     The queue holds every mergeable adjacent pair exactly once, as a fresh candidate with the
     current key and merged symbol, and no other fresh candidate. Everything else it holds is
     stale, and stays so because its stamps never exceed the slots' versions.
     */
    ghost predicate Queued(pair: PairTable<S>, queue: multiset<MergeCandidate<S>>)
      requires SameLength()
    {
      && (forall c :: c in queue ==>
            && InRange(c)
            && c.leftVersion <= version[c.left] && c.rightVersion <= version[c.right])
      && (forall c :: InRange(c) && Fresh(c) ==>
            queue[c] == if Current(pair, c) then 1 else 0)
    }

    /** The candidate queued for two slots, if their symbols can merge. */
    ghost function Offer(pair: PairTable<S>, left: int, right: int): (queue: multiset<MergeCandidate<S>>)
      requires |version| == |symbols|
      requires left < |symbols| && right < |symbols|
    {
      if left < 0 || right < 0 then multiset{}
      else
        match pair(symbols[left], symbols[right])
        case None => multiset{}
        case Some(found) =>
          multiset{MergeCandidate(found.key, found.merged, left, right, version[left], version[right])}
    }

    /** Every slot was rewritten at most once per merge so far. */
    ghost predicate VersionsBounded(merges: nat)
    {
      forall x :: 0 <= x < |version| ==> version[x] <= merges
    }

    /** The rewrite performed for a fresh candidate: only the right slot is ever unlinked. */
    ghost function Apply(c: MergeCandidate<S>): (after: Pass<S>)
      requires SameLength() && InRange(c)
      requires next[c.right] < |symbols|
    {
      var beyond := next[c.right];
      Pass(symbols[c.left := c.merged],
           if beyond >= 0 then prev[beyond := c.left] else prev,
           next[c.left := beyond],
           alive[c.right := false],
           version[c.left := version[c.left] + 1])
    }
  }

  /** Position of a fresh candidate's left slot; its right slot is the next live one. */
  lemma FreshIsAdjacent<S(!new)>(p: Pass<S>, slots: seq<nat>, c: MergeCandidate<S>) returns (k: nat)
    requires p.Links(slots) && p.InRange(c) && p.Fresh(c)
    ensures k + 1 < |slots| && slots[k] == c.left && slots[k + 1] == c.right
  {
    assert c.left in slots;
    k :| 0 <= k < |slots| && slots[k] == c.left;
    assert ChainedAt(p.next, p.prev, slots, k);
  }

  /** A fresh candidate at the front of the queue is the leftmost best pair of the list. */
  lemma FrontIsLeftmostBest<S(!new)>(
    p: Pass<S>, slots: seq<nat>, pair: PairTable<S>, queue: multiset<MergeCandidate<S>>,
    c: MergeCandidate<S>, k: nat)
    requires p.Links(slots) && p.Queued(pair, queue)
    requires c in queue && p.Fresh(c)
    requires forall d :: d in queue ==> d.AtMost(c)
    requires k + 1 < |slots| && slots[k] == c.left && slots[k + 1] == c.right
    ensures IsLeftmostBest(Pick(p.symbols, slots), pair, k)
    ensures MergeAt(Pick(p.symbols, slots), pair, k)
         == Pick(p.symbols, slots)[..k] + [c.merged] + Pick(p.symbols, slots)[k + 2..]
  {
    var s := Pick(p.symbols, slots);
    assert p.Current(pair, c);
    forall j | Mergeable(s, pair, j)
      ensures Beats(s, pair, k, j)
    {
      var found := pair(s[j], s[j + 1]).value;
      var d := MergeCandidate(found.key, found.merged, slots[j], slots[j + 1],
                              p.version[slots[j]], p.version[slots[j + 1]]);
      assert ChainedAt(p.next, p.prev, slots, j);
      assert p.Fresh(d) && p.Current(pair, d);
      assert d in queue;
    }
  }

  /** Unlinking the right slot keeps the list well formed, one slot shorter. */
  lemma ApplyKeepsLinks<S(!new)>(p: Pass<S>, slots: seq<nat>, c: MergeCandidate<S>, k: nat)
    requires p.Links(slots) && p.InRange(c)
    requires k + 1 < |slots| && slots[k] == c.left && slots[k + 1] == c.right
    ensures p.next[c.right] < |p.symbols|
    ensures p.Apply(c).Links(Without(slots, k + 1))
  {
    assert ChainedAt(p.next, p.prev, slots, k + 1);
    PickAfterMerge(p.symbols, slots, k, c.merged);
    LiveAfterUnlink(p.alive, slots, k + 1);
    ChainAfterUnlink(p.next, p.prev, slots, k, |p.symbols|);
  }

  lemma LiveAfterUnlink(alive: seq<bool>, slots: seq<nat>, at: nat)
    requires Ascending(slots, |alive|) && LiveExactly(alive, slots) && at < |slots|
    ensures LiveExactly(alive[slots[at] := false], Without(slots, at))
  {
    var after, rest := alive[slots[at] := false], Without(slots, at);
    forall x | 0 <= x < |after| && after[x]
      ensures x in rest
    {
      var i :| 0 <= i < |slots| && slots[i] == x;
      assert x == rest[if i < at then i else i - 1];
    }
  }

  lemma ChainAfterUnlink(next: seq<int>, prev: seq<int>, slots: seq<nat>, k: nat, n: nat)
    requires |next| == |prev| == n && Ascending(slots, n) && Chained(next, prev, slots)
    requires k + 1 < |slots|
    ensures
      var beyond := Successor(slots, k + 1);
      Chained(next[slots[k] := beyond], if beyond >= 0 then prev[beyond := slots[k]] else prev,
              Without(slots, k + 1))
  {
    var beyond := Successor(slots, k + 1);
    var next', prev' := next[slots[k] := beyond], if beyond >= 0 then prev[beyond := slots[k]] else prev;
    var rest := Without(slots, k + 1);
    forall i | 0 <= i < |rest|
      ensures ChainedAt(next', prev', rest, i)
    {
      assert ChainedAt(next, prev, slots, if i <= k then i else i + 1);
    }
  }

  /** Seen as symbol lists, unlinking the right slot is a merge of the two. */
  lemma ApplyMergesContents<S(!new)>(p: Pass<S>, slots: seq<nat>, c: MergeCandidate<S>, k: nat)
    requires p.Links(slots) && p.InRange(c) && p.next[c.right] < |p.symbols|
    requires k + 1 < |slots| && slots[k] == c.left && slots[k + 1] == c.right
    requires p.Apply(c).Links(Without(slots, k + 1))
    ensures Pick(p.Apply(c).symbols, Without(slots, k + 1))
         == Pick(p.symbols, slots)[..k] + [c.merged] + Pick(p.symbols, slots)[k + 2..]
  {
    PickAfterMerge(p.symbols, slots, k, c.merged);
  }

  /** Popping a stale candidate loses nothing. */
  lemma DropStale<S(!new)>(
    p: Pass<S>, pair: PairTable<S>, queue: multiset<MergeCandidate<S>>, c: MergeCandidate<S>)
    requires p.SameLength() && p.Queued(pair, queue + multiset{c})
    requires !p.Fresh(c)
    ensures p.Queued(pair, queue)
  {
    var whole := queue + multiset{c};
    assert forall d :: d in queue ==> d in whole;
    assert forall d :: d != c ==> queue[d] == whole[d];
  }

  /** An offer holds exactly the candidate with the current stamps, key and merged symbol. */
  lemma OfferCount<S(!new)>(p: Pass<S>, pair: PairTable<S>, left: int, right: int, d: MergeCandidate<S>)
    requires p.SameLength() && left < |p.symbols| && right < |p.symbols| && p.InRange(d)
    ensures p.Offer(pair, left, right)[d] ==
              if && d.left == left && d.right == right && p.Current(pair, d)
                 && d.leftVersion == p.version[left] && d.rightVersion == p.version[right]
              then 1 else 0
  {
  }

  /** A candidate that touches the rewritten slot is fresh only if it has just been offered. */
  lemma NeighbourIsOffered<S(!new)>(
    p: Pass<S>, slots: seq<nat>, pair: PairTable<S>, queue: multiset<MergeCandidate<S>>,
    c: MergeCandidate<S>, k: nat, d: MergeCandidate<S>)
    requires p.Links(slots) && p.Queued(pair, queue + multiset{c})
    requires k + 1 < |slots| && slots[k] == c.left && slots[k + 1] == c.right
    requires p.next[c.right] < |p.symbols| && p.prev[c.left] < |p.symbols|
    requires p.Apply(c).Links(Without(slots, k + 1))
    requires p.Apply(c).InRange(d) && p.Apply(c).Fresh(d)
    requires d.left == c.left || d.right == c.left
    ensures d !in queue
    ensures d.left == c.left ==> d.right == p.next[c.right]
    ensures d.right == c.left ==> d.left == p.prev[c.left]
  {
    assert d in queue ==> d in queue + multiset{c};
    NeighbourIsLinked(p, slots, c, k, d);
  }

  lemma NeighbourIsLinked<S(!new)>(
    p: Pass<S>, slots: seq<nat>, c: MergeCandidate<S>, k: nat, d: MergeCandidate<S>)
    requires p.Links(slots) && p.InRange(c)
    requires k + 1 < |slots| && slots[k] == c.left && slots[k + 1] == c.right
    requires p.next[c.right] < |p.symbols| && p.prev[c.left] < |p.symbols|
    requires p.Apply(c).Links(Without(slots, k + 1))
    requires p.Apply(c).InRange(d) && p.Apply(c).Fresh(d)
    ensures d.left == c.left ==> d.right == p.next[c.right]
    ensures d.right == c.left ==> d.left == p.prev[c.left]
  {
    var after, rest := p.Apply(c), Without(slots, k + 1);
    var i := FreshIsAdjacent(after, rest, d);
    assert ChainedAt(p.next, p.prev, slots, k);
    assert ChainedAt(after.next, after.prev, rest, k);
    if d.right == c.left {
      assert i + 1 == k;
    }
  }

  /** Elsewhere a candidate is fresh after the merge only if it was before. */
  lemma ElsewhereUntouched<S(!new)>(
    p: Pass<S>, slots: seq<nat>, c: MergeCandidate<S>, k: nat, d: MergeCandidate<S>)
    requires p.Links(slots) && p.InRange(c)
    requires k + 1 < |slots| && slots[k] == c.left && slots[k + 1] == c.right
    requires p.next[c.right] < |p.symbols|
    requires p.Apply(c).InRange(d) && p.Apply(c).Fresh(d)
    requires d.left != c.left && d.right != c.left
    ensures p.Fresh(d) && d != c
    ensures p.symbols[d.left] == p.Apply(c).symbols[d.left]
    ensures p.symbols[d.right] == p.Apply(c).symbols[d.right]
  {
  }

  /**
   After a merge the queue is exact again once the two pairings of the rewritten slot have
   been offered: every candidate queued for the old ones has become stale.
   */
  lemma ApplyKeepsQueued<S(!new)>(
    p: Pass<S>, slots: seq<nat>, pair: PairTable<S>, queue: multiset<MergeCandidate<S>>,
    c: MergeCandidate<S>, k: nat)
    requires p.Links(slots) && p.Queued(pair, queue + multiset{c})
    requires k + 1 < |slots| && slots[k] == c.left && slots[k + 1] == c.right
    requires p.next[c.right] < |p.symbols| && p.prev[c.left] < |p.symbols|
    ensures
      var after := p.Apply(c);
      after.Queued(pair, queue + after.Offer(pair, p.prev[c.left], c.left)
                               + after.Offer(pair, c.left, p.next[c.right]))
  {
    var after, whole := p.Apply(c), queue + multiset{c};
    var before, beyond := p.prev[c.left], p.next[c.right];
    var first, second := after.Offer(pair, before, c.left), after.Offer(pair, c.left, beyond);
    var offered := queue + first + second;
    ApplyKeepsLinks(p, slots, c, k);
    assert forall d :: d in queue ==> d in whole;
    forall d | after.InRange(d) && after.Fresh(d)
      ensures offered[d] == if after.Current(pair, d) then 1 else 0
    {
      FreshIsOfferedOnce(p, slots, pair, queue, c, k, d);
    }
  }

  /** How often a candidate that is fresh after the merge is queued then. */
  lemma FreshIsOfferedOnce<S(!new)>(
    p: Pass<S>, slots: seq<nat>, pair: PairTable<S>, queue: multiset<MergeCandidate<S>>,
    c: MergeCandidate<S>, k: nat, d: MergeCandidate<S>)
    requires p.Links(slots) && p.Queued(pair, queue + multiset{c})
    requires k + 1 < |slots| && slots[k] == c.left && slots[k + 1] == c.right
    requires p.next[c.right] < |p.symbols| && p.prev[c.left] < |p.symbols|
    requires p.Apply(c).Links(Without(slots, k + 1))
    requires p.Apply(c).InRange(d) && p.Apply(c).Fresh(d)
    ensures
      var after := p.Apply(c);
      (queue + after.Offer(pair, p.prev[c.left], c.left) + after.Offer(pair, c.left, p.next[c.right]))[d]
        == if after.Current(pair, d) then 1 else 0
  {
    var after, whole := p.Apply(c), queue + multiset{c};
    var before, beyond := p.prev[c.left], p.next[c.right];
    assert before != c.left && beyond != c.left by {
      assert ChainedAt(p.next, p.prev, slots, k) && ChainedAt(p.next, p.prev, slots, k + 1);
    }
    OfferCount(after, pair, before, c.left, d);
    OfferCount(after, pair, c.left, beyond, d);
    if d.left == c.left || d.right == c.left {
      NeighbourIsOffered(p, slots, pair, queue, c, k, d);
    } else {
      ElsewhereUntouched(p, slots, c, k, d);
      assert whole[d] == queue[d];
    }
  }
}
