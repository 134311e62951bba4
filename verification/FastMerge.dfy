/**
 The merge pass of the tokenizer: candidates in a priority queue, symbols in a doubly linked
 list laid over arrays, stale candidates recognised by their stamps. It leaves exactly what
 the rescanning loop leaves.
 */
module FastMerge {
  import opened ReferenceMerge
  import opened MergeQueue

  /** Queues the pairing of two slots if their symbols can merge. */
  method Enqueue<S(!new)>(
    queue: seq<MergeCandidate<S>>, symbols: array<S>, version: array<nat>,
    left: nat, right: nat, pair: PairTable<S>, ghost p: Pass<S>)
    returns (extended: seq<MergeCandidate<S>>)
    requires p.symbols == symbols[..] && p.version == version[..] && symbols.Length == version.Length
    requires left < symbols.Length && right < symbols.Length
    ensures multiset(extended) == multiset(queue) + p.Offer(pair, left, right)
    ensures |extended| <= |queue| + 1
  {
    match pair(symbols[left], symbols[right])
    case None => extended := queue;
    case Some(found) =>
      var c := MergeCandidate(found.key, found.merged, left, right, version[left], version[right]);
      extended := queue + [c];
      assert c == MergeCandidate(found.key, found.merged, left, right, p.version[left], p.version[right]);
  }

  /** The pass before the first merge: every slot alive and linked to its neighbours. */
  ghost predicate Untouched<S(!new)>(p: Pass<S>)
  {
    && p.SameLength()
    && forall i :: 0 <= i < |p.symbols| ==>
         && p.alive[i] && p.version[i] == 0
         && p.prev[i] == i - 1 && p.next[i] == if i + 1 < |p.symbols| then i + 1 else -1
  }

  lemma UntouchedIsLinked<S(!new)>(p: Pass<S>, slots: seq<nat>)
    requires Untouched(p) && |p.symbols| > 0
    requires |slots| == |p.symbols| && forall i :: 0 <= i < |slots| ==> slots[i] == i
    ensures p.Links(slots) && Pick(p.symbols, slots) == p.symbols
  {
    forall x | 0 <= x < |p.alive| && p.alive[x]
      ensures x in slots
    {
      assert slots[x] == x;
    }
  }

  /** The queue holds exactly the mergeable pairs that start before `limit`. */
  ghost predicate QueuedBefore<S(!new)>(
    p: Pass<S>, pair: PairTable<S>, queue: multiset<MergeCandidate<S>>, limit: nat)
    requires p.SameLength()
  {
    && (forall c :: c in queue ==>
          p.InRange(c) && c.leftVersion <= p.version[c.left] && c.rightVersion <= p.version[c.right])
    && (forall c :: p.InRange(c) && p.Fresh(c) ==>
          queue[c] == if c.left < limit && p.Current(pair, c) then 1 else 0)
  }

  lemma QueueNextPair<S(!new)>(
    p: Pass<S>, pair: PairTable<S>, queue: multiset<MergeCandidate<S>>, limit: nat)
    requires Untouched(p) && limit + 1 < |p.symbols| && QueuedBefore(p, pair, queue, limit)
    ensures QueuedBefore(p, pair, queue + p.Offer(pair, limit, limit + 1), limit + 1)
  {
    var offer := p.Offer(pair, limit, limit + 1);
    forall c | p.InRange(c) && p.Fresh(c)
      ensures (queue + offer)[c] == if c.left < limit + 1 && p.Current(pair, c) then 1 else 0
    {
      OfferCount(p, pair, limit, limit + 1, c);
    }
  }

  /** Drops the consumed slots, keeping the order of the others. */
  method Retain<S(!new)>(symbols: array<S>, alive: array<bool>, ghost p: Pass<S>, ghost slots: seq<nat>)
    returns (kept: seq<S>)
    requires p.Links(slots) && p.symbols == symbols[..] && p.alive == alive[..]
    ensures kept == Pick(p.symbols, slots)
  {
    kept := [];
    ghost var done := 0;
    for slot := 0 to symbols.Length
      invariant 0 <= done <= |slots|
      invariant forall i :: 0 <= i < |slots| ==> (slots[i] < slot <==> i < done)
      invariant kept == Pick(p.symbols, slots)[..done]
    {
      assert p.alive[slot] == alive[slot] && p.symbols[slot] == symbols[slot];
      if alive[slot] {
        ghost var i :| 0 <= i < |slots| && slots[i] == slot;
        assert slots[done] >= slot;
        kept := kept + [symbols[slot]];
        done := done + 1;
      }
    }
  }

  ghost predicate Separate(a: object, b: object, c: object, d: object, e: object)
  {
    a != b && a != c && a != d && a != e && b != c && b != d && b != e && c != d && c != e && d != e
  }

  /** One accepted candidate is one step of the rescanning loop, and keeps list and queue exact. */
  lemma MergeStep<S(!new)>(
    p: Pass<S>, slots: seq<nat>, pair: PairTable<S>, queue: multiset<MergeCandidate<S>>,
    c: MergeCandidate<S>)
    returns (rest: seq<nat>)
    requires p.Links(slots) && p.Queued(pair, queue + multiset{c})
    requires p.InRange(c) && p.Fresh(c)
    requires forall d :: d in queue + multiset{c} ==> d.AtMost(c)
    ensures |rest| == |slots| - 1
    ensures p.next[c.right] < |p.symbols| && p.prev[c.left] < |p.symbols|
    ensures
      var after := p.Apply(c);
      && after.Links(rest)
      && after.prev[c.left] == p.prev[c.left] && after.next[c.left] == p.next[c.right]
      && after.Queued(pair, queue + after.Offer(pair, after.prev[c.left], c.left)
                                  + after.Offer(pair, c.left, after.next[c.left]))
      && MergeAll(Pick(after.symbols, rest), pair) == MergeAll(Pick(p.symbols, slots), pair)
  {
    var k := FreshIsAdjacent(p, slots, c);
    FrontIsLeftmostBest(p, slots, pair, queue + multiset{c}, c, k);
    LeftmostBestDecidesStep(Pick(p.symbols, slots), pair, k);
    ApplyKeepsLinks(p, slots, c, k);
    ApplyMergesContents(p, slots, c, k);
    assert ChainedAt(p.next, p.prev, slots, k) && ChainedAt(p.next, p.prev, slots, k + 1);
    ApplyKeepsQueued(p, slots, pair, queue, c, k);
    rest := Without(slots, k + 1);
  }

  /** Once the queue is empty no adjacent pair can merge. */
  lemma EmptyQueueIsDone<S(!new)>(p: Pass<S>, slots: seq<nat>, pair: PairTable<S>)
    requires p.Links(slots) && p.Queued(pair, multiset{})
    ensures MergeAll(Pick(p.symbols, slots), pair) == Pick(p.symbols, slots)
  {
    var s := Pick(p.symbols, slots);
    if j :| Mergeable(s, pair, j) {
      var found := pair(s[j], s[j + 1]).value;
      var d := MergeCandidate(found.key, found.merged, slots[j], slots[j + 1],
                              p.version[slots[j]], p.version[slots[j + 1]]);
      assert ChainedAt(p.next, p.prev, slots, j);
      assert p.Fresh(d) && p.Current(pair, d);
      assert false;
    }
  }

  /**
   Rewrites the left slot of a candidate and unlinks the right one, in place, unless a merge
   elsewhere has consumed either side or broken the adjacency.
   */
  method ApplyIfFresh<S(!new)>(
    symbols: array<S>, prev: array<int>, next: array<int>, alive: array<bool>, version: array<nat>,
    c: MergeCandidate<S>, ghost p: Pass<S>)
    returns (applied: bool)
    requires p == Pass(symbols[..], prev[..], next[..], alive[..], version[..])
    requires Separate(symbols, prev, next, alive, version)
    requires p.SameLength() && p.InRange(c)
    requires p.Fresh(c) ==> p.next[c.right] < |p.symbols|
    modifies symbols, prev, next, alive, version
    ensures applied == p.Fresh(c)
    ensures Pass(symbols[..], prev[..], next[..], alive[..], version[..]) == if applied then p.Apply(c) else p
  {
    var left, right := c.left, c.right;
    if || !alive[left] || !alive[right] || next[left] != right
       || version[left] != c.leftVersion || version[right] != c.rightVersion
    {
      return false;
    }
    symbols[left] := c.merged;
    version[left] := version[left] + 1;
    alive[right] := false;
    var beyond := next[right];
    next[left] := beyond;
    if beyond >= 0 {
      prev[beyond] := left;
    }
    return true;
  }

  /** Requeues the rewritten slot with whichever neighbours it still has. */
  method OfferNeighbours<S(!new)>(
    queue: seq<MergeCandidate<S>>, symbols: array<S>, prev: array<int>, next: array<int>,
    version: array<nat>, left: nat, pair: PairTable<S>, ghost p: Pass<S>)
    returns (extended: seq<MergeCandidate<S>>)
    requires p.symbols == symbols[..] && p.prev == prev[..] && p.next == next[..] && p.version == version[..]
    requires p.SameLength() && left < |p.symbols|
    requires p.prev[left] < |p.symbols| && p.next[left] < |p.symbols|
    ensures multiset(extended)
         == multiset(queue) + p.Offer(pair, p.prev[left], left) + p.Offer(pair, left, p.next[left])
    ensures |extended| <= |queue| + 2
  {
    extended := queue;
    var before, after := prev[left], next[left];
    if before >= 0 {
      extended := Enqueue(extended, symbols, version, before, left, pair, p);
    }
    if after >= 0 {
      extended := Enqueue(extended, symbols, version, left, after, pair, p);
    }
  }

  /** Offers the initial pairings from left to right. */
  method SeedQueue<S(!new)>(symbols: array<S>, version: array<nat>, pair: PairTable<S>, ghost p: Pass<S>)
    returns (queue: seq<MergeCandidate<S>>)
    requires symbols.Length > 0 && p.symbols == symbols[..] && p.version == version[..] && Untouched(p)
    ensures p.Queued(pair, multiset(queue)) && |queue| <= symbols.Length - 1
  {
    queue := [];
    for left := 0 to symbols.Length - 1
      invariant QueuedBefore(p, pair, multiset(queue), left) && |queue| <= left
    {
      QueueNextPair(p, pair, multiset(queue), left);
      queue := Enqueue(queue, symbols, version, left, left + 1, pair, p);
    }
  }

  /** Between pops: list and queue are exact, and what the list will become is still the same. */
  ghost predicate Exact<S(!new)>(
    p: Pass<S>, slots: seq<nat>, queue: multiset<MergeCandidate<S>>, pair: PairTable<S>,
    goal: seq<S>, merges: nat)
  {
    && p.Links(slots) && p.Queued(pair, queue) && p.VersionsBounded(merges)
    && MergeAll(Pick(p.symbols, slots), pair) == goal
  }

  /** Handles one popped candidate: skipped when stale, otherwise applied and its slot requeued. */
  method Process<S(!new)>(
    symbols: array<S>, prev: array<int>, next: array<int>, alive: array<bool>, version: array<nat>,
    queue: seq<MergeCandidate<S>>, c: MergeCandidate<S>, pair: PairTable<S>,
    ghost p: Pass<S>, ghost slots: seq<nat>, ghost goal: seq<S>, ghost merges: nat)
    returns (extended: seq<MergeCandidate<S>>, ghost after: Pass<S>, ghost rest: seq<nat>)
    requires p == Pass(symbols[..], prev[..], next[..], alive[..], version[..])
    requires Separate(symbols, prev, next, alive, version)
    requires Exact(p, slots, multiset(queue) + multiset{c}, pair, goal, merges)
    requires forall d :: d in multiset(queue) + multiset{c} ==> d.AtMost(c)
    modifies symbols, prev, next, alive, version
    ensures after == Pass(symbols[..], prev[..], next[..], alive[..], version[..])
    ensures |extended| <= |queue| + 2 * (|slots| - |rest|) && |slots| - 1 <= |rest| <= |slots|
    ensures Exact(after, rest, multiset(extended), pair, goal, merges + |slots| - |rest|)
  {
    assert c in multiset(queue) + multiset{c};
    rest := slots;
    if p.Fresh(c) {
      rest := MergeStep(p, slots, pair, multiset(queue), c);
    } else {
      DropStale(p, pair, multiset(queue), c);
    }
    var applied := ApplyIfFresh(symbols, prev, next, alive, version, c, p);
    if applied {
      after := p.Apply(c);
      extended := OfferNeighbours(queue, symbols, prev, next, version, c.left, pair, after);
    } else {
      after, extended := p, queue;
    }
  }

  /**
   Pops candidates until the queue is empty. Before every pop the live slots form a doubly
   linked list in ascending order and the fresh candidates are exactly its mergeable pairs.
   */
  method DrainQueue<S(!new)>(
    symbols: array<S>, prev: array<int>, next: array<int>, alive: array<bool>, version: array<nat>,
    seeded: seq<MergeCandidate<S>>, pair: PairTable<S>, ghost start: Pass<S>, ghost all: seq<nat>,
    ghost goal: seq<S>)
    returns (ghost p: Pass<S>, ghost slots: seq<nat>, ghost merges: nat, ghost queued: nat)
    requires start == Pass(symbols[..], prev[..], next[..], alive[..], version[..])
    requires Separate(symbols, prev, next, alive, version)
    requires Exact(start, all, multiset(seeded), pair, goal, 0)
    modifies symbols, prev, next, alive, version
    ensures p == Pass(symbols[..], prev[..], next[..], alive[..], version[..])
    ensures Exact(p, slots, multiset{}, pair, goal, merges)
    ensures merges + |slots| == |all| && queued <= |seeded| + 2 * merges
  {
    p, slots, merges, queued := start, all, 0, |seeded|;
    var queue := seeded;
    while queue != []
      invariant p == Pass(symbols[..], prev[..], next[..], alive[..], version[..])
      invariant Exact(p, slots, multiset(queue), pair, goal, merges)
      invariant merges + |slots| == |all| && queued <= |seeded| + 2 * merges
      decreases |slots|, |queue|
    {
      var c, left := PopMax(queue);
      ghost var after, rest;
      queue, after, rest := Process(symbols, prev, next, alive, version, left, c, pair, p, slots, goal, merges);
      queued := queued + if |queue| > |left| then |queue| - |left| else 0;
      p, slots, merges := after, rest, merges + |slots| - |rest|;
    }
  }

  /** Before the first pop the live slots are all slots, and the goal is what the rescanning loop leaves. */
  lemma StartIsExact<S(!new)>(p: Pass<S>, slots: seq<nat>, queue: multiset<MergeCandidate<S>>, pair: PairTable<S>)
    requires Untouched(p) && |p.symbols| > 0 && p.Queued(pair, queue)
    requires |slots| == |p.symbols| && forall i :: 0 <= i < |slots| ==> slots[i] == i
    ensures Exact(p, slots, queue, pair, MergeAll(p.symbols, pair), 0)
  {
    UntouchedIsLinked(p, slots);
  }

  /** After the last pop the live symbols are the goal. */
  lemma EndIsGoal<S(!new)>(p: Pass<S>, slots: seq<nat>, pair: PairTable<S>, goal: seq<S>, merges: nat)
    requires Exact(p, slots, multiset{}, pair, goal, merges)
    ensures p.Links(slots) && Pick(p.symbols, slots) == goal
  {
    EmptyQueueIsDone(p, slots, pair);
  }

  /**
   Merges adjacent symbols until none can merge.

   The result is the one of the rescanning loop, for every list and every table. Each merge
   consumes one symbol and queues at most two candidates beyond the initial pairings.
   */
  method MergeSymbols<S(!new)>(symbols: array<S>, pair: PairTable<S>)
    returns (kept: seq<S>, ghost merges: nat, ghost queued: nat)
    modifies symbols
    ensures kept == MergeAll(old(symbols[..]), pair)
    ensures merges + |kept| == symbols.Length
    ensures symbols.Length > 0 ==> queued <= 3 * (symbols.Length - 1)
  {
    merges, queued := 0, 0;
    var count := symbols.Length;
    if count < 2 {
      kept := symbols[..];
      return;
    }
    var prev := new int[count]((slot: int) => slot - 1);
    var next := new int[count](slot => if slot + 1 < count then slot + 1 else -1);
    var alive := new bool[count](_ => true);
    var version := new nat[count](_ => 0);
    ghost var p := Pass(symbols[..], prev[..], next[..], alive[..], version[..]);
    ghost var slots: seq<nat> := seq(count, i => i);
    var queue := SeedQueue(symbols, version, pair, p);
    StartIsExact(p, slots, multiset(queue), pair);
    ghost var goal := MergeAll(symbols[..], pair);
    p, slots, merges, queued := DrainQueue(symbols, prev, next, alive, version, queue, pair, p, slots, goal);
    EndIsGoal(p, slots, pair, goal, merges);
    kept := Retain(symbols, alive, p, slots);
  }
}
