/**
 The shared cache of completed prompts. It keeps the most recently used snapshots, and a hit
 gives back exactly what was stored last for those tokens.
 */
module PrefixCache {
  import opened Wrappers
  import opened Logits

  /** A number of the cache; its arithmetic plays no part here. */
  type Cell = real

  /** The active rows of every layer after a prompt, and the logits that followed. */
  datatype Snapshot = Snapshot(tokens: seq<Token>, k: seq<seq<Cell>>, v: seq<seq<Cell>>, logits: seq<Float>)

  /** Layer count and cells per position, which the model determines. */
  datatype Widths = Widths(layers: nat, perPosK: nat, perPosV: nat)

  class KVStore {
    const widths: Widths
    /** How many positions there is room for, which every generation decides for itself. */
    const storageLen: nat
    const slidingWindow: bool
    const bf16: bool
    const recurrent: bool
    var k: seq<seq<Cell>>
    var v: seq<seq<Cell>>

    constructor (widths: Widths, storageLen: nat, slidingWindow: bool, bf16: bool, recurrent: bool)
      ensures this.widths == widths && this.storageLen == storageLen
      ensures this.slidingWindow == slidingWindow && this.bf16 == bf16 && this.recurrent == recurrent
      ensures Valid()
    {
      this.widths, this.storageLen := widths, storageLen;
      this.slidingWindow, this.bf16, this.recurrent := slidingWindow, bf16, recurrent;
      k := seq(widths.layers, _ => seq(storageLen * widths.perPosK, _ => 0.0));
      v := seq(widths.layers, _ => seq(storageLen * widths.perPosV, _ => 0.0));
    }

    ghost predicate Valid()
      reads this
    {
      && LayersSized(k, widths.layers, storageLen * widths.perPosK)
      && LayersSized(v, widths.layers, storageLen * widths.perPosV)
    }
  }

  ghost predicate LayersSized(layers: seq<seq<Cell>>, count: nat, len: nat)
  {
    |layers| == count && forall l :: 0 <= l < count ==> |layers[l]| == len
  }

  /** The first `len` cells of every layer. */
  function Heads(layers: seq<seq<Cell>>, len: nat): (heads: seq<seq<Cell>>)
    requires forall l :: 0 <= l < |layers| ==> len <= |layers[l]|
    ensures LayersSized(heads, |layers|, len)
    ensures forall l :: 0 <= l < |layers| ==> heads[l] == layers[l][..len]
  {
    seq(|layers|, l requires 0 <= l < |layers| => layers[l][..len])
  }

  /** Overwrites the beginning of every layer; the rest of it stays. */
  function Overlay(layers: seq<seq<Cell>>, heads: seq<seq<Cell>>): (result: seq<seq<Cell>>)
    requires |heads| == |layers| && forall l :: 0 <= l < |layers| ==> |heads[l]| <= |layers[l]|
    ensures |result| == |layers|
    ensures forall l :: 0 <= l < |layers| ==> result[l] == heads[l] + layers[l][|heads[l]|..]
  {
    seq(|layers|, l requires 0 <= l < |layers| => heads[l] + layers[l][|heads[l]|..])
  }

  function PositionOf(entries: seq<Snapshot>, tokens: seq<Token>): (at: Option<nat>)
    ensures at.Some? ==> at.value < |entries| && entries[at.value].tokens == tokens
    ensures at.Some? ==> forall i :: 0 <= i < at.value ==> entries[i].tokens != tokens
    ensures at.None? ==> forall i :: 0 <= i < |entries| ==> entries[i].tokens != tokens
  {
    if entries == [] then None
    else if entries[0].tokens == tokens then Some(0)
    else
      match PositionOf(entries[1..], tokens)
      case None => None
      case Some(at) => Some(at + 1)
  }

  function RemoveAt<T>(s: seq<T>, i: nat): (t: seq<T>)
    requires i < |s|
    ensures |t| == |s| - 1 && forall j {:trigger t[j]} :: 0 <= j < |t| ==> t[j] == s[if j < i then j else j + 1]
  {
    s[..i] + s[i + 1..]
  }

  function Without(entries: seq<Snapshot>, tokens: seq<Token>): seq<Snapshot>
  {
    match PositionOf(entries, tokens)
    case None => entries
    case Some(at) => RemoveAt(entries, at)
  }

  ghost predicate Has(entries: seq<Snapshot>, tokens: seq<Token>)
  {
    exists i :: 0 <= i < |entries| && entries[i].tokens == tokens
  }

  /**
   The whole history since the last clear: the latest accepted snapshot of every prompt, and
   when the prompt was last used.
   */
  datatype History = History(latest: map<seq<Token>, Snapshot>, lastUse: map<seq<Token>, nat>, clock: nat)
  {
    ghost function Use(e: Snapshot): History
    {
      History(latest[e.tokens := e], lastUse[e.tokens := clock], clock + 1)
    }

    ghost predicate Valid()
    {
      && latest.Keys == lastUse.Keys
      && (forall t :: t in latest ==> latest[t].tokens == t)
      && (forall t :: t in lastUse ==> lastUse[t] < clock)
    }
  }

  /** Every entry is the latest accepted snapshot of its prompt; no prompt occurs twice. */
  ghost predicate Exact(entries: seq<Snapshot>, h: History)
  {
    && (forall i :: 0 <= i < |entries| ==> entries[i].tokens in h.latest && h.latest[entries[i].tokens] == entries[i])
    && (forall i, j :: 0 <= i < j < |entries| ==> entries[i].tokens != entries[j].tokens)
  }

  /**
   Entries stand in order of use, most recent first, and whatever has been dropped was used
   before everything that is kept, while the cache was full.
   */
  ghost predicate MostRecent(entries: seq<Snapshot>, h: History, capacity: nat)
    requires h.Valid() && Exact(entries, h)
  {
    && |entries| <= capacity
    && Ordered(entries, h)
    && (forall t :: t in h.lastUse && !Has(entries, t) ==> Dropped(entries, h, capacity, t))
  }

  ghost predicate Ordered(entries: seq<Snapshot>, h: History)
    requires h.Valid() && Exact(entries, h)
  {
    forall i, j :: 0 <= i < j < |entries| ==> h.lastUse[entries[i].tokens] > h.lastUse[entries[j].tokens]
  }

  ghost predicate Dropped(entries: seq<Snapshot>, h: History, capacity: nat, t: seq<Token>)
    requires h.Valid() && Exact(entries, h) && t in h.lastUse
  {
    |entries| == capacity && forall i :: 0 <= i < |entries| ==> h.lastUse[t] < h.lastUse[entries[i].tokens]
  }

  /** Moving a snapshot to the front, or adding it there, and keeping the first `capacity`. */
  function Promote(entries: seq<Snapshot>, e: Snapshot, capacity: nat): seq<Snapshot>
  {
    var all := [e] + Without(entries, e.tokens);
    if |all| <= capacity then all else all[..capacity]
  }

  /** Promoting an entry that is there moves it to the front. */
  lemma PromoteMoves(entries: seq<Snapshot>, index: nat, capacity: nat)
    requires index < |entries| <= capacity && PositionOf(entries, entries[index].tokens) == Some(index)
    ensures Promote(entries, entries[index], capacity) == [entries[index]] + entries[..index] + entries[index + 1..]
  {
    assert [entries[index]] + entries[..index] + entries[index + 1..] == [entries[index]] + RemoveAt(entries, index);
  }

  lemma WithoutKeeps(entries: seq<Snapshot>, h: History, t: seq<Token>)
    requires Exact(entries, h)
    ensures var rest := Without(entries, t); Exact(rest, h) && !Has(rest, t)
    ensures forall u :: u != t ==> (Has(Without(entries, t), u) <==> Has(entries, u))
    ensures |Without(entries, t)| == if Has(entries, t) then |entries| - 1 else |entries|
  {
    var rest := Without(entries, t);
    forall u | u != t && Has(entries, u)
      ensures Has(rest, u)
    {
      var i :| 0 <= i < |entries| && entries[i].tokens == u;
      match PositionOf(entries, t)
      case None =>
      case Some(at) => assert rest[if i < at then i else i - 1].tokens == u;
    }
  }

  lemma WithoutStaysOrdered(entries: seq<Snapshot>, h: History, t: seq<Token>)
    requires h.Valid() && Exact(entries, h) && Ordered(entries, h)
    ensures Exact(Without(entries, t), h) && Ordered(Without(entries, t), h)
    ensures forall i :: 0 <= i < |Without(entries, t)| ==> Without(entries, t)[i].tokens != t
  {
    WithoutKeeps(entries, h, t);
  }

  lemma PromoteIsExact(rest: seq<Snapshot>, h: History, e: Snapshot)
    requires h.Valid() && Exact(rest, h) && Ordered(rest, h)
    requires forall i :: 0 <= i < |rest| ==> rest[i].tokens != e.tokens
    ensures h.Use(e).Valid() && Exact([e] + rest, h.Use(e)) && Ordered([e] + rest, h.Use(e))
  {
  }

  /** An entry that is not shifted past the end stays. */
  lemma ShiftedStays(rest: seq<Snapshot>, capacity: nat, e: Snapshot, i: nat)
    requires i < |rest| && i + 1 < capacity
    ensures Has(if |rest| < capacity then [e] + rest else ([e] + rest)[..capacity], rest[i].tokens)
  {
    var kept := if |rest| < capacity then [e] + rest else ([e] + rest)[..capacity];
    assert kept[i + 1].tokens == rest[i].tokens;
  }

  /** The one entry that a promotion into a full cache pushes out was used before all others. */
  lemma LastFallsOut(rest: seq<Snapshot>, h: History, capacity: nat, e: Snapshot, t: seq<Token>)
    requires h.Valid() && Exact(rest, h) && Ordered(rest, h) && 0 < capacity && |rest| <= capacity
    requires forall i :: 0 <= i < |rest| ==> rest[i].tokens != e.tokens
    requires Has(rest, t)
    requires h.Use(e).Valid() && Exact(if |rest| < capacity then [e] + rest else ([e] + rest)[..capacity], h.Use(e))
    requires !Has(if |rest| < capacity then [e] + rest else ([e] + rest)[..capacity], t)
    ensures Dropped(if |rest| < capacity then [e] + rest else ([e] + rest)[..capacity], h.Use(e), capacity, t)
  {
    var i :| 0 <= i < |rest| && rest[i].tokens == t;
    if i + 1 < capacity {
      ShiftedStays(rest, capacity, e, i);
      assert false;
    }
    var kept := ([e] + rest)[..capacity];
    forall j | 0 <= j < |kept|
      ensures h.Use(e).lastUse[t] < h.Use(e).lastUse[kept[j].tokens]
    {
      assert kept[j] == if j == 0 then e else rest[j - 1];
    }
  }

  lemma UsedAfter(entries: seq<Snapshot>, h: History, capacity: nat, t: seq<Token>, u: seq<Token>)
    requires h.Valid() && Exact(entries, h) && t in h.lastUse && Dropped(entries, h, capacity, t) && Has(entries, u)
    ensures u in h.lastUse && h.lastUse[t] < h.lastUse[u]
  {
    var i :| 0 <= i < |entries| && entries[i].tokens == u;
  }

  /** What was missing before a promotion, and still is, was used before everything that is there. */
  lemma StillDropped(entries: seq<Snapshot>, h: History, capacity: nat, e: Snapshot, t: seq<Token>)
    requires h.Valid() && Exact(entries, h) && MostRecent(entries, h, capacity) && capacity > 0
    requires Exact(Promote(entries, e, capacity), h.Use(e)) && h.Use(e).Valid()
    requires t in h.lastUse && t != e.tokens && !Has(entries, t)
    ensures Dropped(Promote(entries, e, capacity), h.Use(e), capacity, t)
  {
    var rest, after := Without(entries, e.tokens), Promote(entries, e, capacity);
    WithoutKeeps(entries, h, e.tokens);
    assert Dropped(entries, h, capacity, t);
    forall j | 0 <= j < |after|
      ensures h.Use(e).lastUse[t] < h.Use(e).lastUse[after[j].tokens]
    {
      if j > 0 {
        assert after[j] == rest[j - 1] && Has(rest, after[j].tokens);
        UsedAfter(entries, h, capacity, t, after[j].tokens);
      }
    }
  }

  /** Whatever is missing after a promotion was used before everything that is there. */
  lemma PromoteDrops(entries: seq<Snapshot>, h: History, capacity: nat, e: Snapshot, t: seq<Token>)
    requires h.Valid() && Exact(entries, h) && MostRecent(entries, h, capacity) && capacity > 0
    requires Exact(Promote(entries, e, capacity), h.Use(e)) && h.Use(e).Valid()
    requires t in h.Use(e).lastUse && !Has(Promote(entries, e, capacity), t)
    ensures Dropped(Promote(entries, e, capacity), h.Use(e), capacity, t)
  {
    var rest := Without(entries, e.tokens);
    WithoutStaysOrdered(entries, h, e.tokens);
    WithoutKeeps(entries, h, e.tokens);
    assert Promote(entries, e, capacity)[0] == e;
    if Has(rest, t) {
      LastFallsOut(rest, h, capacity, e, t);
    } else {
      StillDropped(entries, h, capacity, e, t);
    }
  }

  /** Using a snapshot keeps the cache an exact record of the most recently used prompts. */
  lemma PromoteKeeps(entries: seq<Snapshot>, h: History, capacity: nat, e: Snapshot)
    requires h.Valid() && Exact(entries, h) && MostRecent(entries, h, capacity) && capacity > 0
    ensures h.Use(e).Valid() && Exact(Promote(entries, e, capacity), h.Use(e))
    ensures MostRecent(Promote(entries, e, capacity), h.Use(e), capacity)
  {
    var rest, after := Without(entries, e.tokens), Promote(entries, e, capacity);
    WithoutStaysOrdered(entries, h, e.tokens);
    PromoteIsExact(rest, h, e);
    TakeKeeps([e] + rest, h.Use(e), |after|);
    assert ([e] + rest)[..|after|] == after;
    forall t | t in h.Use(e).lastUse && !Has(after, t)
      ensures Dropped(after, h.Use(e), capacity, t)
    {
      PromoteDrops(entries, h, capacity, e, t);
    }
  }

  lemma TakeKeeps(entries: seq<Snapshot>, h: History, n: nat)
    requires h.Valid() && Exact(entries, h) && Ordered(entries, h) && n <= |entries|
    ensures Exact(entries[..n], h) && Ordered(entries[..n], h)
  {
  }

  /** Every snapshot holds as many rows as its prompt has tokens. */
  ghost predicate Shaped(latest: map<seq<Token>, Snapshot>, widths: Widths)
  {
    forall t :: t in latest ==> ShapedOne(latest[t], widths)
  }

  ghost predicate ShapedOne(e: Snapshot, widths: Widths)
  {
    && LayersSized(e.k, widths.layers, |e.tokens| * widths.perPosK)
    && LayersSized(e.v, widths.layers, |e.tokens| * widths.perPosV)
  }

  // ---------- The budget of a snapshot ----------

  /** How many cells all layers have together. */
  function Cells(layers: seq<seq<Cell>>): nat
  {
    if layers == [] then 0 else Cells(layers[..|layers| - 1]) + |layers[|layers| - 1]|
  }

  lemma {:induction false} CellsOf(layers: seq<seq<Cell>>, count: nat, len: nat)
    requires LayersSized(layers, count, len)
    ensures Cells(layers) == count * len
    decreases count
  {
    if count > 0 {
      CellsOf(layers[..count - 1], count - 1, len);
      assert count * len == (count - 1) * len + len;
    }
  }

  /** What the budget counts of a snapshot: one for every cell, and four for every logit. */
  function Counted(e: Snapshot): nat
  {
    Cells(e.k) + Cells(e.v) + 4 * |e.logits|
  }

  /** What it takes: cells and logits are floats of four bytes. */
  function BytesHeld(e: Snapshot): nat
  {
    4 * Cells(e.k) + 4 * Cells(e.v) + 4 * |e.logits|
  }

  /** No snapshot has more tokens than allowed, or counts for more than the budget. */
  ghost predicate InBudget(entries: seq<Snapshot>, maxTokens: nat, maxBytes: nat)
  {
    forall i :: 0 <= i < |entries| ==> |entries[i].tokens| <= maxTokens && Counted(entries[i]) <= maxBytes
  }

  lemma PromoteInBudget(entries: seq<Snapshot>, e: Snapshot, capacity: nat, maxTokens: nat, maxBytes: nat)
    requires InBudget(entries, maxTokens, maxBytes) && |e.tokens| <= maxTokens && Counted(e) <= maxBytes
    ensures InBudget(Promote(entries, e, capacity), maxTokens, maxBytes)
  {
  }

  /** Since the budget counts a cell as one byte, a snapshot takes up to four times as much. */
  lemma HeldBytes(entries: seq<Snapshot>, maxTokens: nat, maxBytes: nat, i: nat)
    requires InBudget(entries, maxTokens, maxBytes) && i < |entries|
    ensures BytesHeld(entries[i]) <= 4 * maxBytes
    ensures BytesHeld(entries[i]) <= maxBytes <==> 4 * (Cells(entries[i].k) + Cells(entries[i].v)) <= maxBytes - 4 * |entries[i].logits|
  {
  }

  class SharedPrefixCache {
    const maxEntries: nat
    const maxTokens: nat
    const maxBytes: nat
    /** Those of the model; all caches snapshots are taken of and restored into have them. */
    ghost const widths: Widths
    var entries: seq<Snapshot>
    ghost var history: History

    constructor (maxEntries: nat, maxTokens: nat, maxBytes: nat, ghost widths: Widths)
      ensures this.widths == widths
      ensures Valid() && entries == [] && history.latest == map[]
      ensures this.maxEntries == (if maxEntries > 0 then maxEntries else 1)
      ensures this.maxTokens == (if maxTokens > 0 then maxTokens else 1)
      ensures this.maxBytes == (if maxBytes > 0 then maxBytes else 1)
    {
      this.maxEntries := if maxEntries > 0 then maxEntries else 1;
      this.maxTokens := if maxTokens > 0 then maxTokens else 1;
      this.maxBytes := if maxBytes > 0 then maxBytes else 1;
      this.widths := widths;
      entries, history := [], History(map[], map[], 0);
    }

    ghost predicate Valid()
      reads this
    {
      && maxEntries > 0 && history.Valid() && Exact(entries, history)
      && MostRecent(entries, history, maxEntries) && Shaped(history.latest, widths)
      && InBudget(entries, maxTokens, maxBytes)
    }

    /** Forgets all prompts and their history. */
    method Clear()
      requires Valid()
      modifies this
      ensures Valid() && entries == [] && history.latest == map[]
    {
      entries, history := [], History(map[], map[], 0);
    }

    /** Promotes the entry at `index` to the front. */
    method Touch(index: nat)
      requires Valid() && index < |entries| && PositionOf(entries, entries[index].tokens) == Some(index)
      modifies this
      ensures Valid() && entries == Promote(old(entries), old(entries[index]), maxEntries)
      ensures history == old(history).Use(old(entries[index])) && history.latest == old(history.latest)
    {
      var entry := entries[index];
      PromoteKeeps(entries, history, maxEntries, entry);
      PromoteInBudget(entries, entry, maxEntries, maxTokens, maxBytes);
      assert history.latest[entry.tokens := entry] == history.latest;
      PromoteMoves(entries, index, maxEntries);
      entries := [entry] + entries[..index] + entries[index + 1..];
      history := history.Use(entry);
    }

    /** A snapshot can be copied into a cache with room for it; recurrent state is not captured. */
    predicate Restorable(entry: Snapshot, cache: KVStore)
      reads cache
    {
      && !cache.bf16 && !cache.recurrent
      && |entry.k| == |cache.k| && |entry.v| == |cache.v|
      && (forall l :: 0 <= l < |entry.k| ==> |entry.k[l]| <= |cache.k[l]|)
      && (forall l :: 0 <= l < |entry.v| ==> |entry.v[l]| <= |cache.v[l]|)
    }

    /**
     Restores the snapshot of exactly these tokens. Only the stored rows are overwritten. An
     entry that cannot be restored into this cache counts as used all the same.
     */
    method Restore(tokens: seq<Token>, cache: KVStore) returns (logits: Option<seq<Float>>)
      requires Valid() && (this as object) != cache && cache.Valid() && cache.widths == widths
      modifies this, cache`k, cache`v
      ensures Valid() && history.latest == old(history.latest)
      ensures !Has(old(entries), tokens) ==> logits.None? && entries == old(entries)
      ensures Has(old(entries), tokens) ==>
                && tokens in history.latest
                && entries == Promote(old(entries), history.latest[tokens], maxEntries)
                && (logits.Some? <==> old(Restorable(history.latest[tokens], cache)))
                && (cache.bf16 || cache.recurrent ==> logits.None?)
                && (!cache.bf16 && !cache.recurrent && |tokens| <= cache.storageLen ==> logits.Some?)
      ensures logits.Some? ==>
                && tokens in history.latest && logits.value == history.latest[tokens].logits
                && tokens == history.latest[tokens].tokens && old(Restorable(history.latest[tokens], cache))
                && cache.k == Overlay(old(cache.k), history.latest[tokens].k)
                && cache.v == Overlay(old(cache.v), history.latest[tokens].v)
      ensures logits.None? ==> cache.k == old(cache.k) && cache.v == old(cache.v)
    {
      var index := PositionOf(entries, tokens);
      if index.None? {
        return None;
      }
      var entry := entries[index.value];
      Touch(index.value);
      assert ShapedOne(entry, widths);
      if |tokens| <= cache.storageLen {
        LessRows(|tokens|, cache.storageLen, widths.perPosK);
        LessRows(|tokens|, cache.storageLen, widths.perPosV);
      }
      if !Restorable(entry, cache) {
        return None;
      }
      cache.k, cache.v := Overlay(cache.k, entry.k), Overlay(cache.v, entry.v);
      logits := Some(entry.logits);
    }

    /** The conditions under which a completed prompt is worth keeping, and can be. */
    predicate Accepts(tokens: seq<Token>, cache: KVStore, logits: seq<Float>)
      reads cache
    {
      && tokens != [] && |tokens| <= maxTokens
      && !cache.slidingWindow && |tokens| <= cache.storageLen && |cache.k| == |cache.v|
      && !cache.bf16 && !cache.recurrent
      && |cache.k| * (|tokens| * cache.widths.perPosK) + |cache.v| * (|tokens| * cache.widths.perPosV) + |logits| * 4 <= maxBytes
    }

    /** Stores a completed prompt, in place of an earlier snapshot of the same tokens. */
    method Insert(tokens: seq<Token>, cache: KVStore, logits: seq<Float>)
      requires Valid() && cache.Valid() && cache.widths == widths
      modifies this
      ensures Valid()
      ensures Accepts(tokens, cache, logits) <==>
                && 1 <= |tokens| <= maxTokens && |tokens| <= cache.storageLen
                && !cache.slidingWindow && !cache.bf16 && !cache.recurrent
                && widths.layers * (|tokens| * widths.perPosK) + widths.layers * (|tokens| * widths.perPosV) + 4 * |logits| <= maxBytes
      ensures !Accepts(tokens, cache, logits) ==> entries == old(entries) && history == old(history)
      ensures Accepts(tokens, cache, logits) ==>
                && |tokens| * cache.widths.perPosK <= cache.storageLen * cache.widths.perPosK
                && |tokens| * cache.widths.perPosV <= cache.storageLen * cache.widths.perPosV
                && var e := Snapshot(tokens, Heads(cache.k, |tokens| * cache.widths.perPosK),
                                     Heads(cache.v, |tokens| * cache.widths.perPosV), logits);
                   entries == Promote(old(entries), e, maxEntries) && history == old(history).Use(e)
    {
      if !Accepts(tokens, cache, logits) {
        return;
      }
      var (kLen, vLen) := (|tokens| * cache.widths.perPosK, |tokens| * cache.widths.perPosV);
      LessRows(|tokens|, cache.storageLen, cache.widths.perPosK);
      LessRows(|tokens|, cache.storageLen, cache.widths.perPosV);
      var entry := Snapshot(tokens, Heads(cache.k, kLen), Heads(cache.v, vLen), logits);
      PromoteKeeps(entries, history, maxEntries, entry);
      CellsOf(entry.k, |cache.k|, kLen);
      CellsOf(entry.v, |cache.v|, vLen);
      PromoteInBudget(entries, entry, maxEntries, maxTokens, maxBytes);
      var all := [entry] + Without(entries, tokens);
      entries := if |all| <= maxEntries then all else all[..maxEntries];
      history := history.Use(entry);
    }
  }

  /** A prompt of one token with two cells passes a budget of two bytes, and takes eight. */
  method CellsCountAsBytes() returns (shared: SharedPrefixCache)
    ensures shared.Valid() && shared.maxBytes == 2 && |shared.entries| == 1 && BytesHeld(shared.entries[0]) == 8
  {
    var widths := Widths(1, 1, 1);
    shared := new SharedPrefixCache(1, 1, 2, widths);
    var cache := new KVStore(widths, 1, false, false, false);
    shared.Insert([0], cache, []);
    var e := shared.entries[0];
    CellsOf(e.k, 1, 1);
    CellsOf(e.v, 1, 1);
  }

  lemma LessRows(a: nat, b: nat, width: nat)
    requires a <= b
    ensures a * width <= b * width
  {
  }

  /**
   Restoring brings back what was stored of the first positions and leaves every cell behind them
   alone, however long the cache the snapshot was taken of and the one it is restored into are.
   */
  lemma HitRestoresActiveRows(
    stored: seq<seq<Cell>>, target: seq<seq<Cell>>, len: nat, storedLen: nat, targetLen: nat, l: nat, c: nat)
    requires LayersSized(stored, |target|, storedLen) && LayersSized(target, |target|, targetLen)
    requires len <= storedLen && len <= targetLen && l < |target| && c < targetLen
    ensures Overlay(target, Heads(stored, len))[l][c] == if c < len then stored[l][c] else target[l][c]
  {
  }
}
