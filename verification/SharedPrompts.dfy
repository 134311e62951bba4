/**
 Generations that share completed prompts. A prompt found in the shared cache is not processed
 again, and nothing of what follows depends on whether it was found.
 */
module SharedPrompts {
  import opened Wrappers
  import opened Utf8
  import opened Logits
  import opened LanguageModel
  import opened PlainDecoding
  import opened SpeculativeDecoding
  import opened PrefixCache

  /** Keys and values of one position: its cells in every layer. */
  datatype Position = Position(k: seq<seq<Cell>>, v: seq<seq<Cell>>)

  function CellOf(layer: seq<Cell>, i: nat): Cell
  {
    if i < |layer| then layer[i] else 0.0
  }

  /** Where the cells of a position stand in a layer. */
  function Offset(pos: nat, width: nat, j: nat): nat
  {
    pos * width + j
  }

  lemma OffsetIsBounded(pos: nat, width: nat, j: nat, n: nat)
    requires pos < n && j < width
    ensures Offset(pos, width, j) < n * width
  {
    LessRows(pos + 1, n, width);
    assert (pos + 1) * width == pos * width + width;
  }

  /** The cells of one position. */
  function Read(layers: seq<seq<Cell>>, width: nat, pos: nat): seq<seq<Cell>>
  {
    seq(|layers|, l requires 0 <= l < |layers| =>
      seq(width, j requires 0 <= j < width => CellOf(layers[l], Offset(pos, width, j))))
  }

  function ReadPosition(k: seq<seq<Cell>>, v: seq<seq<Cell>>, widths: Widths, pos: nat): Position
  {
    Position(Read(k, widths.perPosK, pos), Read(v, widths.perPosV, pos))
  }

  /** The layers agree on their first `len` cells. */
  ghost predicate SameHeads(a: seq<seq<Cell>>, b: seq<seq<Cell>>, len: nat)
  {
    |a| == |b| && forall l, c :: 0 <= l < |a| && 0 <= c < len ==> CellOf(a[l], c) == CellOf(b[l], c)
  }

  lemma SameHeadsReadAlike(a: seq<seq<Cell>>, b: seq<seq<Cell>>, width: nat, n: nat, pos: nat)
    requires SameHeads(a, b, n * width) && pos < n
    ensures Read(a, width, pos) == Read(b, width, pos)
  {
    forall l | 0 <= l < |a|
      ensures Read(a, width, pos)[l] == Read(b, width, pos)[l]
    {
      forall j | 0 <= j < width
        ensures CellOf(a[l], Offset(pos, width, j)) == CellOf(b[l], Offset(pos, width, j))
      {
        OffsetIsBounded(pos, width, j, n);
      }
    }
  }

  /** The layers hold these rows. */
  ghost predicate Mirrors(k: seq<seq<Cell>>, v: seq<seq<Cell>>, widths: Widths, rows: seq<Position>)
  {
    forall pos :: 0 <= pos < |rows| ==> ReadPosition(k, v, widths, pos) == rows[pos]
  }

  lemma MirrorsAlike(
    k: seq<seq<Cell>>, v: seq<seq<Cell>>, k': seq<seq<Cell>>, v': seq<seq<Cell>>, widths: Widths, rows: seq<Position>)
    requires SameHeads(k, k', |rows| * widths.perPosK) && SameHeads(v, v', |rows| * widths.perPosV)
    requires Mirrors(k, v, widths, rows)
    ensures Mirrors(k', v', widths, rows)
  {
    forall pos | 0 <= pos < |rows|
      ensures ReadPosition(k', v', widths, pos) == rows[pos]
    {
      SameHeadsReadAlike(k, k', widths.perPosK, |rows|, pos);
      SameHeadsReadAlike(v, v', widths.perPosV, |rows|, pos);
    }
  }

  /** A snapshot that is what processing its tokens leaves. */
  ghost predicate True<Rec>(model: Model<Position, Rec>, widths: Widths, e: Snapshot)
  {
    Mirrors(e.k, e.v, widths, model.After(e.tokens).rows) && e.logits == model.LogitsAfter(e.tokens)
  }

  ghost predicate AllTrue<Rec>(model: Model<Position, Rec>, widths: Widths, latest: map<seq<Token>, Snapshot>)
  {
    forall t :: t in latest ==> True(model, widths, latest[t])
  }

  /** Every row the model writes has the cells the cache has room for. */
  ghost predicate Fits<Rec(!new)>(model: Model<Position, Rec>, widths: Widths)
  {
    forall rows, ssm, token :: FitsOne(model.row(rows, ssm, token), widths)
  }

  ghost predicate FitsOne(row: Position, widths: Widths)
  {
    LayersSized(row.k, widths.layers, widths.perPosK) && LayersSized(row.v, widths.layers, widths.perPosV)
  }

  lemma {:induction false} AllFit<Rec(!new)>(model: Model<Position, Rec>, widths: Widths, tokens: seq<Token>)
    requires Fits(model, widths)
    ensures forall pos :: 0 <= pos < |tokens| ==> FitsOne(model.After(tokens).rows[pos], widths)
    decreases |tokens|
  {
    if tokens != [] {
      AllFit(model, widths, tokens[..|tokens| - 1]);
    }
  }

  /** One component of several rows: for each of them, `width` cells in every layer. */
  ghost predicate Even(part: seq<seq<seq<Cell>>>, layers: nat, width: nat)
  {
    forall pos :: 0 <= pos < |part| ==> LayersSized(part[pos], layers, width)
  }

  /** The cells of a layer that spell one component of the rows; behind them the layer stays. */
  function Spell(part: seq<seq<seq<Cell>>>, layer: seq<Cell>, l: nat, layers: nat, width: nat): (spelled: seq<Cell>)
    requires Even(part, layers, width) && l < layers
    ensures |spelled| == |layer|
  {
    seq(|layer|, c requires 0 <= c < |layer| =>
      if width > 0 && c / width < |part| then assert LayersSized(part[c / width], layers, width); part[c / width][l][c % width]
      else layer[c])
  }

  lemma SpelledCell(part: seq<seq<seq<Cell>>>, layer: seq<Cell>, l: nat, layers: nat, width: nat, pos: nat, j: nat)
    requires Even(part, layers, width) && l < layers
    requires pos < |part| && j < width && |part| * width <= |layer|
    ensures LayersSized(part[pos], layers, width)
    ensures CellOf(Spell(part, layer, l, layers, width), Offset(pos, width, j)) == part[pos][l][j]
  {
    OffsetIsBounded(pos, width, j, |part|);
    DivideBack(pos, width, j);
  }

  lemma DivideBack(pos: nat, width: nat, j: nat)
    requires j < width
    ensures Offset(pos, width, j) / width == pos && Offset(pos, width, j) % width == j
  {
    var (q, r) := (Offset(pos, width, j) / width, Offset(pos, width, j) % width);
    assert pos * width + j == q * width + r;
    NextRow(q, pos, width);
    NextRow(pos, q, width);
  }

  lemma NextRow(a: nat, b: nat, width: nat)
    ensures a < b ==> a * width + width <= b * width
  {
    if a < b {
      LessRows(a + 1, b, width);
      assert (a + 1) * width == a * width + width;
    }
  }

  /** One component of the rows, spelled into all layers. */
  function SpellAll(part: seq<seq<seq<Cell>>>, layers: seq<seq<Cell>>, width: nat): (spelled: seq<seq<Cell>>)
    requires Even(part, |layers|, width)
    ensures |spelled| == |layers| && forall l :: 0 <= l < |layers| ==> |spelled[l]| == |layers[l]|
  {
    seq(|layers|, l requires 0 <= l < |layers| => Spell(part, layers[l], l, |layers|, width))
  }

  lemma SpelledReadsBack(part: seq<seq<seq<Cell>>>, layers: seq<seq<Cell>>, width: nat, pos: nat)
    requires Even(part, |layers|, width) && pos < |part|
    requires forall l :: 0 <= l < |layers| ==> |part| * width <= |layers[l]|
    ensures Read(SpellAll(part, layers, width), width, pos) == part[pos]
  {
    assert LayersSized(part[pos], |layers|, width);
    var spelled := SpellAll(part, layers, width);
    forall l | 0 <= l < |layers|
      ensures Read(spelled, width, pos)[l] == part[pos][l]
    {
      forall j | 0 <= j < width
        ensures CellOf(spelled[l], Offset(pos, width, j)) == part[pos][l][j]
      {
        SpelledCell(part, layers[l], l, |layers|, width, pos, j);
      }
    }
  }

  function Keys(rows: seq<Position>): (part: seq<seq<seq<Cell>>>)
    ensures |part| == |rows| && forall pos :: 0 <= pos < |rows| ==> part[pos] == rows[pos].k
  {
    seq(|rows|, pos requires 0 <= pos < |rows| => rows[pos].k)
  }

  function Values(rows: seq<Position>): (part: seq<seq<seq<Cell>>>)
    ensures |part| == |rows| && forall pos :: 0 <= pos < |rows| ==> part[pos] == rows[pos].v
  {
    seq(|rows|, pos requires 0 <= pos < |rows| => rows[pos].v)
  }

  // The decoder's rows and the layers a snapshot is cut from are the same memory. The two
  // methods below change from one view of it to the other.

  /** Lays the first rows of a cache out in layers. */
  method LayOut<Rec>(store: KVStore, cache: KVCache<Position, Rec>, n: nat)
    requires store.Valid() && n <= cache.rows.Length && n <= store.storageLen
    requires forall pos :: 0 <= pos < n ==> FitsOne(cache.rows[pos], store.widths)
    modifies store
    ensures store.Valid() && Mirrors(store.k, store.v, store.widths, cache.rows[..n])
  {
    var (rows, widths) := (cache.rows[..n], store.widths);
    assert Even(Keys(rows), widths.layers, widths.perPosK) && Even(Values(rows), widths.layers, widths.perPosV);
    LessRows(n, store.storageLen, widths.perPosK);
    LessRows(n, store.storageLen, widths.perPosV);
    ghost var (k, v) := (store.k, store.v);
    store.k, store.v := SpellAll(Keys(rows), store.k, widths.perPosK), SpellAll(Values(rows), store.v, widths.perPosV);
    forall pos | 0 <= pos < n
      ensures ReadPosition(store.k, store.v, widths, pos) == rows[pos]
    {
      SpelledReadsBack(Keys(rows), k, widths.perPosK, pos);
      SpelledReadsBack(Values(rows), v, widths.perPosV, pos);
    }
  }

  /** Reads the first rows of a cache from its layers. */
  method TakeUp<Rec>(store: KVStore, cache: KVCache<Position, Rec>, n: nat)
    requires n <= cache.rows.Length
    modifies cache.rows
    ensures forall pos :: 0 <= pos < n ==> cache.rows[pos] == ReadPosition(store.k, store.v, store.widths, pos)
  {
    for i := 0 to n
      invariant forall pos :: 0 <= pos < i ==> cache.rows[pos] == ReadPosition(store.k, store.v, store.widths, pos)
    {
      cache.rows[i] := ReadPosition(store.k, store.v, store.widths, i);
    }
  }

  method TakeUpRows<Rec>(store: KVStore, cache: KVCache<Position, Rec>, n: nat, ghost rows: seq<Position>)
    requires n <= cache.rows.Length && |rows| == n && Mirrors(store.k, store.v, store.widths, rows)
    modifies cache.rows
    ensures cache.rows[..n] == rows
  {
    TakeUp(store, cache, n);
  }

  lemma RestoredIsMirrored(
    target: seq<seq<Cell>>, target': seq<seq<Cell>>, e: Snapshot, widths: Widths, rows: seq<Position>)
    requires ShapedOne(e, widths) && |rows| == |e.tokens| && Mirrors(e.k, e.v, widths, rows)
    requires |target| == |e.k| && |target'| == |e.v|
    requires forall l :: 0 <= l < |e.k| ==> |e.k[l]| <= |target[l]|
    requires forall l :: 0 <= l < |e.v| ==> |e.v[l]| <= |target'[l]|
    ensures Mirrors(Overlay(target, e.k), Overlay(target', e.v), widths, rows)
  {
    MirrorsAlike(e.k, e.v, Overlay(target, e.k), Overlay(target', e.v), widths, rows);
  }

  lemma TakenIsMirrored(
    k: seq<seq<Cell>>, v: seq<seq<Cell>>, kLen: nat, vLen: nat, widths: Widths, rows: seq<Position>)
    requires forall l :: 0 <= l < |k| ==> kLen <= |k[l]|
    requires forall l :: 0 <= l < |v| ==> vLen <= |v[l]|
    requires kLen == |rows| * widths.perPosK && vLen == |rows| * widths.perPosV && Mirrors(k, v, widths, rows)
    ensures Mirrors(Heads(k, kLen), Heads(v, vLen), widths, rows)
  {
    MirrorsAlike(k, v, Heads(k, kLen), Heads(v, vLen), widths, rows);
  }

  /** Asks the shared cache. A hit brings back the layers that processing the prompt leaves. */
  method Recall<Rec(!new)>(
    shared: SharedPrefixCache, store: KVStore, model: Model<Position, Rec>, prompt: seq<Token>)
    returns (logits: Option<seq<Float>>)
    requires shared.Valid() && AllTrue(model, shared.widths, shared.history.latest)
    requires store.Valid() && store.widths == shared.widths && (shared as object) != store
    modifies shared, store`k, store`v
    ensures shared.Valid() && AllTrue(model, shared.widths, shared.history.latest)
    ensures logits.Some? ==>
              && !store.recurrent && logits.value == model.LogitsAfter(prompt)
              && Mirrors(store.k, store.v, store.widths, model.After(prompt).rows)
    ensures logits.None? ==> store.k == old(store.k) && store.v == old(store.v)
  {
    ghost var (k, v) := (store.k, store.v);
    logits := shared.Restore(prompt, store);
    if logits.Some? {
      ghost var e := shared.history.latest[prompt];
      assert ShapedOne(e, shared.widths) && True(model, shared.widths, e);
      RestoredIsMirrored(k, v, e, store.widths, model.After(e.tokens).rows);
    }
  }

  /** Looks the prompt up. A hit leaves the cache as processing the prompt would. */
  method LookUp<Rec(!new)>(
    shared: SharedPrefixCache, store: KVStore, cache: KVCache<Position, Rec>, model: Model<Position, Rec>, prompt: seq<Token>)
    returns (logits: Option<seq<Float>>)
    requires shared.Valid() && AllTrue(model, shared.widths, shared.history.latest)
    requires store.Valid() && store.widths == shared.widths && (shared as object) != store
    requires |prompt| <= cache.rows.Length && cache.Holds(model, [])
    requires store.recurrent <==> model.initial.Some?
    modifies shared, store`k, store`v, cache.rows
    ensures shared.Valid() && AllTrue(model, shared.widths, shared.history.latest)
    ensures logits.Some? ==> cache.Holds(model, prompt) && logits.value == model.LogitsAfter(prompt)
    ensures logits.None? ==> cache.Holds(model, []) && store.k == old(store.k) && store.v == old(store.v)
  {
    logits := Recall(shared, store, model, prompt);
    if logits.Some? {
      TakeUpRows(store, cache, |prompt|, model.After(prompt).rows);
    }
  }

  /** Offers a processed prompt to the shared cache. */
  method Keep<Rec(!new)>(
    shared: SharedPrefixCache, store: KVStore, cache: KVCache<Position, Rec>, model: Model<Position, Rec>,
    prompt: seq<Token>, logits: seq<Float>)
    requires shared.Valid() && AllTrue(model, shared.widths, shared.history.latest)
    requires store.Valid() && store.widths == shared.widths && (shared as object) != store
    requires Fits(model, store.widths) && |prompt| <= store.storageLen
    requires cache.Holds(model, prompt) && logits == model.LogitsAfter(prompt)
    modifies shared, store
    ensures shared.Valid() && AllTrue(model, shared.widths, shared.history.latest)
  {
    ghost var rows := model.After(prompt).rows;
    assert cache.rows[..|prompt|] == rows;
    AllFit(model, store.widths, prompt);
    forall pos | 0 <= pos < |prompt|
      ensures FitsOne(cache.rows[pos], store.widths)
    {
      assert cache.rows[pos] == rows[pos];
    }
    LayOut(store, cache, |prompt|);
    var (kLen, vLen) := (|prompt| * store.widths.perPosK, |prompt| * store.widths.perPosV);
    LessRows(|prompt|, store.storageLen, store.widths.perPosK);
    LessRows(|prompt|, store.storageLen, store.widths.perPosV);
    TakenIsMirrored(store.k, store.v, kLen, vLen, store.widths, rows);
    shared.Insert(prompt, store, logits);
  }

  /**
   A whole greedy generation over a shared prompt cache. Whether its prompt is found there or
   processed, and with any drafter, it is plain decoding; and all that the cache holds stays true.
   */
  method GenerateShared<Rec(!new), ARow, ARec>(
    shared: SharedPrefixCache, allowed: bool, bf16: bool, model: Model<Position, Rec>, widths: Widths, cfg: Settings,
    prompt: seq<Token>, drafter: Drafter<ARow, ARec>)
    returns (text: Bytes, streamed: seq<Bytes>, ghost emitted: seq<Token>)
    requires shared.Valid() && shared.widths == widths
    requires AllTrue(model, widths, shared.history.latest) && Fits(model, widths)
    requires prompt != [] && |prompt| <= cfg.cacheLen && cfg.maxTokens > 0
    modifies shared
    ensures shared.Valid() && AllTrue(model, widths, shared.history.latest)
    ensures emitted == Plain(model, cfg, prompt).emitted
    ensures text == FinalText(Plain(model, cfg, prompt))
    ensures streamed == FinalPieces(Plain(model, cfg, prompt))
  {
    var store := new KVStore(widths, cfg.cacheLen, false, bf16, model.initial.Some?);
    var cache := new KVCache<Position, Rec>.Empty(model, cfg.cacheLen, Position([], []));
    var found: Option<seq<Float>> := None;
    if allowed {
      found := LookUp(shared, store, cache, model, prompt);
    }
    var logits;
    if found.Some? {
      logits := found.value;
    } else {
      assert [] + prompt == prompt;
      logits := cache.PrefillPrompt(model, prompt, 0, []);
      if allowed {
        Keep(shared, store, cache, model, prompt, logits);
      }
    }
    text, streamed, emitted := GenerateFrom(model, cfg, prompt, cache, logits, drafter);
  }
}
