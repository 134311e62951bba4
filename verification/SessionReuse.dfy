/**
 Conversations that keep their cache between turns: only the part of a prompt that differs from
 what the cache has seen is processed. A turn must answer as if the cache had been empty.
 */
module SessionReuse {
  import opened Sequences
  import opened Utf8
  import opened Utf8Stitching
  import opened Logits
  import opened LanguageModel
  import opened PlainDecoding

  /** One draw. The sampler works on the logits in place, so it also says what it leaves there. */
  datatype Sampled = Sampled(token: Token, rng: nat, logits: seq<Float>)

  type Sampler = (seq<Float>, nat, seq<Token>) -> Sampled

  /** What a turn emits when its first token is drawn from `logits`. */
  ghost function TurnFrom<Row, Rec>(
    model: Model<Row, Rec>, cfg: Settings, sampler: Sampler, prompt: seq<Token>,
    logits: seq<Float>, rng: nat, p: Progress): Progress
    decreases cfg.maxTokens - |p.emitted|
  {
    if |p.emitted| >= cfg.maxTokens then p
    else
      var context := prompt + p.emitted;
      var s := sampler(logits, rng, RecentTail(context));
      match Choose(cfg, |context|, p, s.token)
      case Finished(q) => q
      case Running(q) =>
        TurnFrom(model, cfg, sampler, prompt, model.LogitsAfter(prompt + q.emitted), s.rng, q)
  }

  /** The same turn with nothing cached. */
  ghost function ColdTurn<Row, Rec>(
    model: Model<Row, Rec>, cfg: Settings, sampler: Sampler, prompt: seq<Token>, seed: nat): Progress
  {
    TurnFrom(model, cfg, sampler, prompt, model.LogitsAfter(prompt), seed, START)
  }

  lemma {:induction false} TurnPendingIsCompletable<Row, Rec>(
    model: Model<Row, Rec>, cfg: Settings, sampler: Sampler, prompt: seq<Token>,
    logits: seq<Float>, rng: nat, p: Progress)
    requires p.pending == [] || IsPartial(p.pending)
    ensures
      var q := TurnFrom(model, cfg, sampler, prompt, logits, rng, p);
      q.pending == [] || IsPartial(q.pending)
    decreases cfg.maxTokens - |p.emitted|
  {
    if |p.emitted| < cfg.maxTokens {
      var context := prompt + p.emitted;
      var s := sampler(logits, rng, RecentTail(context));
      match Choose(cfg, |context|, p, s.token)
      case Finished(q) =>
      case Running(q) =>
        TurnPendingIsCompletable(model, cfg, sampler, prompt, model.LogitsAfter(prompt + q.emitted), s.rng, q);
    }
  }

  /** Length of the longest common prefix. */
  method LongestCommonPrefix(a: seq<Token>, b: seq<Token>) returns (n: nat)
    ensures n <= |a| && n <= |b| && a[..n] == b[..n]
    ensures n < |a| && n < |b| ==> a[n] != b[n]
  {
    n := 0;
    while n < |a| && n < |b| && a[n] == b[n]
      invariant n <= |a| && n <= |b| && a[..n] == b[..n]
    {
      n := n + 1;
    }
  }

  /** A sampler that reads the logits without rewriting them, as greedy choice without penalty does. */
  ghost predicate ReadOnly(sampler: Sampler)
  {
    forall logits, rng, recent :: sampler(logits, rng, recent).logits == logits
  }

  /** The logits at the start of the last round of a turn that has processed `seen`. */
  ghost function LastStart<Row, Rec>(model: Model<Row, Rec>, prompt: seq<Token>, start: seq<Float>, seen: seq<Token>): seq<Float>
  {
    if seen == prompt then start else model.LogitsAfter(seen)
  }

  /** The logits are what the sampler left of those it drew from behind `seen`. */
  ghost predicate Drawn(sampler: Sampler, from: seq<Float>, seen: seq<Token>, left: seq<Float>)
  {
    exists rng: nat :: left == sampler(from, rng, RecentTail(seen)).logits
  }

  /** A turn that used up its tokens with room in the cache ended with a forward pass; any other with a draw. */
  predicate EndsForward(cfg: Settings, prompt: seq<Token>, emitted: seq<Token>)
  {
    |emitted| == cfg.maxTokens && |prompt + emitted| <= cfg.cacheLen
  }

  /** What a turn leaves behind: the logits it saves, and the tokens it has processed. */
  ghost predicate Leaves<Row, Rec>(
    model: Model<Row, Rec>, cfg: Settings, sampler: Sampler, prompt: seq<Token>, start: seq<Float>,
    emitted: seq<Token>, seen: seq<Token>, left: seq<Float>)
  {
    if EndsForward(cfg, prompt, emitted) then seen == prompt + emitted && left == model.LogitsAfter(seen)
    else Drawn(sampler, LastStart(model, prompt, start, seen), seen, left)
  }

  /**
   What is left follows the processed tokens after a final forward pass, and also if the sampler
   only reads and either something was processed behind the prompt or the turn started right.
   */
  lemma LeftIsRight<Row, Rec>(
    model: Model<Row, Rec>, cfg: Settings, sampler: Sampler, prompt: seq<Token>, start: seq<Float>,
    emitted: seq<Token>, seen: seq<Token>, left: seq<Float>)
    requires Leaves(model, cfg, sampler, prompt, start, emitted, seen, left)
    requires EndsForward(cfg, prompt, emitted) || (ReadOnly(sampler) && (seen != prompt || start == model.LogitsAfter(prompt)))
    ensures left == model.LogitsAfter(seen)
  {
  }

  /**
   The meaning of a turn in progress: how it ends, and whether its output is clean so far. Kept
   as function values, so that the definitions are unfolded only where a round is looked at.
   */
  datatype Reading = Reading(
    destiny: (seq<Float>, nat, Progress) -> Progress,
    tidy: (Bytes, Bytes) -> bool)
  {
    ghost predicate Faithful<Row(!new), Rec(!new)>(model: Model<Row, Rec>, cfg: Settings, sampler: Sampler, prompt: seq<Token>)
    {
      && (forall logits, rng, p {:trigger TurnFrom(model, cfg, sampler, prompt, logits, rng, p)} ::
            destiny(logits, rng, p) == TurnFrom(model, cfg, sampler, prompt, logits, rng, p))
      && (forall out, held {:trigger Clean(cfg, out, held)} :: tidy(out, held) == Clean(cfg, out, held))
    }
  }

  ghost function ReadingOf<Row(!new), Rec(!new)>(
    model: Model<Row, Rec>, cfg: Settings, sampler: Sampler, prompt: seq<Token>): (reading: Reading)
    ensures reading.Faithful(model, cfg, sampler, prompt) && reading.tidy([], [])
  {
    Reading((logits: seq<Float>, rng: nat, p: Progress) => TurnFrom(model, cfg, sampler, prompt, logits, rng, p),
            (out: Bytes, held: Bytes) => Clean(cfg, out, held))
  }

  lemma TurnGoal<Row(!new), Rec(!new)>(
    model: Model<Row, Rec>, cfg: Settings, sampler: Sampler, prompt: seq<Token>,
    start: seq<Float>, seed: nat, reading: Reading)
    returns (goal: Progress)
    requires reading.Faithful(model, cfg, sampler, prompt)
    ensures goal == TurnFrom(model, cfg, sampler, prompt, start, seed, START) == reading.destiny(start, seed, START)
    ensures goal.pending == [] || IsPartial(goal.pending)
  {
    goal := TurnFrom(model, cfg, sampler, prompt, start, seed, START);
    TurnPendingIsCompletable(model, cfg, sampler, prompt, start, seed, START);
  }

  /** How a round ends that emitted `token`, or stopped, with everything but the token list in `q`. */
  function Outcome(cfg: Settings, context: nat, stopped: bool, q: Progress, token: Token): Round
  {
    var next := q.(emitted := q.emitted + [token]);
    if stopped then Finished(q)
    else if |next.emitted| >= cfg.maxTokens || context >= cfg.cacheLen then Finished(next)
    else Running(next)
  }

  lemma TurnRound<Row(!new), Rec(!new)>(
    model: Model<Row, Rec>, cfg: Settings, sampler: Sampler, prompt: seq<Token>, reading: Reading,
    logits: seq<Float>, rng: nat, p: Progress, q: Progress, stopped: bool, context: seq<Token>)
    requires reading.Faithful(model, cfg, sampler, prompt)
    requires context == prompt + p.emitted && |p.emitted| < cfg.maxTokens && q.emitted == p.emitted
    requires
      var token := sampler(logits, rng, RecentTail(context)).token;
      Choose(cfg, |context|, p, token) == Outcome(cfg, |context|, stopped, q, token)
    ensures
      var s := sampler(logits, rng, RecentTail(context));
      var next := q.(emitted := q.emitted + [s.token]);
      reading.destiny(logits, rng, p)
        == if stopped then q
           else if |q.emitted| + 1 >= cfg.maxTokens || |context| >= cfg.cacheLen then next
           else reading.destiny(model.LogitsAfter(context + [s.token]), s.rng, next)
  {
    var s := sampler(logits, rng, RecentTail(context));
    var next := q.(emitted := q.emitted + [s.token]);
    Associate(prompt, p.emitted, [s.token]);
    assert reading.destiny(logits, rng, p) == TurnFrom(model, cfg, sampler, prompt, logits, rng, p);
    assert TurnFrom(model, cfg, sampler, prompt, model.LogitsAfter(prompt + next.emitted), s.rng, next)
        == reading.destiny(model.LogitsAfter(context + [s.token]), s.rng, next);
  }

  class Session<Row(!new), Rec(!new)> {
    const model: Model<Row, Rec>
    const kvCache: KVCache<Row, Rec>
    var cachedTokens: seq<Token>
    var lastLogits: seq<Float>
    var recent: seq<Token>
    /** How many of the cached tokens have actually been processed. */
    ghost var processed: nat

    constructor (model: Model<Row, Rec>, maxLen: nat, zero: Row)
      requires maxLen > 0
      ensures Valid() && fresh(kvCache) && fresh(kvCache.rows) && kvCache.rows.Length == maxLen
      ensures this.model == model && cachedTokens == [] && lastLogits == []
    {
      this.model := model;
      kvCache := new KVCache<Row, Rec>.Empty(model, maxLen, zero);
      cachedTokens, lastLogits, recent, processed := [], [], [], 0;
    }

    /**
     The cache holds the cached tokens, except that the very last one may have been sampled at
     the cache limit and never processed.
     */
    ghost predicate Valid()
      reads this, kvCache, kvCache.rows
    {
      && kvCache.rows.Length > 0
      && processed <= |cachedTokens|
      && kvCache.Holds(model, cachedTokens[..processed])
      && (processed == |cachedTokens| || |cachedTokens| >= kvCache.rows.Length)
      && processed + 1 >= |cachedTokens|
    }

    /** Forgets the conversation. Rows may stay, but a recurrent state has to be cleared. */
    method Reset()
      requires kvCache.rows.Length > 0 && (kvCache.ssm.Some? <==> model.initial.Some?)
      modifies this, kvCache`ssm
      ensures Valid() && cachedTokens == [] && lastLogits == [] && recent == []
    {
      cachedTokens, lastLogits, recent, processed := [], [], [], 0;
      if kvCache.ssm.Some? {
        kvCache.ssm := model.initial;
      }
      assert kvCache.rows[..0] == [];
    }

    /** The branch that answers a prompt from the logits the previous turn ended with. */
    predicate UsesSavedLogits(prompt: seq<Token>)
      reads this, kvCache, kvCache.rows
    {
      && lastLogits != [] && prompt <= cachedTokens && |prompt| < kvCache.rows.Length
      && (kvCache.ssm.Some? ==> prompt == cachedTokens)
    }

    /**
     Decides how much of the prompt the cache already holds. A recurrent state saw all cached
     tokens, so it serves a prompt that extends them or none at all.
     */
    method Reuse(prompt: seq<Token>) returns (prefix: nat)
      requires Valid() && prompt != [] && |prompt| <= kvCache.rows.Length
      modifies this, kvCache`ssm
      ensures Valid() && prefix <= |prompt| && prompt[..prefix] <= cachedTokens
      ensures kvCache.Holds(model, prompt[..prefix])
      ensures kvCache.ssm.Some? ==> prompt[..prefix] == cachedTokens
      ensures prefix == |prompt| ==> lastLogits == old(lastLogits)
      ensures prefix == |prompt| && lastLogits != [] <==> old(UsesSavedLogits(prompt))
      ensures prefix == |prompt| ==> prompt <= old(cachedTokens) && (kvCache.ssm.Some? ==> prompt == old(cachedTokens))
    {
      if |prompt| >= kvCache.rows.Length {
        Reset();
      }
      prefix := LongestCommonPrefix(prompt, cachedTokens);
      if kvCache.ssm.Some? && prefix != |cachedTokens| {
        Reset();
        prefix := 0;
      }
      assert cachedTokens[..processed][..prefix] == prompt[..prefix];
      HoldsPrefix(kvCache, model, cachedTokens[..processed], prefix);
    }

    /** Brings the cache up to the whole prompt and produces the logits to start from. */
    method Prefill(prompt: seq<Token>, prefix: nat) returns (logits: seq<Float>)
      requires prompt != [] && prefix <= |prompt| <= kvCache.rows.Length
      requires kvCache.Holds(model, prompt[..prefix])
      requires prefix == |prompt| && lastLogits == [] ==> model.initial.None?
      modifies this`lastLogits, kvCache`ssm, kvCache.rows
      ensures kvCache.Holds(model, prompt)
      ensures logits == if prefix == |prompt| && old(lastLogits) != [] then old(lastLogits) else model.LogitsAfter(prompt)
    {
      assert prompt[..|prompt|] == prompt;
      if prefix == |prompt| {
        if lastLogits != [] {
          logits := lastLogits;
          lastLogits := [];
        } else {
          var last := |prompt| - 1;
          HoldsPrefix(kvCache, model, prompt, last);
          assert prompt[..last] + [prompt[last]] == prompt;
          logits := kvCache.Forward(model, prompt[last], last, prompt[..last]);
        }
      } else {
        assert prompt[..prefix] + prompt[prefix..] == prompt;
        logits := kvCache.PrefillPrompt(model, prompt[prefix..], prefix, prompt[..prefix]);
      }
    }

    /** Emits one drawn token. */
    method EmitDrawn(
      cfg: Settings, token: Token, stitcher: Utf8Stitcher, output: Bytes, streamed: seq<Bytes>,
      ghost prompt: seq<Token>, ghost emitted: seq<Token>, ghost sampler: Sampler, ghost reading: Reading)
      returns (stopped: bool, extended: Bytes, pieces: seq<Bytes>)
      requires reading.Faithful(model, cfg, sampler, prompt) && reading.tidy(output, stitcher.pending)
      requires |emitted| < cfg.maxTokens
      modifies stitcher
      ensures
        var p := Progress(emitted, output, old(stitcher.pending), streamed);
        var q := Progress(emitted, extended, stitcher.pending, pieces);
        && Choose(cfg, |cachedTokens|, p, token) == Outcome(cfg, |cachedTokens|, stopped, q, token)
        && (!stopped ==> reading.tidy(extended, stitcher.pending))
    {
      assert Clean(cfg, output, stitcher.pending);
      extended, pieces, stopped := output, streamed, cfg.isStopToken(token);
      if !stopped {
        extended, pieces, stopped := EmitText(cfg, stitcher, output, streamed, token, emitted);
        assert stopped || Clean(cfg, extended, stitcher.pending);
      }
    }

    /** Draws one token and emits it. */
    method DrawAndEmit(
      cfg: Settings, sampler: Sampler, logits: seq<Float>, rng: nat, stitcher: Utf8Stitcher,
      output: Bytes, streamed: seq<Bytes>, ghost prompt: seq<Token>, ghost emitted: seq<Token>,
      ghost reading: Reading)
      returns (s: Sampled, stopped: bool, extended: Bytes, pieces: seq<Bytes>)
      requires reading.Faithful(model, cfg, sampler, prompt) && reading.tidy(output, stitcher.pending)
      requires cachedTokens == prompt + emitted && recent == RecentTail(cachedTokens) && |emitted| < cfg.maxTokens
      modifies stitcher
      ensures s == sampler(logits, rng, recent)
      ensures !stopped ==> reading.tidy(extended, stitcher.pending)
      ensures
        var goal := reading.destiny(logits, rng, Progress(emitted, output, old(stitcher.pending), streamed));
        var next := Progress(emitted + [s.token], extended, stitcher.pending, pieces);
        goal == if stopped then next.(emitted := emitted)
                else if |emitted| + 1 >= cfg.maxTokens || |cachedTokens| >= cfg.cacheLen then next
                else reading.destiny(model.LogitsAfter(cachedTokens + [s.token]), s.rng, next)
    {
      ghost var p := Progress(emitted, output, stitcher.pending, streamed);
      s := sampler(logits, rng, recent);
      stopped, extended, pieces := EmitDrawn(cfg, s.token, stitcher, output, streamed, prompt, emitted, sampler, reading);
      ghost var q := Progress(emitted, extended, stitcher.pending, pieces);
      TurnRound(model, cfg, sampler, prompt, reading, logits, rng, p, q, stopped, cachedTokens);
    }

    /** Everything cached has been processed, and the repetition window is its tail. */
    ghost predicate CaughtUp(pos: nat)
      reads this, kvCache, kvCache.rows
    {
      && processed == |cachedTokens| == pos
      && kvCache.Holds(model, cachedTokens) && recent == RecentTail(cachedTokens)
    }

    /** Records an emitted token and processes it, unless the cache is full. */
    method Absorb(token: Token, pos: nat, logits: seq<Float>) returns (full: bool, next: seq<Float>)
      requires CaughtUp(pos) && pos <= kvCache.rows.Length
      modifies this`cachedTokens, this`recent, this`processed, kvCache`ssm, kvCache.rows
      ensures cachedTokens == old(cachedTokens) + [token]
      ensures full <==> pos + 1 >= kvCache.rows.Length
      ensures full ==>
                && processed == pos && next == logits
                && cachedTokens[..processed] == old(cachedTokens) && kvCache.Holds(model, cachedTokens[..processed])
      ensures !full ==> CaughtUp(pos + 1) && next == model.LogitsAfter(cachedTokens)
    {
      ghost var before := cachedTokens;
      recent := PushRecentToken(recent, token, cachedTokens);
      cachedTokens := cachedTokens + [token];
      assert cachedTokens[..processed] == before;
      full, next := pos + 1 >= kvCache.rows.Length, logits;
      if !full {
        next := kvCache.Forward(model, token, pos, before);
        processed := processed + 1;
      }
    }

    /** One round: draws, emits and processes a token, unless the turn ends on the way. */
    method Round(
      cfg: Settings, sampler: Sampler, logits: seq<Float>, rng: nat, pos: nat, stitcher: Utf8Stitcher,
      output: Bytes, streamed: seq<Bytes>, ghost prompt: seq<Token>, ghost emitted: seq<Token>, ghost reading: Reading)
      returns (ended: bool, left: seq<Float>, rng': nat, extended: Bytes, pieces: seq<Bytes>, ghost more: seq<Token>)
      requires reading.Faithful(model, cfg, sampler, prompt) && reading.tidy(output, stitcher.pending)
      requires cachedTokens == prompt + emitted && |emitted| < cfg.maxTokens
      requires CaughtUp(pos) && pos <= kvCache.rows.Length == cfg.cacheLen + 1
      modifies this`cachedTokens, this`recent, this`processed, kvCache`ssm, kvCache.rows, stitcher
      ensures cachedTokens == prompt + more
      ensures
        var goal := reading.destiny(logits, rng, Progress(emitted, output, old(stitcher.pending), streamed));
        var next := Progress(more, extended, stitcher.pending, pieces);
        goal == if ended || |more| >= cfg.maxTokens then next else reading.destiny(left, rng', next)
      ensures ended ==>
                && Valid() && cachedTokens[..processed] == old(cachedTokens)
                && Drawn(sampler, logits, old(cachedTokens), left)
                && (|more| < cfg.maxTokens || |cachedTokens| > cfg.cacheLen)
      ensures !ended ==>
                && |more| == |emitted| + 1 && CaughtUp(pos + 1) && pos + 1 < kvCache.rows.Length
                && left == model.LogitsAfter(cachedTokens) && reading.tidy(extended, stitcher.pending)
      ensures Sized(model, sampler) && logits != [] ==> left != []
    {
      var s, stopped;
      s, stopped, extended, pieces :=
        DrawAndEmit(cfg, sampler, logits, rng, stitcher, output, streamed, prompt, emitted, reading);
      assert cachedTokens[..processed] == cachedTokens;
      ended, left, rng', more := stopped, s.logits, s.rng, emitted;
      if !stopped {
        Associate(prompt, emitted, [s.token]);
        more := emitted + [s.token];
        ended, left := Absorb(s.token, pos, left);
      }
    }

    /** Samples, emits and processes tokens behind the prompt. */
    method Decode(
      cfg: Settings, sampler: Sampler, seed: nat, prompt: seq<Token>, start: seq<Float>, stitcher: Utf8Stitcher,
      ghost goal: Progress, ghost reading: Reading)
      returns (output: Bytes, streamed: seq<Bytes>, ghost emitted: seq<Token>)
      requires prompt != [] && |prompt| <= kvCache.rows.Length
      requires kvCache.Holds(model, prompt) && cachedTokens == prompt && processed == |prompt|
      requires cfg.cacheLen + 1 == kvCache.rows.Length && cfg.maxTokens > 0
      requires stitcher.pending == [] && reading.Faithful(model, cfg, sampler, prompt)
      requires reading.tidy([], []) && reading.destiny(start, seed, START) == goal
      modifies this, kvCache`ssm, kvCache.rows, stitcher
      ensures Valid() && cachedTokens == prompt + emitted
      ensures goal == Progress(emitted, output, stitcher.pending, streamed)
      ensures Leaves(model, cfg, sampler, prompt, start, emitted, cachedTokens[..processed], lastLogits)
      ensures Sized(model, sampler) && start != [] ==> lastLogits != []
    {
      output, streamed, emitted := [], [], [];
      var logits, rng, pos: nat := start, seed, |prompt|;
      recent := RecentTail(cachedTokens);
      assert prompt + emitted == prompt && prompt[..|prompt|] == prompt;
      for round := 0 to cfg.maxTokens
        invariant |emitted| == round && cachedTokens == prompt + emitted
        invariant CaughtUp(pos) && pos <= kvCache.rows.Length && (round > 0 ==> pos < kvCache.rows.Length)
        invariant reading.tidy(output, stitcher.pending)
        invariant
          var p := Progress(emitted, output, stitcher.pending, streamed);
          goal == if round < cfg.maxTokens then reading.destiny(logits, rng, p) else p
        invariant logits == LastStart(model, prompt, start, cachedTokens)
        invariant Sized(model, sampler) && start != [] ==> logits != []
      {
        var ended;
        ended, logits, rng, output, streamed, emitted :=
          Round(cfg, sampler, logits, rng, pos, stitcher, output, streamed, prompt, emitted, reading);
        if ended {
          lastLogits := logits;
          return;
        }
        pos := pos + 1;
      }
      assert cachedTokens[..processed] == cachedTokens;
      lastLogits := logits;
    }

    /**
     One turn of the conversation. It answers as a cold turn does, whatever the cache held,
     unless it starts from saved logits; then those decide its first token.
     */
    method Turn(cfg: Settings, sampler: Sampler, seed: nat, prompt: seq<Token>)
      returns (text: Bytes, streamed: seq<Bytes>, ghost emitted: seq<Token>)
      requires Valid() && Primed() && Sized(model, sampler)
      requires prompt != [] && |prompt| <= kvCache.rows.Length
      requires cfg.cacheLen + 1 == kvCache.rows.Length && cfg.maxTokens > 0
      modifies this, kvCache`ssm, kvCache.rows
      ensures Valid() && Primed() && cachedTokens == prompt + emitted
      ensures
        var start := if old(UsesSavedLogits(prompt)) then old(lastLogits) else model.LogitsAfter(prompt);
        && Answers(TurnFrom(model, cfg, sampler, prompt, start, seed, START), text, streamed, emitted)
        && Leaves(model, cfg, sampler, prompt, start, emitted, cachedTokens[..processed], lastLogits)
        && (start == model.LogitsAfter(prompt) ==>
              Answers(ColdTurn(model, cfg, sampler, prompt, seed), text, streamed, emitted))
    {
      var prefix := Reuse(prompt);
      var start := Prefill(prompt, prefix);
      cachedTokens, processed := prompt, |prompt|;
      ghost var reading := ReadingOf(model, cfg, sampler, prompt);
      ghost var goal := TurnGoal(model, cfg, sampler, prompt, start, seed, reading);
      text, streamed, emitted := Respond(cfg, sampler, seed, prompt, start, goal, reading);
    }

    /** Decodes behind a processed prompt; a character left half-emitted still surfaces. */
    method Respond(
      cfg: Settings, sampler: Sampler, seed: nat, prompt: seq<Token>, start: seq<Float>,
      ghost goal: Progress, ghost reading: Reading)
      returns (text: Bytes, streamed: seq<Bytes>, ghost emitted: seq<Token>)
      requires prompt != [] && |prompt| <= kvCache.rows.Length
      requires kvCache.Holds(model, prompt) && cachedTokens == prompt && processed == |prompt|
      requires cfg.cacheLen + 1 == kvCache.rows.Length && cfg.maxTokens > 0
      requires reading.Faithful(model, cfg, sampler, prompt) && reading.tidy([], [])
      requires reading.destiny(start, seed, START) == goal
      requires goal.pending == [] || IsPartial(goal.pending)
      modifies this, kvCache`ssm, kvCache.rows
      ensures Valid() && cachedTokens == prompt + emitted && Answers(goal, text, streamed, emitted)
      ensures Leaves(model, cfg, sampler, prompt, start, emitted, cachedTokens[..processed], lastLogits)
      ensures Sized(model, sampler) && start != [] ==> lastLogits != []
    {
      var stitcher := new Utf8Stitcher();
      text, streamed, emitted := Decode(cfg, sampler, seed, prompt, start, stitcher, goal, reading);
      var tail := stitcher.Flush();
      if tail != [] {
        text, streamed := text + tail, streamed + [tail];
      }
    }

    /** The session is in the given state. */
    ghost predicate Knows(before: Before)
      reads this
    {
      cachedTokens == before.cached && (before.exact ==> lastLogits == model.LogitsAfter(cachedTokens))
    }

    /** Once anything is cached there are saved logits. */
    predicate Primed()
      reads this
    {
      cachedTokens != [] ==> lastLogits != []
    }
  }

  /** The vocabulary is not empty, and a sampler works on a slice, whose length it cannot change. */
  ghost predicate Sized<Row(!new), Rec(!new)>(model: Model<Row, Rec>, sampler: Sampler)
  {
    && (forall rows, ssm :: model.logits(rows, ssm) != [])
    && (forall logits, rng, recent :: |sampler(logits, rng, recent).logits| == |logits|)
  }

  /** What a caller receives when a turn ends as `end`: a half-emitted character still surfaces. */
  ghost predicate Answers(end: Progress, text: Bytes, streamed: seq<Bytes>, emitted: seq<Token>)
  {
    emitted == end.emitted && text == FinalText(end) && streamed == FinalPieces(end)
  }

  // ---------- Whole conversations ----------

  /** A turn as it is asked for; every one brings its own options. */
  datatype Request = Request(prompt: seq<Token>, cfg: Settings, sampler: Sampler, seed: nat)

  /** What a session of `len` rows can be asked. */
  ghost predicate Fits<Row(!new), Rec(!new)>(model: Model<Row, Rec>, r: Request, len: nat)
  {
    && r.prompt != [] && |r.prompt| <= len && r.cfg.cacheLen + 1 == len && r.cfg.maxTokens > 0
    && Sized(model, r.sampler)
  }

  /** What is known before a turn: the cached tokens, and whether the saved logits are those that follow them. */
  datatype Before = Before(cached: seq<Token>, exact: bool)

  /** The prompt is not wholly contained in what is cached, or it is all of it and the saved logits are right. */
  predicate Independent(prompt: seq<Token>, before: Before)
  {
    !(prompt <= before.cached) || (before.exact && prompt == before.cached)
  }

  /** What a request, the state before it, the text and the emitted tokens have to do with each other. */
  type Judgement = (Request, Before, Bytes, seq<Token>) -> bool

  /** A turn that is independent of what came before is answered like the first one of a session. */
  ghost predicate AnsweredCold<Row, Rec>(model: Model<Row, Rec>, r: Request, before: Before, text: Bytes, emitted: seq<Token>)
  {
    Independent(r.prompt, before) ==>
      exists streamed :: Answers(ColdTurn(model, r.cfg, r.sampler, r.prompt, r.seed), text, streamed, emitted)
  }

  ghost function AnswersCold<Row, Rec>(model: Model<Row, Rec>): Judgement
  {
    (r, before, text, emitted) => AnsweredCold(model, r, before, text, emitted)
  }

  /** The judgement is the one above, without its definition being in view. */
  ghost predicate Judges<Row, Rec>(right: Judgement, model: Model<Row, Rec>)
  {
    forall r, before, text, emitted {:trigger AnsweredCold(model, r, before, text, emitted)} ::
      right(r, before, text, emitted) == AnsweredCold(model, r, before, text, emitted)
  }

  /**
   What a turn leaves for the next: its prompt and answer, and right logits if it ended with a
   forward pass, or with room in the cache, a sampler that only reads, and no wrong start to pass on.
   */
  ghost function Behind(r: Request, before: Before, emitted: seq<Token>): Before
  {
    Before(r.prompt + emitted,
           || EndsForward(r.cfg, r.prompt, emitted)
           || (|r.prompt + emitted| <= r.cfg.cacheLen && ReadOnly(r.sampler) && (emitted != [] || Independent(r.prompt, before))))
  }

  ghost function BeforeTurn(first: Before, requests: seq<Request>, emissions: seq<seq<Token>>, turn: nat): Before
    requires turn <= |requests| && turn <= |emissions|
  {
    if turn == 0 then first
    else Behind(requests[turn - 1], BeforeTurn(first, requests, emissions, turn - 1), emissions[turn - 1])
  }

  lemma {:induction false} BeforeTurnIsPast(
    first: Before, requests: seq<Request>, emissions: seq<seq<Token>>, more: seq<seq<Token>>, turn: nat)
    requires turn <= |requests| && turn <= |emissions|
    ensures BeforeTurn(first, requests, emissions + more, turn) == BeforeTurn(first, requests, emissions, turn)
    decreases turn
  {
    if turn > 0 {
      BeforeTurnIsPast(first, requests, emissions, more, turn - 1);
    }
  }

  ghost predicate EveryTurn(
    right: Judgement, first: Before, requests: seq<Request>, texts: seq<Bytes>, emissions: seq<seq<Token>>)
  {
    && |texts| == |emissions| <= |requests|
    && forall i :: 0 <= i < |texts| ==> right(requests[i], BeforeTurn(first, requests, emissions, i), texts[i], emissions[i])
  }

  lemma OneMoreTurn(
    right: Judgement, first: Before, requests: seq<Request>, texts: seq<Bytes>, emissions: seq<seq<Token>>,
    text: Bytes, emitted: seq<Token>)
    requires EveryTurn(right, first, requests, texts, emissions) && |texts| < |requests|
    requires right(requests[|texts|], BeforeTurn(first, requests, emissions, |texts|), text, emitted)
    ensures EveryTurn(right, first, requests, texts + [text], emissions + [emitted])
  {
    var texts', emissions' := texts + [text], emissions + [emitted];
    forall i | 0 <= i < |texts'|
      ensures right(requests[i], BeforeTurn(first, requests, emissions', i), texts'[i], emissions'[i])
    {
      BeforeTurnIsPast(first, requests, emissions, [emitted], i);
    }
  }

  /**
   A whole conversation on one session, whose turns may differ in all options. Every turn is
   answered as if the session were new whose prompt is not wholly contained in what the turn
   before left cached, or is all of that while the saved logits are known to follow it.
   */
  method Converse<Row(!new), Rec(!new)>(session: Session<Row, Rec>, requests: seq<Request>)
    returns (texts: seq<Bytes>, ghost emissions: seq<seq<Token>>)
    requires session.Valid() && session.Primed()
    requires forall r :: r in requests ==> Fits(session.model, r, session.kvCache.rows.Length)
    modifies session, session.kvCache`ssm, session.kvCache.rows
    ensures |texts| == |requests|
    ensures EveryTurn(AnswersCold(session.model), Before(old(session.cachedTokens), false), requests, texts, emissions)
  {
    texts, emissions := AnswerAll(session, requests, AnswersCold(session.model));
  }

  method AnswerAll<Row(!new), Rec(!new)>(session: Session<Row, Rec>, requests: seq<Request>, ghost right: Judgement)
    returns (texts: seq<Bytes>, ghost emissions: seq<seq<Token>>)
    requires session.Valid() && session.Primed()
    requires forall r :: r in requests ==> Fits(session.model, r, session.kvCache.rows.Length)
    requires Judges(right, session.model)
    modifies session, session.kvCache`ssm, session.kvCache.rows
    ensures |texts| == |requests|
    ensures EveryTurn(right, Before(old(session.cachedTokens), false), requests, texts, emissions)
  {
    texts, emissions := [], [];
    ghost var first := Before(session.cachedTokens, false);
    for i := 0 to |requests|
      invariant session.Valid() && session.Primed() && |texts| == |emissions| == i
      invariant session.Knows(BeforeTurn(first, requests, emissions, i))
      invariant EveryTurn(right, first, requests, texts, emissions)
    {
      texts, emissions := AnswerNext(session, requests, texts, emissions, first, right);
    }
  }

  method AnswerNext<Row(!new), Rec(!new)>(
    session: Session<Row, Rec>, requests: seq<Request>, texts: seq<Bytes>, ghost emissions: seq<seq<Token>>,
    ghost first: Before, ghost right: Judgement)
    returns (texts': seq<Bytes>, ghost emissions': seq<seq<Token>>)
    requires session.Valid() && session.Primed() && |texts| < |requests|
    requires Fits(session.model, requests[|texts|], session.kvCache.rows.Length) && Judges(right, session.model)
    requires EveryTurn(right, first, requests, texts, emissions)
    requires session.Knows(BeforeTurn(first, requests, emissions, |texts|))
    modifies session, session.kvCache`ssm, session.kvCache.rows
    ensures session.Valid() && session.Primed() && |texts'| == |texts| + 1
    ensures EveryTurn(right, first, requests, texts', emissions')
    ensures session.Knows(BeforeTurn(first, requests, emissions', |texts'|))
  {
    var text;
    ghost var emitted;
    text, emitted := AnswerOnce(session, requests[|texts|], BeforeTurn(first, requests, emissions, |texts|), right);
    OneMoreTurn(right, first, requests, texts, emissions, text, emitted);
    BeforeTurnIsPast(first, requests, emissions, [emitted], |texts|);
    texts', emissions' := texts + [text], emissions + [emitted];
  }

  method AnswerOnce<Row(!new), Rec(!new)>(
    session: Session<Row, Rec>, r: Request, ghost before: Before, ghost right: Judgement)
    returns (text: Bytes, ghost emitted: seq<Token>)
    requires session.Valid() && session.Primed() && session.Knows(before)
    requires Fits(session.model, r, session.kvCache.rows.Length) && Judges(right, session.model)
    modifies session, session.kvCache`ssm, session.kvCache.rows
    ensures session.Valid() && session.Primed() && session.Knows(Behind(r, before, emitted))
    ensures right(r, before, text, emitted)
  {
    var streamed;
    ghost var start :=
      if session.UsesSavedLogits(r.prompt) then session.lastLogits else session.model.LogitsAfter(r.prompt);
    assert Independent(r.prompt, before) ==> start == session.model.LogitsAfter(r.prompt);
    text, streamed, emitted := session.Turn(r.cfg, r.sampler, r.seed, r.prompt);
    assert session.cachedTokens[..|session.cachedTokens|] == session.cachedTokens;
    if Behind(r, before, emitted).exact {
      LeftIsRight(session.model, r.cfg, r.sampler, r.prompt, start, emitted, session.cachedTokens, session.lastLogits);
    }
    assert AnsweredCold(session.model, r, before, text, emitted);
  }
}
