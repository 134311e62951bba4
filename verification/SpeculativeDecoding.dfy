/**
 Greedy speculative decoding: a cheap drafter proposes tokens, the target model verifies them
 in one batch or one by one, rejected work is rolled back. What is emitted never depends on
 the drafter: it is what decoding one token at a time emits.
 */
module SpeculativeDecoding {
  import opened Wrappers
  import opened Sequences
  import opened Utf8
  import opened Utf8Stitching
  import opened Logits
  import opened LanguageModel
  import opened PlainDecoding

  datatype DecodeFlow = Continue | Stop | Fallback

  /** The counters that steer the draft window. */
  datatype Stats = Stats(drafted: nat, accepted: nat, rejected: nat)
  {
    function AcceptRate(): real
    {
      if drafted == 0 then 0.0 else accepted as real / drafted as real
    }
  }

  /**
   The drafter: a separate assistant model with a cache of its own, or the target's embedded
   head, which only guesses the token after the already known next one.
   */
  class Speculation<Row, Rec> {
    const assistant: Option<Model<Row, Rec>>
    const native: bool
    const cache: KVCache<Row, Rec>
    const maxDraftTokens: nat
    const adaptive: bool
    const minAcceptRate: real
    var logits: seq<Float>
    var draftLimit: nat
    var stats: Stats
    var enabled: bool

    constructor (assistant: Option<Model<Row, Rec>>, native: bool, cache: KVCache<Row, Rec>,
                 logits: seq<Float>, maxDraftTokens: nat, adaptive: bool, minAcceptRate: real)
      requires maxDraftTokens > 0 && !(native && assistant.Some?)
      ensures this.assistant == assistant && this.native == native && this.cache == cache
      ensures this.logits == logits && WindowValid() && stats == Stats(0, 0, 0)
    {
      this.assistant, this.native, this.cache, this.logits := assistant, native, cache, logits;
      this.maxDraftTokens := if native then 2 else maxDraftTokens;
      this.adaptive, this.minAcceptRate := adaptive, minAcceptRate;
      draftLimit := if native then 2 else if maxDraftTokens > 2 then 2 else maxDraftTokens;
      stats, enabled := Stats(0, 0, 0), true;
    }

    predicate WindowValid()
      reads this
    {
      1 <= draftLimit <= maxDraftTokens && !(native && assistant.Some?)
    }

    /** Every drafted token has been either accepted or rejected. */
    predicate Settled()
      reads this
    {
      stats.accepted + stats.rejected == stats.drafted
    }

    /**
     An attached assistant has processed exactly the tokens so far, unless they have outgrown
     its cache, after which it is never asked again.
     */
    ghost predicate InStep(tokens: seq<Token>)
      reads this, cache, cache.rows
    {
      assistant.Some? && |tokens| < cache.rows.Length ==>
        cache.Holds(assistant.value, tokens) && logits == assistant.value.LogitsAfter(tokens)
    }

    /** Counts one verdict; a rejection also discards the rest of the draft. */
    method Tally(agrees: bool, idx: nat, drafted: nat, accepted: nat) returns (total: nat)
      requires idx < drafted && accepted == Guesses(this, idx)
      modifies this`stats
      ensures total == if agrees then Guesses(this, idx + 1) else accepted
      ensures stats == if agrees
                       then old(stats).(accepted := old(stats).accepted + total - accepted)
                       else old(stats).(rejected := old(stats).rejected + Guesses(this, drafted) - accepted)
    {
      total := accepted;
      if agrees {
        if !native || idx > 0 {
          stats := stats.(accepted := stats.accepted + 1);
          total := total + 1;
        }
      } else {
        var rejected := if native then drafted - (if idx > 1 then idx else 1) else drafted - idx;
        stats := stats.(rejected := stats.rejected + rejected);
      }
    }

    /**
     Brings the assistant to the target's position after a rejection: its own drafting has left
     it in a state that saw `written`, of which only `kept` was confirmed before `token`.
     */
    method CatchUp(kept: seq<Token>, token: Token, start: nat, snapshot: Option<Rec>,
                   ghost before: seq<Token>, ghost written: seq<Token>)
      requires start == |before| && kept <= written
      requires assistant.Some? ==>
                 && start + |kept| < cache.rows.Length
                 && cache.RowsHold(assistant.value, before + written)
                 && (cache.ssm.Some? <==> assistant.value.initial.Some?)
                 && snapshot == assistant.value.After(before).ssm
      modifies this`logits, cache`ssm, cache.rows
      ensures InStep(before + kept + [token])
    {
      if assistant.Some? {
        cache.Rewind(assistant.value, kept, start, snapshot, before, written);
        logits := cache.Forward(assistant.value, token, start + |kept|, before + kept);
      }
    }

    /** The last drafted token was never processed by the assistant; do so once it is confirmed. */
    method Follow(token: Token, pos: nat, ghost before: seq<Token>)
      requires pos == |before|
      requires assistant.Some? && pos < cache.rows.Length ==> cache.Holds(assistant.value, before)
      modifies this`logits, cache`ssm, cache.rows
      ensures InStep(before + [token])
    {
      if assistant.Some? && pos < cache.rows.Length {
        logits := cache.Forward(assistant.value, token, pos, before);
      }
    }

    method FollowLast(draft: seq<Token>, start: nat, ghost base: seq<Token>)
      requires draft != [] && start == |base|
      requires assistant.Some? ==> cache.Holds(assistant.value, base + draft[..|draft| - 1])
      modifies this`logits, cache`ssm, cache.rows
      ensures InStep(base + draft)
    {
      var last := |draft| - 1;
      assert base + draft[..last] + [draft[last]] == base + draft;
      Follow(draft[last], start + last, base + draft[..last]);
    }

    /**
     Adapts the window after a batch, or gives up on drafting. Timing enters only as the
     unpredictable verdict `tooSlow`.
     */
    method Adapt(acceptedInBatch: nat, draftedInBatch: nat, tooSlow: bool)
      requires WindowValid() && enabled
      modifies this`draftLimit, this`enabled
      ensures WindowValid()
      ensures !enabled || !adaptive || native ==> draftLimit == old(draftLimit)
      ensures enabled && adaptive && !native ==>
                draftLimit == if acceptedInBatch == draftedInBatch
                              then (if old(draftLimit) < maxDraftTokens then old(draftLimit) + 1 else maxDraftTokens)
                              else (if old(draftLimit) > 1 then old(draftLimit) - 1 else 1)
      ensures enabled <==> !tooSlow
                           && !(native && stats.drafted >= 4 && stats.accepted == 0)
                           && !(stats.drafted >= (if native then 4 else 16) && stats.AcceptRate() < minAcceptRate)
    {
      var noNativeSignal := native && stats.drafted >= 4 && stats.accepted == 0;
      var lowAcceptance := stats.drafted >= (if native then 4 else 16) && stats.AcceptRate() < minAcceptRate;
      if noNativeSignal || lowAcceptance || tooSlow {
        enabled := false;
      } else if adaptive && !native {
        if acceptedInBatch == draftedInBatch {
          draftLimit := if draftLimit + 1 < maxDraftTokens then draftLimit + 1 else maxDraftTokens;
        } else {
          draftLimit := if draftLimit > 2 then draftLimit - 1 else 1;
        }
      }
    }
  }

  /** The state of one generation: what has been emitted, and the target's cache and logits. */
  class Decoder<Row, Rec> {
    const model: Model<Row, Rec>
    const cfg: Settings
    ghost const prompt: seq<Token>
    ghost const destiny: Progress -> Progress
    ghost const tidy: (Bytes, Bytes) -> bool
    const cache: KVCache<Row, Rec>
    const stitcher: Utf8Stitcher
    var logits: seq<Float>
    var output: Bytes
    var streamed: seq<Bytes>
    var generated: nat
    var pos: nat
    ghost var emitted: seq<Token>
    /** Prompt and emitted tokens. */
    ghost var context: seq<Token>

    constructor (model: Model<Row, Rec>, cfg: Settings, prompt: seq<Token>, cache: KVCache<Row, Rec>,
                 logits: seq<Float>)
      requires prompt != [] && |prompt| <= cfg.cacheLen && cfg.maxTokens > 0
      requires cache.Holds(model, prompt) && cache.rows.Length == cfg.cacheLen
      requires logits == model.LogitsAfter(prompt)
      ensures this.model == model && this.cfg == cfg && this.prompt == prompt && this.cache == cache
      ensures fresh(stitcher) && Ready() && Current() == START && context == prompt
      ensures Destined(Plain(model, cfg, prompt))
    {
      this.model, this.cfg, this.prompt, this.cache, this.logits := model, cfg, prompt, cache, logits;
      destiny, tidy := p => PlainRun(model, cfg, prompt, p), (out, held) => Clean(cfg, out, held);
      stitcher := new Utf8Stitcher();
      output, streamed, generated, pos, emitted, context := [], [], 0, |prompt|, [], prompt;
    }

    ghost function Current(): Progress
      reads this, stitcher
    {
      Progress(emitted, output, stitcher.pending, streamed)
    }

    /** Going on one token at a time, this generation ends as `goal`. */
    ghost predicate Destined(goal: Progress)
      reads this, stitcher
    {
      destiny(Current()) == goal
    }

    /**
     `destiny` is plain decoding and `tidy` is cleanliness. Both are kept as function values, so
     that their definitions are unfolded only where a round of decoding is looked at.
     */
    ghost predicate Faithful()
    {
      && (forall p {:trigger PlainRun(model, cfg, prompt, p)} :: destiny(p) == PlainRun(model, cfg, prompt, p))
      && (forall out, held {:trigger Clean(cfg, out, held)} :: tidy(out, held) == Clean(cfg, out, held))
    }

    /** The counters agree with what has been emitted, and the output is free of stop strings. */
    ghost predicate Counted()
      reads this, stitcher
    {
      && Faithful() && generated == |emitted| < cfg.maxTokens
      && context == prompt + emitted && pos == |context| <= cfg.cacheLen
      && tidy(output, stitcher.pending)
    }

    /** Cache, recurrent state and logits are exactly those of prompt plus emitted tokens. */
    ghost predicate Ready()
      reads this, stitcher, cache, cache.rows
    {
      && Counted()
      && cache.rows.Length == cfg.cacheLen
      && cache.Holds(model, context)
      && logits == model.LogitsAfter(context)
    }

    /** Appends a token's text; tells whether a stop string ended the output. */
    method EmitTokenText(token: Token) returns (stopped: bool)
      requires Faithful() && tidy(output, stitcher.pending)
      modifies this`output, this`streamed, stitcher
      ensures Emit(cfg, old(Current()), token) == (Current(), stopped)
      ensures !stopped ==> tidy(output, stitcher.pending)
    {
      assert Clean(cfg, output, stitcher.pending);
      output, streamed, stopped := EmitText(cfg, stitcher, output, streamed, token, emitted);
    }

    /**
     Emits one chosen token: stop token, text, stop strings, then the length limits. The
     position is advanced by the caller, once the token has been processed.
     */
    method TakeToken(token: Token) returns (stop: bool)
      requires Counted()
      modifies this`output, this`streamed, this`generated, this`emitted, this`context, stitcher
      ensures Choose(cfg, pos, old(Current()), token) == if stop then Finished(Current()) else Running(Current())
      ensures !stop ==>
                && emitted == old(emitted) + [token] && context == old(context) + [token] && generated == |emitted| < cfg.maxTokens
                && pos < cfg.cacheLen
                && tidy(output, stitcher.pending)
    {
      if cfg.isStopToken(token) {
        return true;
      }
      var stopped := EmitTokenText(token);
      if stopped {
        return true;
      }
      Associate(prompt, emitted, [token]);
      emitted, context := emitted + [token], context + [token];
      generated := generated + 1;
      stop := generated >= cfg.maxTokens || pos >= cfg.cacheLen;
    }

    /** The token about to be emitted follows everything emitted so far. */
    ghost predicate Counting()
      reads this, stitcher
    {
      && Faithful() && generated == |emitted| < cfg.maxTokens
      && context == prompt + emitted && pos + 1 == |context| <= cfg.cacheLen
      && tidy(output, stitcher.pending)
    }

    /** Takes the token greedy decoding takes next. */
    method TakeNext(token: Token, ghost goal: Progress) returns (stop: bool)
      requires Counted() && Destined(goal) && token == Argmax(model.LogitsAfter(context))
      modifies this`output, this`streamed, this`generated, this`emitted, this`context, stitcher
      ensures stop ==> Current() == goal
      ensures !stop ==> emitted == old(emitted) + [token] && context == old(context) + [token] && Counting() && Destined(goal)
    {
      ghost var before := Current();
      stop := TakeToken(token);
      assert PlainRun(model, cfg, prompt, before) == if stop then Current() else PlainRun(model, cfg, prompt, Current());
    }

    /** Has the target process the token just emitted. */
    method Process(token: Token, ghost before: seq<Token>)
      requires Counting() && context == before + [token]
      requires cache.rows.Length == cfg.cacheLen && cache.Holds(model, before)
      modifies this`logits, this`pos, cache`ssm, cache.rows
      ensures Ready()
    {
      var next := cache.Forward(model, token, pos, before);
      logits, pos := next, pos + 1;
    }

    /** Proposes up to `limit` tokens. */
    method Draft<ARow, ARec>(spec: Speculation<ARow, ARec>, limit: nat) returns (draft: seq<Token>)
      requires Ready() && limit > 0
      requires spec.WindowValid() && spec.InStep(context)
      requires spec.assistant.Some? ==> pos + limit <= spec.cache.rows.Length
      requires Apart(spec)
      modifies spec`logits, spec.cache`ssm, spec.cache.rows
      ensures |draft| <= limit
      ensures spec.native ==> draft != [] && draft[0] == Argmax(logits)
      ensures spec.assistant.Some? ==>
                draft != [] && spec.cache.Holds(spec.assistant.value, context + draft[..|draft| - 1])
    {
      draft := [];
      if spec.native {
        var first := ArgmaxFiniteToken(logits);
        draft := [first];
        if limit > 1 && !cfg.isStopToken(first) {
          // The embedded head reads hidden activations; nothing is assumed about its guess.
          var guess: Token := *;
          draft := draft + [guess];
        }
      } else if spec.assistant.Some? {
        ghost var before := context;
        assert before + [] == before;
        for i := 0 to limit
          invariant |draft| == i < limit
          invariant spec.cache.Holds(spec.assistant.value, before + draft)
        {
          var token := ArgmaxFiniteToken(spec.logits);
          ghost var seen := draft;
          draft := draft + [token];
          assert draft[..i] == seen;
          if cfg.isStopToken(token) || i + 1 == limit {
            break;
          }
          spec.logits := spec.cache.Forward(spec.assistant.value, token, pos + i, before + seen);
          assert before + seen + [token] == before + draft;
        }
      }
    }

    /** Target and drafter share no storage. */
    ghost predicate Apart<ARow, ARec>(spec: Speculation<ARow, ARec>)
    {
      var own: set<object> := {cache, cache.rows};
      var other: set<object> := {spec.cache, spec.cache.rows};
      own !! other
    }

    /** What drafting leaves behind: an assistant that has seen all but the last drafted token. */
    ghost predicate Drafted<ARow, ARec>(
      spec: Speculation<ARow, ARec>, base: seq<Token>, draft: seq<Token>, snapshot: Option<ARec>)
      reads spec.cache, spec.cache.rows
    {
      && draft != []
      && (spec.assistant.Some? ==>
            && |base| + |draft| <= spec.cache.rows.Length
            && spec.cache.Holds(spec.assistant.value, base + draft[..|draft| - 1])
            && snapshot == spec.assistant.value.After(base).ssm)
    }

    /**
     Rolls back after the token at `idx` of a batch was rejected and `token` emitted instead.
     The target has seen the whole draft, the assistant all of it but the last token.
     */
    method Recover<ARow, ARec>(
      spec: Speculation<ARow, ARec>, ghost base: seq<Token>, start: nat, draft: seq<Token>, idx: nat, token: Token,
      targetSnapshot: Option<Rec>, assistantSnapshot: Option<ARec>)
      requires idx < |draft| && start == |base| && start + |draft| <= cache.rows.Length
      requires Apart(spec) && Drafted(spec, base, draft, assistantSnapshot)
      requires cache.Holds(model, base + draft) && targetSnapshot == model.After(base).ssm
      modifies this`logits, cache`ssm, cache.rows
      modifies spec`logits, spec.cache`ssm, spec.cache.rows
      ensures cache.Holds(model, base + draft[..idx] + [token])
      ensures logits == model.LogitsAfter(base + draft[..idx] + [token])
      ensures spec.InStep(base + draft[..idx] + [token])
    {
      cache.Rewind(model, draft[..idx], start, targetSnapshot, base, draft);
      logits := cache.Forward(model, token, start + idx, base + draft[..idx]);
      spec.CatchUp(draft[..idx], token, start, assistantSnapshot, base, draft[..|draft| - 1]);
    }

    /** `idx` tokens of the draft have been emitted on top of `base`. */
    ghost predicate Within(base: seq<Token>, draft: seq<Token>, idx: nat)
      requires idx <= |draft|
      reads this, stitcher
    {
      context == base + draft[..idx] && pos == |base| + idx && Counted()
    }

    /**
     Judges one drafted token against the logits of its place and emits the target's own
     choice, which is the drafted token if the two agree.
     */
    method Judge<ARow, ARec>(
      spec: Speculation<ARow, ARec>, draft: seq<Token>, idx: nat, row: seq<Float>, acceptedSoFar: nat,
      ghost base: seq<Token>, ghost goal: Progress)
      returns (verdict: Verdict, token: Token, accepted: nat)
      requires idx < |draft| && Within(base, draft, idx) && Destined(goal)
      requires row == model.LogitsAfter(base + draft[..idx]) && acceptedSoFar == Guesses(spec, idx)
      modifies this`output, this`streamed, this`generated, this`emitted, this`context, stitcher
      modifies spec`stats
      ensures verdict.Stopped? ==> Current() == goal
      ensures !verdict.Stopped? ==>
                && context == base + draft[..idx] + [token]
                && Counting() && Destined(goal)
      ensures verdict.Accepted? ==>
                && token == draft[idx] && accepted == Guesses(spec, idx + 1)
                && spec.stats == old(spec.stats).(accepted := old(spec.stats).accepted + accepted - acceptedSoFar)
      ensures verdict.Rejected? ==>
                && accepted == acceptedSoFar
                && spec.stats == old(spec.stats).(rejected := old(spec.stats).rejected + Guesses(spec, |draft|) - accepted)
    {
      token := ArgmaxFiniteToken(row);
      var agrees := token == draft[idx];
      accepted := spec.Tally(agrees, idx, |draft|, acceptedSoFar);
      var stop := TakeNext(token, goal);
      verdict := if stop then Stopped else if agrees then Accepted else Rejected;
    }

    /** What a judged batch has done to the counters. */
    twostate predicate Tallied<ARow, ARec>(spec: Speculation<ARow, ARec>, drafted: nat, accepted: nat)
      reads spec
    {
      && accepted <= Guesses(spec, drafted)
      && spec.stats == Stats(old(spec.stats).drafted, old(spec.stats).accepted + accepted,
                             old(spec.stats).rejected + Guesses(spec, drafted) - accepted)
    }

    /**
     Emits the longest correct prefix of a verified batch, followed by the target's own token
     if the draft goes wrong. Entry `i` of `after` follows the first `i + 1` drafted tokens.
     */
    method AcceptPrefix<ARow, ARec>(
      spec: Speculation<ARow, ARec>, draft: seq<Token>, after: seq<seq<Float>>,
      ghost base: seq<Token>, ghost goal: Progress)
      returns (stopped: bool, accepted: nat, idx: nat, replacement: Option<Token>)
      requires Within(base, draft, 0) && Destined(goal) && draft != []
      requires logits == model.LogitsAfter(base) && |after| == |draft|
      requires forall i :: 0 <= i < |draft| ==> after[i] == model.LogitsAfter(base + draft[..i + 1])
      modifies this`output, this`streamed, this`generated, this`emitted, this`context, this`pos, stitcher
      modifies spec`stats
      ensures stopped ==> Current() == goal
      ensures !stopped ==> Destined(goal) && Tallied(spec, |draft|, accepted)
      ensures !stopped ==> (if replacement.Some? then idx < |draft| else idx == |draft|) && Counted() && context == Seen(base, draft, idx, replacement)
    {
      accepted, replacement, idx := 0, None, 0;
      while idx < |draft|
        invariant idx <= |draft| && Within(base, draft, idx) && Destined(goal)
        invariant accepted == Guesses(spec, idx)
        invariant spec.stats == old(spec.stats).(accepted := old(spec.stats).accepted + accepted)
      {
        assert base + draft[..0] == base;
        var row := if idx == 0 then logits else after[idx - 1];
        var verdict, token;
        verdict, token, accepted := Judge(spec, draft, idx, row, accepted, base, goal);
        if verdict.Stopped? {
          return true, accepted, idx, None;
        }
        pos := pos + 1;
        if verdict.Rejected? {
          return false, accepted, idx, Some(token);
        }
        OneMore(base, draft, idx);
        idx := idx + 1;
      }
      stopped := false;
    }

    /** Has the target process a whole draft at once and emits what agrees with it. */
    method AcceptBatch<ARow, ARec>(spec: Speculation<ARow, ARec>, draft: seq<Token>, ghost base: seq<Token>, ghost goal: Progress)
      returns (stopped: bool, accepted: nat, idx: nat, replacement: Option<Token>, last: seq<Float>)
      requires Ready() && base == context && Destined(goal) && draft != [] && pos + |draft| <= cfg.cacheLen
      modifies this`output, this`streamed, this`generated, this`emitted, this`context, this`pos, stitcher
      modifies cache`ssm, cache.rows, spec`stats
      ensures stopped ==> Current() == goal
      ensures !stopped ==>
                && Destined(goal) && Tallied(spec, |draft|, accepted)
                && (if replacement.Some? then idx < |draft| else idx == |draft|)
                && Counted() && context == Seen(base, draft, idx, replacement)
                && cache.Holds(model, base + draft) && last == model.LogitsAfter(base + draft)
    {
      assert base + draft[..0] == base && draft[..|draft|] == draft;
      var after := cache.VerifyBatch(model, draft, pos, base);
      last := after[|draft| - 1];
      stopped, accepted, idx, replacement := AcceptPrefix(spec, draft, after, base, goal);
    }

    /** Verifies a draft in one batch, then rolls back to what was emitted. */
    method VerifyBatched<ARow, ARec>(
      spec: Speculation<ARow, ARec>, draft: seq<Token>,
      targetSnapshot: Option<Rec>, assistantSnapshot: Option<ARec>, ghost goal: Progress)
      returns (stopped: bool, accepted: nat)
      requires Ready() && Destined(goal) && Apart(spec) && pos + |draft| <= cfg.cacheLen
      requires Drafted(spec, context, draft, assistantSnapshot)
      requires targetSnapshot == cache.ssm
      modifies this, stitcher, cache`ssm, cache.rows
      modifies spec`stats, spec`logits, spec.cache`ssm, spec.cache.rows
      ensures stopped ==> Current() == goal
      ensures !stopped ==>
                && Ready() && Destined(goal) && spec.InStep(context) && |context| > old(|context|)
                && Tallied(spec, |draft|, accepted)
    {
      ghost var base := context;
      var start := pos;
      var idx, replacement, last;
      stopped, accepted, idx, replacement, last := AcceptBatch(spec, draft, base, goal);
      if !stopped {
        RollBack(spec, base, start, draft, last, idx, replacement, targetSnapshot, assistantSnapshot);
      }
    }

    /** Brings both models to what was emitted: all of the draft, or a part and the target's own token. */
    method RollBack<ARow, ARec>(
      spec: Speculation<ARow, ARec>, ghost base: seq<Token>, start: nat, draft: seq<Token>, last: seq<Float>,
      idx: nat, replacement: Option<Token>, targetSnapshot: Option<Rec>, assistantSnapshot: Option<ARec>)
      requires start == |base| && start + |draft| <= cache.rows.Length
      requires Apart(spec) && Drafted(spec, base, draft, assistantSnapshot)
      requires cache.Holds(model, base + draft) && targetSnapshot == model.After(base).ssm
      requires last == model.LogitsAfter(base + draft) && if replacement.Some? then idx < |draft| else idx == |draft|
      modifies this`logits, cache`ssm, cache.rows
      modifies spec`logits, spec.cache`ssm, spec.cache.rows
      ensures
        var seen := Seen(base, draft, idx, replacement);
        cache.Holds(model, seen) && logits == model.LogitsAfter(seen) && spec.InStep(seen)
    {
      if replacement.Some? {
        Recover(spec, base, start, draft, idx, replacement.value, targetSnapshot, assistantSnapshot);
      } else {
        assert Seen(base, draft, idx, replacement) == base + draft;
        logits := last;
        spec.FollowLast(draft, start, base);
      }
    }

    /** Judges one drafted token and has the target process the one emitted. */
    method JudgeAndProcess<ARow, ARec>(
      spec: Speculation<ARow, ARec>, draft: seq<Token>, idx: nat, acceptedSoFar: nat,
      ghost base: seq<Token>, ghost goal: Progress)
      returns (verdict: Verdict, token: Token, accepted: nat)
      requires idx < |draft| && context == base + draft[..idx] && Ready() && Destined(goal)
      requires acceptedSoFar == Guesses(spec, idx)
      modifies this`logits, this`output, this`streamed, this`generated, this`emitted, this`context, this`pos, stitcher
      modifies cache`ssm, cache.rows, spec`stats
      ensures verdict.Stopped? ==> Current() == goal
      ensures !verdict.Stopped? ==> Ready() && Destined(goal)
      ensures verdict.Accepted? ==>
                && context == base + draft[..idx + 1] && accepted == Guesses(spec, idx + 1)
                && spec.stats == old(spec.stats).(accepted := old(spec.stats).accepted + accepted - acceptedSoFar)
      ensures verdict.Rejected? ==>
                && context == base + draft[..idx] + [token] && accepted == acceptedSoFar
                && spec.stats == old(spec.stats).(rejected := old(spec.stats).rejected + Guesses(spec, |draft|) - accepted)
    {
      ghost var before := context;
      verdict, token, accepted := Judge(spec, draft, idx, logits, acceptedSoFar, base, goal);
      if !verdict.Stopped? {
        Process(token, before);
        OneMore(base, draft, idx);
      }
    }

    /**
     Without a batched verifier the target processes each emitted token at once, so it never
     runs ahead and has nothing to roll back.
     */
    method AcceptOneByOne<ARow, ARec>(
      spec: Speculation<ARow, ARec>, draft: seq<Token>, ghost base: seq<Token>, ghost goal: Progress)
      returns (stopped: bool, accepted: nat, idx: nat, replacement: Option<Token>)
      requires Ready() && base == context && Destined(goal) && draft != []
      modifies this`logits, this`output, this`streamed, this`generated, this`emitted, this`context, this`pos, stitcher
      modifies cache`ssm, cache.rows, spec`stats
      ensures stopped ==> Current() == goal
      ensures !stopped ==> Ready() && Destined(goal) && Tallied(spec, |draft|, accepted)
      ensures !stopped ==> (if replacement.Some? then idx < |draft| else idx == |draft|)
                           && context == Seen(base, draft, idx, replacement)
    {
      accepted, replacement, idx := 0, None, 0;
      assert base + draft[..0] == base;
      while idx < |draft|
        invariant idx <= |draft| && context == base + draft[..idx] && Ready() && Destined(goal)
        invariant accepted == Guesses(spec, idx)
        invariant spec.stats == old(spec.stats).(accepted := old(spec.stats).accepted + accepted)
      {
        var verdict, token;
        verdict, token, accepted := JudgeAndProcess(spec, draft, idx, accepted, base, goal);
        if verdict.Stopped? {
          return true, accepted, idx, None;
        }
        if verdict.Rejected? {
          return false, accepted, idx, Some(token);
        }
        idx := idx + 1;
      }
      assert draft[..|draft|] == draft;
      stopped := false;
    }

    /** Verifies a draft token by token. */
    method VerifySequentially<ARow, ARec>(
      spec: Speculation<ARow, ARec>, draft: seq<Token>, assistantSnapshot: Option<ARec>, ghost goal: Progress)
      returns (stopped: bool, accepted: nat)
      requires Ready() && Destined(goal) && Apart(spec)
      requires Drafted(spec, context, draft, assistantSnapshot)
      modifies this, stitcher, cache`ssm, cache.rows
      modifies spec`stats, spec`logits, spec.cache`ssm, spec.cache.rows
      ensures stopped ==> Current() == goal
      ensures !stopped ==>
                && Ready() && Destined(goal) && spec.InStep(context) && |context| > old(|context|)
                && Tallied(spec, |draft|, accepted)
    {
      ghost var base := context;
      var start := pos;
      var idx, replacement;
      stopped, accepted, idx, replacement := AcceptOneByOne(spec, draft, base, goal);
      if !stopped {
        if replacement.Some? {
          spec.CatchUp(draft[..idx], replacement.value, start, assistantSnapshot, base, draft[..|draft| - 1]);
        } else {
          assert Seen(base, draft, idx, replacement) == base + draft;
          spec.FollowLast(draft, start, base);
        }
      }
    }

    /** One round of drafting, verification and window adaptation. */
    method VerifyBatch<ARow, ARec>(spec: Speculation<ARow, ARec>, ghost goal: Progress) returns (flow: DecodeFlow)
      requires Ready() && Destined(goal) && pos < cfg.cacheLen
      requires Apart(spec) && spec.InStep(context) && spec.WindowValid() && spec.Settled() && spec.enabled
      modifies this, stitcher, cache`ssm, cache.rows
      modifies spec`stats, spec`logits, spec`draftLimit, spec`enabled, spec.cache`ssm, spec.cache.rows
      ensures flow.Stop? ==> Current() == goal
      ensures !flow.Stop? ==> Ready() && Destined(goal) && spec.WindowValid() && spec.Settled()
      ensures flow.Continue? ==> spec.InStep(context) && |context| > old(|context|)
      ensures flow.Fallback? ==>
                && context == old(context) && spec.enabled
                && (spec.assistant.Some? ==> spec.cache.rows.Length <= |context|)
    {
      var limit := Min(Min(spec.draftLimit, cfg.maxTokens - generated),
                       Min(cfg.cacheLen - pos, if pos < spec.cache.rows.Length then spec.cache.rows.Length - pos else 0));
      if limit == 0 || (spec.native && limit < 2) {
        return Fallback;
      }
      var assistantSnapshot := spec.cache.ssm;
      var draft := Draft(spec, limit);
      var predicted := Guesses(spec, |draft|);
      spec.stats := spec.stats.(drafted := spec.stats.drafted + predicted);
      if draft == [] || (spec.native && predicted == 0) {
        return Fallback;
      }
      flow := Verify(spec, draft, predicted, assistantSnapshot, goal);
    }

    /** Verifies a draft by whichever verifier there is, and adapts the window. */
    method Verify<ARow, ARec>(
      spec: Speculation<ARow, ARec>, draft: seq<Token>, predicted: nat, assistantSnapshot: Option<ARec>,
      ghost goal: Progress)
      returns (flow: DecodeFlow)
      requires Ready() && Destined(goal) && pos + |draft| <= cfg.cacheLen
      requires Apart(spec) && Drafted(spec, context, draft, assistantSnapshot)
      requires spec.WindowValid() && spec.enabled && predicted == Guesses(spec, |draft|)
      requires spec.stats.accepted + spec.stats.rejected + predicted == spec.stats.drafted
      modifies this, stitcher, cache`ssm, cache.rows
      modifies spec`stats, spec`logits, spec`draftLimit, spec`enabled, spec.cache`ssm, spec.cache.rows
      ensures flow.Stop? || flow.Continue?
      ensures flow.Stop? ==> Current() == goal
      ensures flow.Continue? ==>
                && Ready() && Destined(goal) && spec.WindowValid() && spec.Settled()
                && spec.InStep(context) && |context| > old(|context|)
    {
      var targetSnapshot := cache.ssm;
      // Whether the model family and backend offer a batched verifier, and the verdict of the
      // timing statistics, are not predictable from the state.
      var batched: bool, tooSlow: bool := *, *;
      var stopped, accepted;
      if batched {
        stopped, accepted := VerifyBatched(spec, draft, targetSnapshot, assistantSnapshot, goal);
      } else {
        stopped, accepted := VerifySequentially(spec, draft, assistantSnapshot, goal);
      }
      if stopped {
        return Stop;
      }
      spec.Adapt(accepted, predicted, tooSlow);
      flow := Continue;
    }

    /** One round of ordinary decoding. */
    method PlainStep(ghost goal: Progress) returns (stop: bool)
      requires Ready() && Destined(goal)
      modifies this`logits, this`output, this`streamed, this`generated, this`emitted, this`context, this`pos, stitcher
      modifies cache`ssm, cache.rows
      ensures stop ==> Current() == goal
      ensures !stop ==> Ready() && Destined(goal) && |context| == old(|context|) + 1
    {
      ghost var before := context;
      var token := SamplerArgmax(logits);
      stop := TakeNext(token, goal);
      if !stop {
        Process(token, before);
      }
    }

    /** The decode loop, with an optional drafter that may give up at any time. */
    method Run<ARow, ARec>(spec: Speculation?<ARow, ARec>, ghost goal: Progress)
      requires Ready() && Destined(goal)
      requires spec != null ==> Apart(spec) && spec.InStep(context) && spec.WindowValid() && spec.Settled()
      modifies this, stitcher, cache`ssm, cache.rows
      modifies if spec == null then {} else {spec, spec.cache, spec.cache.rows}
      ensures Current() == goal
    {
      while true
        invariant Ready() && Destined(goal)
        invariant spec != null ==> spec.WindowValid() && spec.Settled() && (spec.enabled ==> spec.InStep(context))
        decreases cfg.maxTokens - generated
      {
        if spec != null && spec.enabled && pos < cfg.cacheLen {
          var flow := VerifyBatch(spec, goal);
          if flow.Stop? {
            return;
          }
          if flow.Continue? {
            continue;
          }
        }
        var stop := PlainStep(goal);
        if stop {
          return;
        }
      }
    }
  }

  /** What has been emitted once a draft was judged: `idx` of its tokens, and perhaps another one. */
  function Seen(base: seq<Token>, draft: seq<Token>, idx: nat, replacement: Option<Token>): (seen: seq<Token>)
    requires idx <= |draft|
    ensures |seen| > |base| || (idx == 0 && replacement.None?)
  {
    base + draft[..idx] + if replacement.Some? then [replacement.value] else []
  }

  datatype Verdict = Accepted | Rejected | Stopped

  function Min(a: nat, b: nat): nat
  {
    if a <= b then a else b
  }

  lemma OneMore(base: seq<Token>, draft: seq<Token>, idx: nat)
    requires idx < |draft|
    ensures base + draft[..idx] + [draft[idx]] == base + draft[..idx + 1]
  {
  }

  /** Number of drafted tokens that were guesses: an embedded head knows the first one. */
  function Guesses<Row, Rec>(spec: Speculation<Row, Rec>, drafted: nat): nat
  {
    if spec.native && drafted > 0 then drafted - 1 else drafted
  }

  /** The drafters a generation can be given. */
  datatype Drafter<!Row, !Rec> =
    | NoDrafter
    | Embedded(zero: Row, minAcceptRate: real)
    | Assistant(model: Model<Row, Rec>, zero: Row, cacheLen: nat, maxDraftTokens: nat, adaptive: bool, minAcceptRate: real)

  /** Sets up the drafter; an assistant first processes the prompt, if its own context has room. */
  method Prepare<Row, Rec>(drafter: Drafter<Row, Rec>, prompt: seq<Token>, targetLen: nat)
    returns (spec: Speculation?<Row, Rec>)
    requires prompt != []
    ensures spec != null ==>
              && fresh(spec) && fresh(spec.cache) && fresh(spec.cache.rows)
              && spec.InStep(prompt) && spec.WindowValid() && spec.Settled()
  {
    spec := null;
    if drafter.Embedded? {
      var cache := new KVCache<Row, Rec>.Blank(targetLen, drafter.zero);
      spec := new Speculation<Row, Rec>(None, true, cache, [], 2, false, drafter.minAcceptRate);
    } else if drafter.Assistant? {
      var len := Min(targetLen, drafter.cacheLen);
      if drafter.maxDraftTokens > 0 && |prompt| < len {
        var cache := new KVCache<Row, Rec>.Empty(drafter.model, len, drafter.zero);
        assert [] + prompt == prompt;
        var logits := cache.PrefillPrompt(drafter.model, prompt, 0, []);
        spec := new Speculation<Row, Rec>(Some(drafter.model), false, cache, logits, drafter.maxDraftTokens,
                                          drafter.adaptive, drafter.minAcceptRate);
      }
    }
  }

  /**
   A whole greedy generation. Drafts, rejections, window changes and giving up leave no trace:
   tokens, text and streamed pieces are those of decoding one token at a time.
   */
  method Generate<Row, Rec, ARow, ARec>(
    model: Model<Row, Rec>, zero: Row, cfg: Settings, prompt: seq<Token>, drafter: Drafter<ARow, ARec>)
    returns (text: Bytes, streamed: seq<Bytes>, ghost emitted: seq<Token>)
    requires prompt != [] && |prompt| <= cfg.cacheLen && cfg.maxTokens > 0
    ensures emitted == Plain(model, cfg, prompt).emitted
    ensures text == FinalText(Plain(model, cfg, prompt))
    ensures streamed == FinalPieces(Plain(model, cfg, prompt))
  {
    var cache := new KVCache<Row, Rec>.Empty(model, cfg.cacheLen, zero);
    assert [] + prompt == prompt;
    var logits := cache.PrefillPrompt(model, prompt, 0, []);
    text, streamed, emitted := GenerateFrom(model, cfg, prompt, cache, logits, drafter);
  }

  /** The same for a prompt that has already been processed into `cache`. */
  method GenerateFrom<Row, Rec, ARow, ARec>(
    model: Model<Row, Rec>, cfg: Settings, prompt: seq<Token>, cache: KVCache<Row, Rec>, logits: seq<Float>,
    drafter: Drafter<ARow, ARec>)
    returns (text: Bytes, streamed: seq<Bytes>, ghost emitted: seq<Token>)
    requires prompt != [] && |prompt| <= cfg.cacheLen && cfg.maxTokens > 0
    requires cache.rows.Length == cfg.cacheLen && cache.Holds(model, prompt) && logits == model.LogitsAfter(prompt)
    modifies cache`ssm, cache.rows
    ensures emitted == Plain(model, cfg, prompt).emitted
    ensures text == FinalText(Plain(model, cfg, prompt))
    ensures streamed == FinalPieces(Plain(model, cfg, prompt))
  {
    var decoder := new Decoder<Row, Rec>(model, cfg, prompt, cache, logits);
    var spec := Prepare(drafter, prompt, cfg.cacheLen);
    text, streamed, emitted := Finish(decoder, spec, Plain(model, cfg, prompt));
  }

  /** Runs a prepared generation to its end; a character left half-emitted still surfaces. */
  method Finish<Row, Rec, ARow, ARec>(decoder: Decoder<Row, Rec>, spec: Speculation?<ARow, ARec>, ghost goal: Progress)
    returns (text: Bytes, streamed: seq<Bytes>, ghost emitted: seq<Token>)
    requires decoder.Ready() && decoder.Destined(goal) && decoder.context == decoder.prompt
    requires goal == Plain(decoder.model, decoder.cfg, decoder.prompt)
    requires spec != null ==>
               decoder.Apart(spec) && spec.InStep(decoder.context) && spec.WindowValid() && spec.Settled()
    modifies decoder, decoder.stitcher, decoder.cache`ssm, decoder.cache.rows
    modifies if spec == null then {} else {spec, spec.cache, spec.cache.rows}
    ensures emitted == goal.emitted
    ensures text == FinalText(goal) && streamed == FinalPieces(goal)
  {
    PlainEnds(decoder.model, decoder.cfg, decoder.prompt, goal);
    decoder.Run(spec, goal);
    var tail := decoder.stitcher.Flush();
    text, streamed := decoder.output, decoder.streamed;
    emitted := decoder.emitted;
    if tail != [] {
      text, streamed := text + tail, streamed + [tail];
    }
  }
}
