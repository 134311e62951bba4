/**
 What a generation is, said of its result alone: which tokens it consists of, why it ends where it
 does, and which text belongs to it. Greedy decoding and the turns of a session both obey this.
 */
module GenerationLaws {
  import opened Wrappers
  import opened Sequences
  import opened Search
  import opened Utf8
  import opened Utf8Stitching
  import opened StopSearch
  import opened Logits
  import opened LanguageModel
  import opened PlainDecoding
  import opened SessionReuse

  /** The token that is drawn behind those emitted so far. */
  type Drawing = seq<Token> -> Token

  /** The bytes of all tokens, one token after the other. */
  ghost function Decoded(cfg: Settings, tokens: seq<Token>): Bytes
  {
    if tokens == [] then []
    else Decoded(cfg, tokens[..|tokens| - 1]) + cfg.decode(tokens[|tokens| - 1])
  }

  /** The part of those bytes that is certain to be text. */
  ghost function Certain(cfg: Settings, tokens: seq<Token>): Release
  {
    Stitch(Decoded(cfg, tokens))
  }

  /** After `n` tokens another one may be drawn: `context` tokens came before all of them. */
  predicate HasRoom(cfg: Settings, context: nat, n: nat)
  {
    n < cfg.maxTokens && (n > 0 ==> context + n - 1 < cfg.cacheLen)
  }

  ghost predicate NoStopIn(cfg: Settings, text: Bytes)
  {
    MaxLength(cfg.stops) > 0 ==> FreeOf(text, cfg.stops)
  }

  /** The token is the one drawn behind those before it, and did not end the generation. */
  ghost predicate GoesOn(cfg: Settings, context: nat, next: Drawing, before: seq<Token>, token: Token)
  {
    && token == next(before) && HasRoom(cfg, context, |before|)
    && !cfg.isStopToken(token) && NoStopIn(cfg, Certain(cfg, before + [token]).text)
  }

  ghost predicate AreDrawn(cfg: Settings, context: nat, next: Drawing, emitted: seq<Token>)
  {
    emitted == []
    || (var (before, token) := (emitted[..|emitted| - 1], emitted[|emitted| - 1]);
        AreDrawn(cfg, context, next, before) && GoesOn(cfg, context, next, before, token))
  }

  /** The result shows all text there is; what was streamed is the same text, without empty pieces. */
  ghost predicate ShowsAll(cfg: Settings, p: Progress)
  {
    && Release(p.output, p.pending) == Certain(cfg, p.emitted)
    && Join(p.streamed) == p.output && [] !in p.streamed
  }

  /** A further token completed a stop string: the output is cut there, and nothing of it was streamed. */
  ghost predicate ShowsCut(cfg: Settings, p: Progress, last: Token)
  {
    var all := Certain(cfg, p.emitted + [last]);
    && Release(p.output, p.pending) == Release(Cut(all.text, cfg.stops), all.pending)
    && Join(p.streamed) == Certain(cfg, p.emitted).text && [] !in p.streamed
  }

  /** `p` is how a generation ends. */
  ghost predicate IsGeneration(cfg: Settings, context: nat, next: Drawing, p: Progress)
  {
    var last := next(p.emitted);
    && AreDrawn(cfg, context, next, p.emitted)
    && if !HasRoom(cfg, context, |p.emitted|) || cfg.isStopToken(last) then ShowsAll(cfg, p)
       else !NoStopIn(cfg, Certain(cfg, p.emitted + [last]).text) && ShowsCut(cfg, p, last)
  }

  // ---------- The loop obeys this ----------

  /** The loop that both greedy decoding and a turn are. */
  ghost function Loop(cfg: Settings, context: nat, next: Drawing, p: Progress): Progress
    decreases cfg.maxTokens - |p.emitted|
  {
    if |p.emitted| >= cfg.maxTokens then p
    else
      match Choose(cfg, context + |p.emitted|, p, next(p.emitted))
      case Finished(q) => q
      case Running(q) => Loop(cfg, context, next, q)
  }

  /** Stitching on from what is held back is stitching everything at once. */
  lemma {:induction false} StitchOn(s: Bytes, later: Bytes)
    ensures
      var more := Stitch(Stitch(s).pending + later);
      Stitch(s + later) == Release(Stitch(s).text + more.text, more.pending)
    decreases |s|
  {
    if s == [] || IsPartial(s) {
      assert [] + Stitch(s + later).text == Stitch(s + later).text;
    } else if CharacterLength(s) > 0 {
      var (c, rest) := (s[..CharacterLength(s)], s[CharacterLength(s)..]);
      assert s == c + rest;
      StitchOn(rest, later);
      Associate(c, rest, later);
      StitchCharacter(c, rest);
      StitchCharacter(c, rest + later);
      Associate(c, Stitch(rest).text, Stitch(Stitch(rest).pending + later).text);
    } else {
      StitchOnBehindBad(s, later);
    }
  }

  lemma {:induction false} StitchOnBehindBad(s: Bytes, later: Bytes)
    requires s != [] && !IsPartial(s) && CharacterLength(s) == 0
    ensures
      var more := Stitch(Stitch(s).pending + later);
      Stitch(s + later) == Release(Stitch(s).text + more.text, more.pending)
    decreases |s|, 0
  {
    var rest := s[SubpartLength(s)..];
    StitchOn(rest, later);
    BadSubpartIsFinal(s, later);
    DropOfConcat(s, later, SubpartLength(s));
    StitchBad(s);
    assert !IsPartial(s + later) by {
      assert (s + later)[0] == s[0];
      assert forall i :: 0 <= i < |s| ==> (s + later)[i] == s[i];
    }
    StitchBad(s + later);
    Associate(REPLACEMENT, Stitch(rest).text, Stitch(Stitch(rest).pending + later).text);
  }

  /** Emitting a token shows what the tokens so far and this one decode to, up to the first listed stop string. */
  lemma EmitShows(cfg: Settings, p: Progress, token: Token)
    requires ShowsAll(cfg, p)
    ensures
      var (q, stopped) := Emit(cfg, p, token);
      var all := Certain(cfg, p.emitted + [token]);
      && stopped == !NoStopIn(cfg, all.text)
      && if stopped then q.emitted == p.emitted && ShowsCut(cfg, q, token)
         else ShowsAll(cfg, q.(emitted := p.emitted + [token]))
  {
    assert (p.emitted + [token])[..|p.emitted|] == p.emitted;
    StitchOn(Decoded(cfg, p.emitted), cfg.decode(token));
    var r := Stitch(p.pending + cfg.decode(token));
    NothingListedMeansFree(p.output + r.text, cfg.stops);
    JoinOneMore(p.streamed, r.text);
  }

  lemma DrawnOneMore(cfg: Settings, context: nat, next: Drawing, emitted: seq<Token>, token: Token)
    requires AreDrawn(cfg, context, next, emitted) && GoesOn(cfg, context, next, emitted, token)
    ensures AreDrawn(cfg, context, next, emitted + [token])
  {
    assert (emitted + [token])[..|emitted|] == emitted;
  }

  /** The tokens so far were drawn and are shown, and there is room for another one. */
  ghost predicate InProgress(cfg: Settings, context: nat, next: Drawing, p: Progress)
  {
    AreDrawn(cfg, context, next, p.emitted) && ShowsAll(cfg, p) && HasRoom(cfg, context, |p.emitted|)
  }

  /** A round ends the generation as it must, or one more token is drawn and shown. */
  lemma RoundObeys(cfg: Settings, context: nat, next: Drawing, p: Progress)
    requires InProgress(cfg, context, next, p)
    ensures
      var round := Choose(cfg, context + |p.emitted|, p, next(p.emitted));
      && (round.Finished? ==> IsGeneration(cfg, context, next, round.p))
      && (round.Running? ==> InProgress(cfg, context, next, round.p) && |round.p.emitted| == |p.emitted| + 1)
  {
    var last := next(p.emitted);
    EmitShows(cfg, p, last);
    if !cfg.isStopToken(last) && !Emit(cfg, p, last).1 {
      DrawnOneMore(cfg, context, next, p.emitted, last);
    }
  }

  lemma LoopStep(cfg: Settings, context: nat, next: Drawing, p: Progress)
    requires |p.emitted| < cfg.maxTokens
    ensures
      var round := Choose(cfg, context + |p.emitted|, p, next(p.emitted));
      Loop(cfg, context, next, p) == if round.Finished? then round.p else Loop(cfg, context, next, round.p)
  {
  }

  lemma {:induction false} LoopIsGeneration(cfg: Settings, context: nat, next: Drawing, p: Progress)
    requires InProgress(cfg, context, next, p)
    ensures IsGeneration(cfg, context, next, Loop(cfg, context, next, p))
    decreases cfg.maxTokens - |p.emitted|
  {
    RoundObeys(cfg, context, next, p);
    LoopStep(cfg, context, next, p);
    var round := Choose(cfg, context + |p.emitted|, p, next(p.emitted));
    if round.Running? {
      LoopIsGeneration(cfg, context, next, round.p);
    }
  }

  lemma WholeLoop(cfg: Settings, context: nat, next: Drawing)
    ensures IsGeneration(cfg, context, next, Loop(cfg, context, next, START))
  {
    if cfg.maxTokens > 0 {
      LoopIsGeneration(cfg, context, next, START);
    }
  }

  // ---------- Nothing else does ----------

  /** Every single token is the one drawn behind those before it, and did not end the generation. */
  lemma {:induction false} EachGoesOn(cfg: Settings, context: nat, next: Drawing, emitted: seq<Token>, i: nat)
    requires i < |emitted| && AreDrawn(cfg, context, next, emitted)
    ensures GoesOn(cfg, context, next, emitted[..i], emitted[i])
    decreases |emitted|
  {
    var before := emitted[..|emitted| - 1];
    if i < |before| {
      EachGoesOn(cfg, context, next, before, i);
      assert before[..i] == emitted[..i];
    }
  }

  /** What is drawn each time behind the tokens before is the same. */
  lemma FollowAlike(next: Drawing, a: seq<Token>, b: seq<Token>)
    requires |a| <= |b|
    requires forall i: nat :: i < |a| ==> a[i] == next(a[..i])
    requires forall i: nat :: i < |b| ==> b[i] == next(b[..i])
    ensures a == b[..|a|]
  {
    for n := 0 to |a|
      invariant a[..n] == b[..n]
    {
      assert a[..n + 1] == a[..n] + [a[n]] && b[..n + 1] == b[..n] + [b[n]];
    }
    assert a[..|a|] == a;
  }

  /** Of two lists of drawn tokens one begins with the other. */
  lemma DrawnAlike(cfg: Settings, context: nat, next: Drawing, a: seq<Token>, b: seq<Token>)
    requires AreDrawn(cfg, context, next, a) && AreDrawn(cfg, context, next, b) && |a| <= |b|
    ensures b[..|a|] == a
  {
    forall i: nat | i < |a|
      ensures a[i] == next(a[..i])
    {
      EachGoesOn(cfg, context, next, a, i);
    }
    forall i: nat | i < |b|
      ensures b[i] == next(b[..i])
    {
      EachGoesOn(cfg, context, next, b, i);
    }
    FollowAlike(next, a, b);
  }

  lemma NothingBehind(cfg: Settings, context: nat, next: Drawing, a: Progress, token: Token)
    requires IsGeneration(cfg, context, next, a)
    ensures !GoesOn(cfg, context, next, a.emitted, token)
  {
  }

  lemma NoLonger(cfg: Settings, context: nat, next: Drawing, a: Progress, b: Progress)
    requires IsGeneration(cfg, context, next, a) && IsGeneration(cfg, context, next, b)
    ensures |a.emitted| >= |b.emitted|
  {
    if |a.emitted| < |b.emitted| {
      DrawnAlike(cfg, context, next, a.emitted, b.emitted);
      EachGoesOn(cfg, context, next, b.emitted, |a.emitted|);
      NothingBehind(cfg, context, next, a, b.emitted[|a.emitted|]);
      assert false;
    }
  }

  /** The law leaves one possible result. */
  lemma OneGeneration(cfg: Settings, context: nat, next: Drawing, a: Progress, b: Progress)
    requires IsGeneration(cfg, context, next, a) && IsGeneration(cfg, context, next, b)
    ensures a.emitted == b.emitted && FinalText(a) == FinalText(b) && Join(a.streamed) == Join(b.streamed)
  {
    NoLonger(cfg, context, next, a, b);
    NoLonger(cfg, context, next, b, a);
    DrawnAlike(cfg, context, next, a.emitted, b.emitted);
  }

  // ---------- What follows for the text ----------

  /** A generation that no stop string ended shows the decoding of all its tokens, and streams the same. */
  lemma WholeText(cfg: Settings, p: Progress)
    requires ShowsAll(cfg, p)
    ensures FinalText(p) == Lossy(Decoded(cfg, p.emitted)) && Join(FinalPieces(p)) == FinalText(p)
  {
    var all := Decoded(cfg, p.emitted);
    StitchIsFinal(all, []);
    assert all + [] == all && p.pending + [] == p.pending;
    if p.pending != [] {
      PartialDecodesToReplacement(p.pending);
      JoinOneMore(p.streamed, REPLACEMENT);
    } else {
      assert p.streamed + [] == p.streamed && p.output + [] == p.output;
    }
  }

  lemma ShownIsFree(cfg: Settings, context: nat, next: Drawing, p: Progress)
    requires AreDrawn(cfg, context, next, p.emitted) && ShowsAll(cfg, p)
    requires cfg.stops != [] && forall s :: s in cfg.stops ==> s != []
    ensures FreeOf(p.output, cfg.stops)
  {
    assert cfg.stops[0] in cfg.stops;
    var n := |p.emitted| - 1;
    if p.emitted != [] {
      EachGoesOn(cfg, context, next, p.emitted, n);
      assert p.emitted[..n] + [p.emitted[n]] == p.emitted;
    }
  }

  /** If the first listed stop string occurs in all of them, the output is free of every one of them. */
  lemma OutputIsFree(cfg: Settings, context: nat, next: Drawing, p: Progress)
    requires IsGeneration(cfg, context, next, p)
    requires cfg.stops != [] && (forall s :: s in cfg.stops ==> s != []) && FirstIsInAll(cfg.stops)
    ensures FreeOf(p.output, cfg.stops)
  {
    var last := next(p.emitted);
    if !HasRoom(cfg, context, |p.emitted|) || cfg.isStopToken(last) {
      ShownIsFree(cfg, context, next, p);
    } else {
      CutIsFree(Certain(cfg, p.emitted + [last]).text, cfg.stops);
    }
  }

  // ---------- Greedy decoding ----------

  /** The largest of the logits behind the prompt and the tokens so far. */
  ghost function Greedily<Row(!new), Rec(!new)>(model: Model<Row, Rec>, prompt: seq<Token>): Drawing
  {
    emitted => Argmax(model.LogitsAfter(prompt + emitted))
  }

  lemma {:induction false} PlainIsLoop<Row(!new), Rec(!new)>(model: Model<Row, Rec>, cfg: Settings, prompt: seq<Token>, p: Progress)
    ensures PlainRun(model, cfg, prompt, p) == Loop(cfg, |prompt|, Greedily(model, prompt), p)
    decreases cfg.maxTokens - |p.emitted|
  {
    if |p.emitted| < cfg.maxTokens {
      match PlainRound(model, cfg, prompt, p)
      case Finished(q) =>
      case Running(q) => PlainIsLoop(model, cfg, prompt, q);
    }
  }

  /** Greedy decoding gives the one result the law allows. */
  lemma PlainIsGeneration<Row(!new), Rec(!new)>(model: Model<Row, Rec>, cfg: Settings, prompt: seq<Token>)
    ensures IsGeneration(cfg, |prompt|, Greedily(model, prompt), Plain(model, cfg, prompt))
  {
    PlainIsLoop(model, cfg, prompt, START);
    WholeLoop(cfg, |prompt|, Greedily(model, prompt));
  }

  /** No stop string is left in what greedy decoding shows, if the first listed one occurs in all of them. */
  lemma PlainIsFree<Row(!new), Rec(!new)>(model: Model<Row, Rec>, cfg: Settings, prompt: seq<Token>)
    requires cfg.stops != [] && (forall s :: s in cfg.stops ==> s != []) && FirstIsInAll(cfg.stops)
    ensures FreeOf(Plain(model, cfg, prompt).output, cfg.stops)
  {
    PlainIsGeneration(model, cfg, prompt);
    OutputIsFree(cfg, |prompt|, Greedily(model, prompt), Plain(model, cfg, prompt));
  }

  // ---------- The turns of a session ----------

  /**
   The draw behind `emitted`: from the given logits at first and later from those that follow the
   tokens, with the last 64 of the tokens so far and the generator as the draw before left it.
   */
  ghost function Draw<Row, Rec>(
    model: Model<Row, Rec>, sampler: Sampler, prompt: seq<Token>, start: seq<Float>, seed: nat, emitted: seq<Token>): Sampled
    decreases |emitted|
  {
    var all := prompt + emitted;
    var recent := if |all| <= 64 then all else all[|all| - 64..];
    if emitted == [] then sampler(start, seed, recent)
    else sampler(model.LogitsAfter(all), Draw(model, sampler, prompt, start, seed, emitted[..|emitted| - 1]).rng, recent)
  }

  ghost function Drawings<Row(!new), Rec(!new)>(
    model: Model<Row, Rec>, sampler: Sampler, prompt: seq<Token>, start: seq<Float>, seed: nat): Drawing
  {
    emitted => Draw(model, sampler, prompt, start, seed, emitted).token
  }

  /** Behind the token that `draw` gives for `emitted`, it draws with the generator left by that. */
  ghost predicate Chains<Row(!new), Rec(!new)>(
    model: Model<Row, Rec>, sampler: Sampler, prompt: seq<Token>, draw: seq<Token> -> Sampled, emitted: seq<Token>)
  {
    var s := draw(emitted);
    var all := prompt + (emitted + [s.token]);
    draw(emitted + [s.token]) == sampler(model.LogitsAfter(all), s.rng, RecentTail(all))
  }

  lemma DrawChains<Row(!new), Rec(!new)>(
    model: Model<Row, Rec>, sampler: Sampler, prompt: seq<Token>, start: seq<Float>, seed: nat,
    emitted: seq<Token>, longer: seq<Token>)
    requires longer == emitted + [Draw(model, sampler, prompt, start, seed, emitted).token]
    ensures Draw(model, sampler, prompt, start, seed, longer)
         == sampler(model.LogitsAfter(prompt + longer), Draw(model, sampler, prompt, start, seed, emitted).rng,
                    RecentTail(prompt + longer))
  {
    assert longer[..|emitted|] == emitted;
  }

  /** The draws as a function value, so that their definition is unfolded only here. */
  ghost function Draws<Row(!new), Rec(!new)>(
    model: Model<Row, Rec>, sampler: Sampler, prompt: seq<Token>, start: seq<Float>, seed: nat): (draw: seq<Token> -> Sampled)
    ensures forall e :: draw(e) == Draw(model, sampler, prompt, start, seed, e)
    ensures forall e :: Chains(model, sampler, prompt, draw, e)
  {
    var draw: seq<Token> -> Sampled := emitted => Draw(model, sampler, prompt, start, seed, emitted);
    assert forall e :: Chains(model, sampler, prompt, draw, e) by {
      forall e
        ensures Chains(model, sampler, prompt, draw, e)
      {
        DrawChains(model, sampler, prompt, start, seed, e, e + [draw(e).token]);
      }
    }
    draw
  }

  lemma {:induction false} TurnIsLoop<Row(!new), Rec(!new)>(
    model: Model<Row, Rec>, cfg: Settings, sampler: Sampler, prompt: seq<Token>, draw: seq<Token> -> Sampled,
    next: Drawing, logits: seq<Float>, rng: nat, p: Progress)
    requires forall e :: Chains(model, sampler, prompt, draw, e)
    requires forall e :: next(e) == draw(e).token
    requires draw(p.emitted) == sampler(logits, rng, RecentTail(prompt + p.emitted))
    ensures TurnFrom(model, cfg, sampler, prompt, logits, rng, p) == Loop(cfg, |prompt|, next, p)
    decreases cfg.maxTokens - |p.emitted|
  {
    if |p.emitted| < cfg.maxTokens {
      var s := draw(p.emitted);
      match Choose(cfg, |prompt + p.emitted|, p, s.token)
      case Finished(q) =>
      case Running(q) =>
        assert Chains(model, sampler, prompt, draw, p.emitted);
        TurnIsLoop(model, cfg, sampler, prompt, draw, next, model.LogitsAfter(prompt + q.emitted), s.rng, q);
    }
  }

  lemma WholeTurnIsLoop<Row(!new), Rec(!new)>(
    model: Model<Row, Rec>, cfg: Settings, sampler: Sampler, prompt: seq<Token>, start: seq<Float>, seed: nat)
    ensures TurnFrom(model, cfg, sampler, prompt, start, seed, START)
         == Loop(cfg, |prompt|, Drawings(model, sampler, prompt, start, seed), START)
  {
    assert prompt + [] == prompt;
    var draw := Draws(model, sampler, prompt, start, seed);
    TurnIsLoop(model, cfg, sampler, prompt, draw, Drawings(model, sampler, prompt, start, seed), start, seed, START);
  }

  /** A turn gives the one result the law allows for its sampler, its seed and the logits it starts from. */
  lemma TurnIsGeneration<Row(!new), Rec(!new)>(
    model: Model<Row, Rec>, cfg: Settings, sampler: Sampler, prompt: seq<Token>, start: seq<Float>, seed: nat)
    ensures IsGeneration(cfg, |prompt|, Drawings(model, sampler, prompt, start, seed),
                         TurnFrom(model, cfg, sampler, prompt, start, seed, START))
  {
    WholeTurnIsLoop(model, cfg, sampler, prompt, start, seed);
    WholeLoop(cfg, |prompt|, Drawings(model, sampler, prompt, start, seed));
  }

  /** A sampler that always picks the largest logit makes a cold turn greedy decoding. */
  lemma GreedyTurnIsPlain<Row(!new), Rec(!new)>(
    model: Model<Row, Rec>, cfg: Settings, sampler: Sampler, prompt: seq<Token>, seed: nat)
    requires forall logits, rng, recent :: sampler(logits, rng, recent).token == Argmax(logits)
    ensures ColdTurn(model, cfg, sampler, prompt, seed) == Plain(model, cfg, prompt)
  {
    assert prompt + [] == prompt;
    GreedyIsPlain(model, cfg, sampler, prompt, seed, START);
  }

  lemma {:induction false} GreedyIsPlain<Row(!new), Rec(!new)>(
    model: Model<Row, Rec>, cfg: Settings, sampler: Sampler, prompt: seq<Token>, rng: nat, p: Progress)
    requires forall logits, rng, recent :: sampler(logits, rng, recent).token == Argmax(logits)
    ensures TurnFrom(model, cfg, sampler, prompt, model.LogitsAfter(prompt + p.emitted), rng, p)
         == PlainRun(model, cfg, prompt, p)
    decreases cfg.maxTokens - |p.emitted|
  {
    if |p.emitted| < cfg.maxTokens {
      var context := prompt + p.emitted;
      var s := sampler(model.LogitsAfter(context), rng, RecentTail(context));
      match Choose(cfg, |context|, p, s.token)
      case Finished(q) =>
      case Running(q) => GreedyIsPlain(model, cfg, sampler, prompt, s.rng, q);
    }
  }
}
