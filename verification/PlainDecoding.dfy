/**
 Greedy decoding one token at a time, as a function of the model and the prompt alone: no
 cache, no drafts, and every stop search over the whole output.
 */
module PlainDecoding {
  import opened Wrappers
  import opened Utf8
  import opened Utf8Stitching
  import opened StopSearch
  import opened Logits
  import opened LanguageModel

  const RECENT_TOKEN_LIMIT: nat := 64

  datatype Settings = Settings(
    maxTokens: nat,
    cacheLen: nat,
    stops: seq<Bytes>,
    isStopToken: Token -> bool,
    decode: Token -> Bytes)

  /** Everything a caller can observe of a generation. */
  datatype Progress = Progress(
    emitted: seq<Token>,
    output: Bytes,
    pending: Bytes,
    streamed: seq<Bytes>)

  const START := Progress([], [], [], [])

  /** The text and pieces a caller has once generation ends: a half-emitted character still surfaces. */
  function FinalText(p: Progress): Bytes
  {
    p.output + Lossy(p.pending)
  }

  function FinalPieces(p: Progress): seq<Bytes>
  {
    p.streamed + if p.pending == [] then [] else [REPLACEMENT]
  }

  /** Appends one token's text; tells whether a stop string ended the output. */
  function Emit(cfg: Settings, p: Progress, token: Token): (Progress, bool)
  {
    var r := Stitch(p.pending + cfg.decode(token));
    var output := p.output + r.text;
    match if MaxLength(cfg.stops) > 0 then FindListed(output, cfg.stops) else None
    case Some(at) => (p.(output := output[..at], pending := r.pending), true)
    case None =>
      (p.(output := output, pending := r.pending,
          streamed := if r.text == [] then p.streamed else p.streamed + [r.text]), false)
  }

  /** If all stop strings are empty no search is made, although one would find a stop at once. */
  lemma EmptyStopsNeverStop(cfg: Settings, p: Progress, token: Token)
    requires cfg.stops != [] && MaxLength(cfg.stops) == 0
    ensures
      var (q, stopped) := Emit(cfg, p, token);
      !stopped && FindListed(q.output, cfg.stops) == Some(0)
  {
    EmptyStopOccursAtOnce(Emit(cfg, p, token).0.output, cfg.stops);
  }

  /** One round of the loop: either generation goes on, or this is how it ends. */
  datatype Round = Running(p: Progress) | Finished(p: Progress)

  /** The effect of choosing `token` next, after `context` tokens have been processed. */
  function Choose(cfg: Settings, context: nat, p: Progress, token: Token): Round
  {
    if cfg.isStopToken(token) then Finished(p)
    else
      var (q, stopped) := Emit(cfg, p, token);
      if stopped then Finished(q)
      else
        var next := q.(emitted := p.emitted + [token]);
        if |next.emitted| >= cfg.maxTokens || context >= cfg.cacheLen then Finished(next)
        else Running(next)
  }

  ghost function PlainRound<Row, Rec>(model: Model<Row, Rec>, cfg: Settings, prompt: seq<Token>, p: Progress): Round
  {
    var context := prompt + p.emitted;
    Choose(cfg, |context|, p, Argmax(model.LogitsAfter(context)))
  }

  /** The outcome of a generation that has come as far as `p`. */
  ghost function PlainRun<Row, Rec>(model: Model<Row, Rec>, cfg: Settings, prompt: seq<Token>, p: Progress): Progress
    decreases cfg.maxTokens - |p.emitted|
  {
    if |p.emitted| >= cfg.maxTokens then p
    else
      match PlainRound(model, cfg, prompt, p)
      case Finished(q) => q
      case Running(q) => PlainRun(model, cfg, prompt, q)
  }

  /** A generation that goes on has an output free of stop strings and a completable tail. */
  ghost predicate Clean(cfg: Settings, output: Bytes, pending: Bytes)
  {
    && (output == [] || FindListed(output, cfg.stops).None? || MaxLength(cfg.stops) == 0)
    && (pending == [] || IsPartial(pending))
  }

  /** The whole generation for a prompt. */
  ghost function Plain<Row, Rec>(model: Model<Row, Rec>, cfg: Settings, prompt: seq<Token>): Progress
  {
    PlainRun(model, cfg, prompt, START)
  }

  lemma PlainEnds<Row, Rec>(model: Model<Row, Rec>, cfg: Settings, prompt: seq<Token>, goal: Progress)
    requires goal == Plain(model, cfg, prompt)
    ensures goal.pending == [] || IsPartial(goal.pending)
  {
    PendingIsCompletable(model, cfg, prompt, START);
  }

  /** However a generation ends, what is held back is a completable character or nothing. */
  lemma {:induction false} PendingIsCompletable<Row, Rec>(model: Model<Row, Rec>, cfg: Settings, prompt: seq<Token>, p: Progress)
    requires p.pending == [] || IsPartial(p.pending)
    ensures
      var q := PlainRun(model, cfg, prompt, p);
      q.pending == [] || IsPartial(q.pending)
    decreases cfg.maxTokens - |p.emitted|
  {
    if |p.emitted| < cfg.maxTokens {
      match PlainRound(model, cfg, prompt, p)
      case Finished(q) =>
      case Running(q) => PendingIsCompletable(model, cfg, prompt, q);
    }
  }

  /** The last 64 tokens, or all of them if they are fewer. */
  function RecentTail(tokens: seq<Token>): seq<Token>
  {
    if |tokens| <= RECENT_TOKEN_LIMIT then tokens else tokens[|tokens| - RECENT_TOKEN_LIMIT..]
  }

  /** The window is what is left of the tokens when all but 64 are taken off the front. */
  lemma WindowIsLast(before: seq<Token>, recent: seq<Token>)
    requires |recent| == 64 || (before == [] && |recent| < 64)
    ensures RecentTail(before + recent) == recent
  {
  }

  /** The repetition window slides by one token at a time. */
  method PushRecentToken(recent: seq<Token>, token: Token, ghost tokens: seq<Token>) returns (next: seq<Token>)
    requires recent == RecentTail(tokens)
    ensures next == RecentTail(tokens + [token])
  {
    if |recent| == RECENT_TOKEN_LIMIT {
      next := recent[1..] + [token];
    } else {
      next := recent + [token];
    }
  }

  /** Appends a token's text to the output and streams it, unless a stop string ends the output. */
  method EmitText(
    cfg: Settings, stitcher: Utf8Stitcher, output: Bytes, streamed: seq<Bytes>, token: Token,
    ghost emitted: seq<Token>)
    returns (extended: Bytes, pieces: seq<Bytes>, stopped: bool)
    requires Clean(cfg, output, stitcher.pending)
    modifies stitcher
    ensures Emit(cfg, Progress(emitted, output, old(stitcher.pending), streamed), token)
         == (Progress(emitted, extended, stitcher.pending, pieces), stopped)
    ensures extended == Cut(output + Stitch(old(stitcher.pending) + cfg.decode(token)).text,
                            if MaxLength(cfg.stops) > 0 then cfg.stops else [])
    ensures stitcher.Valid() && (!stopped ==> Clean(cfg, extended, stitcher.pending))
  {
    var text := stitcher.Push(cfg.decode(token));
    var at := FindStop(output, text, cfg.stops, MaxLength(cfg.stops));
    extended, pieces, stopped := output + text, streamed, at.Some?;
    if at.Some? {
      extended := extended[..at.value];
    } else if text != [] {
      pieces := streamed + [text];
    }
  }
}
