/**
 When a session already holds the whole prompt, a turn starts from the logits that the turn
 before left. They are not always those that follow the prompt.
 */
module SavedLogits {
  import opened Wrappers
  import opened Logits
  import opened LanguageModel
  import opened PlainDecoding
  import opened Sampling
  import opened SessionReuse

  /**
   What is known of the turn before: its prompt, the tokens it has processed, whether it ended with
   a forward pass, whether its sampler only read the logits, and whether it started from those that
   follow its prompt.
   */
  datatype Past = Past(prompt: seq<Token>, processed: seq<Token>, forward: bool, readOnly: bool, startRight: bool)
  {
    /** A forward pass at the end has processed an emitted token. */
    ghost predicate Valid()
    {
      prompt != [] && prompt <= processed && (forward ==> processed != prompt)
    }
  }

  /** A turn before, what it left, and a turn that starts from that. */
  datatype Case = Case(
    model: Model<(), ()>, cfg0: Settings, sampler0: Sampler, start: seq<Float>, emitted: seq<Token>,
    left: seq<Float>, cfg: Settings, sampler: Sampler, seed: nat)

  /** The turn before is as known, and may be followed by one that starts from what it left. */
  ghost predicate Happens(c: Case, past: Past, prompt: seq<Token>)
  {
    && Leaves(c.model, c.cfg0, c.sampler0, past.prompt, c.start, c.emitted, past.processed, c.left)
    && past.processed <= past.prompt + c.emitted && |c.emitted| <= c.cfg0.maxTokens
    && past.forward == EndsForward(c.cfg0, past.prompt, c.emitted)
    && (past.readOnly ==> ReadOnly(c.sampler0))
    && (past.startRight ==> c.start == c.model.LogitsAfter(past.prompt))
    && |c.start| == |c.model.LogitsAfter(past.prompt)|
    && Sized(c.model, c.sampler0) && Sized(c.model, c.sampler)
    && |past.processed| <= c.cfg.cacheLen == c.cfg0.cacheLen && c.cfg.maxTokens > 0 && c.cfg0.maxTokens > 0
    && (c.model.initial.Some? ==> prompt == past.processed)
  }

  /** The second turn answers as on a new session. */
  ghost predicate AnswersRight(c: Case, prompt: seq<Token>)
  {
    TurnFrom(c.model, c.cfg, c.sampler, prompt, c.left, c.seed, START) == ColdTurn(c.model, c.cfg, c.sampler, prompt, c.seed)
  }

  /** Whatever model, samplers and settings are in use, the saved logits answer right. */
  ghost predicate AlwaysRight(past: Past, prompt: seq<Token>)
  {
    forall c :: Happens(c, past, prompt) ==> AnswersRight(c, prompt)
  }

  /**
   The prompt is all that was processed, and the logits behind it were neither rewritten by a draw
   nor wrong to begin with.
   */
  predicate IsSafe(past: Past, prompt: seq<Token>)
  {
    && prompt == past.processed
    && (past.forward || (past.readOnly && (past.processed != past.prompt || past.startRight)))
  }

  /**
   Exactly when a turn may start from what the turn before left: whatever model, samplers and
   settings are in use, it answers as on a new session if and only if the condition holds.
   */
  lemma SavedLogitsAreExactIff(past: Past, prompt: seq<Token>)
    requires past.Valid() && prompt != [] && prompt <= past.processed
    ensures AlwaysRight(past, prompt) <==> IsSafe(past, prompt)
  {
    if IsSafe(past, prompt) {
      SafeIsAlwaysRight(past, prompt);
    } else {
      var c := UnsafeIsWrong(past, prompt);
      NotAlways(c, past, prompt);
    }
  }

  lemma NotAlways(c: Case, past: Past, prompt: seq<Token>)
    requires Happens(c, past, prompt) && !AnswersRight(c, prompt)
    ensures !AlwaysRight(past, prompt)
  {
  }

  lemma SafeIsAlwaysRight(past: Past, prompt: seq<Token>)
    requires IsSafe(past, prompt)
    ensures AlwaysRight(past, prompt)
  {
    forall c | Happens(c, past, prompt)
      ensures AnswersRight(c, prompt)
    {
      LeftIsRight(c.model, c.cfg0, c.sampler0, past.prompt, c.start, c.emitted, past.processed, c.left);
    }
  }

  /** The tokens a turn before has emitted and processed, and settings that make it end as known. */
  function PastEmitted(past: Past): seq<Token>
    requires past.prompt <= past.processed
  {
    past.processed[|past.prompt|..]
  }

  function PastSettings(past: Past): Settings
    requires past.prompt <= past.processed
  {
    OneToken(|past.processed|).(maxTokens := if past.forward then |PastEmitted(past)| else |PastEmitted(past)| + 1)
  }

  /** The logits the last draw of the turn before was made from. */
  ghost function PastStart(model: Model<(), ()>, past: Past, start: seq<Float>): seq<Float>
  {
    LastStart(model, past.prompt, start, past.processed)
  }

  /** A turn before that fits what is known, for a counting model and a greedy turn behind it. */
  lemma CaseHappens(past: Past, prompt: seq<Token>, sampler0: Sampler, start: seq<Float>, left: seq<Float>) returns (c: Case)
    requires past.Valid() && |start| == 2 && (sampler0 == GREEDY || (sampler0 == SWAPPING && !past.readOnly))
    requires past.startRight ==> start == Counter(|prompt|).LogitsAfter(past.prompt)
    requires past.forward ==> left == Counter(|prompt|).LogitsAfter(past.processed)
    requires !past.forward ==>
               left == sampler0(PastStart(Counter(|prompt|), past, start), 0, RecentTail(past.processed)).logits
    ensures Happens(c, past, prompt) && c.model == Counter(|prompt|) && c.left == left
    ensures c.cfg == OneToken(|past.processed|) && c.sampler == GREEDY && c.seed == 0
  {
    var model, cfg0, emitted := Counter(|prompt|), PastSettings(past), PastEmitted(past);
    c := Case(model, cfg0, sampler0, start, emitted, left, OneToken(|past.processed|), GREEDY, 0);
    CounterIsSized(|prompt|);
    assert past.prompt + emitted == past.processed;
    assert !past.forward ==> Drawn(sampler0, PastStart(model, past, start), past.processed, left);
  }

  /** If the condition fails, some turn before leaves logits that prefer another token. */
  lemma UnsafeIsWrong(past: Past, prompt: seq<Token>) returns (c: Case)
    requires past.Valid() && prompt != [] && prompt <= past.processed && !IsSafe(past, prompt)
    ensures Happens(c, past, prompt) && !AnswersRight(c, prompt)
  {
    var model := Counter(|prompt|);
    var (right, wrong) := ([Finite(1.0), Finite(0.0)], [Finite(0.0), Finite(1.0)]);
    assert model.LogitsAfter(prompt) == right;
    if prompt != past.processed {
      c := CaseHappens(past, prompt, GREEDY, model.LogitsAfter(past.prompt), wrong);
    } else if !past.readOnly {
      c := CaseHappens(past, prompt, SWAPPING, model.LogitsAfter(past.prompt), wrong);
    } else {
      c := CaseHappens(past, prompt, GREEDY, wrong, wrong);
    }
    WrongLogitsAnswerWrong(c, prompt);
  }

  lemma WrongLogitsAnswerWrong(c: Case, prompt: seq<Token>)
    requires c.model == Counter(|prompt|) && c.left == [Finite(0.0), Finite(1.0)]
    requires |prompt| <= c.cfg.cacheLen && c.cfg == OneToken(c.cfg.cacheLen) && c.sampler == GREEDY && c.seed == 0
    ensures !AnswersRight(c, prompt)
  {
    FirstOfTwo(0.0, 1.0);
    CounterPrefers(|prompt|, prompt);
    EmitsOne(c.model, c.cfg.cacheLen, GREEDY, prompt, c.left, 0);
    EmitsOne(c.model, c.cfg.cacheLen, GREEDY, prompt, c.model.LogitsAfter(prompt), 0);
  }

  /** Greedy choice without a repetition penalty. */
  const GREEDY: Sampler := (logits: seq<Float>, rng: nat, recent: seq<Token>) => Sampled(Argmax(logits), rng, logits)

  /** Greedy choice that rewrites the logits, by exchanging the first two. */
  const SWAPPING: Sampler :=
    (logits: seq<Float>, rng: nat, recent: seq<Token>) =>
      Sampled(Argmax(logits), rng, if |logits| == 2 then [logits[1], logits[0]] else logits)

  /** A model that prefers token 0 after `n` tokens and token 1 everywhere else. */
  function Counter(n: nat): Model<(), ()>
  {
    Model((rows, ssm, token) => (), (rec, rows, token) => (),
          (rows, ssm) => if |rows| == n then [Finite(1.0), Finite(0.0)] else [Finite(0.0), Finite(1.0)],
          None)
  }

  lemma CounterPrefers(n: nat, tokens: seq<Token>)
    ensures Argmax(Counter(n).LogitsAfter(tokens)) == if |tokens| == n then 0 else 1
  {
    FirstOfTwo(1.0, 0.0);
    FirstOfTwo(0.0, 1.0);
  }

  function OneToken(cacheLen: nat): Settings
  {
    Settings(1, cacheLen, [], token => false, token => [])
  }

  lemma CounterIsSized(n: nat)
    ensures Sized(Counter(n), GREEDY) && Sized(Counter(n), SWAPPING)
  {
  }

  lemma FirstOfTwo(a: real, b: real)
    ensures Argmax([Finite(a), Finite(b)]) == if b > a then 1 else 0
  {
    ArgmaxIsUnique([Finite(a), Finite(b)], if b > a then 1 else 0);
  }

  lemma EmitsOne(model: Model<(), ()>, cacheLen: nat, sampler: Sampler, prompt: seq<Token>, logits: seq<Float>, seed: nat)
    requires |prompt| <= cacheLen
    ensures TurnFrom(model, OneToken(cacheLen), sampler, prompt, logits, seed, START).emitted
         == [sampler(logits, seed, RecentTail(prompt)).token]
  {
    assert prompt + [] == prompt;
  }

  // ---------- Conversations ----------

  /** A greedy turn for one token, on a cache of four rows. */
  method TurnForOne(session: Session<(), ()>, prompt: seq<Token>) returns (ghost emitted: seq<Token>)
    requires session.Valid() && session.Primed() && Sized(session.model, GREEDY)
    requires session.kvCache.rows.Length == 4 && 0 < |prompt| < 3
    modifies session, session.kvCache`ssm, session.kvCache.rows
    ensures session.Valid() && session.Primed() && session.cachedTokens == prompt + emitted
    ensures emitted
         == [Argmax(if old(session.UsesSavedLogits(prompt)) then old(session.lastLogits) else session.model.LogitsAfter(prompt))]
    ensures session.lastLogits == session.model.LogitsAfter(session.cachedTokens)
  {
    ghost var start := if session.UsesSavedLogits(prompt) then session.lastLogits else session.model.LogitsAfter(prompt);
    EmitsOne(session.model, 3, GREEDY, prompt, start, 0);
    var text, streamed;
    text, streamed, emitted := session.Turn(OneToken(3), GREEDY, 0, prompt);
  }

  /** The same prompt twice, on a new session: the second answer is what follows prompt and first answer. */
  method TwoTurns(session: Session<(), ()>, prompt: seq<Token>) returns (ghost first: seq<Token>, ghost second: seq<Token>)
    requires session.Valid() && session.cachedTokens == [] && session.lastLogits == []
    requires session.model.initial.None? && Sized(session.model, GREEDY)
    requires session.kvCache.rows.Length == 4 && 0 < |prompt| < 3
    modifies session, session.kvCache`ssm, session.kvCache.rows
    ensures first == [Argmax(session.model.LogitsAfter(prompt))]
    ensures second == [Argmax(session.model.LogitsAfter(prompt + first))]
  {
    first := TurnForOne(session, prompt);
    second := TurnForOne(session, prompt);
  }

  /**
   The same prompt twice, for one greedy token each. The second answer is drawn from the logits
   behind prompt and first answer; on a new session it would have been the first answer again.
   */
  method SamePromptTwice() returns (ghost first: seq<Token>, ghost second: seq<Token>)
    ensures first == [0] && second == [1]
    ensures ColdTurn(Counter(1), OneToken(3), GREEDY, [0], 0).emitted == [0]
  {
    var session := new Session<(), ()>(Counter(1), 4, ());
    CounterIsSized(1);
    CounterPrefers(1, [0]);
    CounterPrefers(1, [0] + [0]);
    EmitsOne(Counter(1), 3, GREEDY, [0], Counter(1).LogitsAfter([0]), 0);
    first, second := TwoTurns(session, [0]);
  }

  /** Greedy choice with a repetition penalty, as the program samples at temperature zero. */
  function Penalizing(penalty: real): Sampler
    requires penalty > 0.0
  {
    (logits: seq<Float>, rng: nat, recent: seq<Token>) =>
      var penalized := Penalized(logits, recent, penalty);
      Sampled(Argmax(penalized), rng, penalized)
  }

  function Penalized(logits: seq<Float>, recent: seq<Token>, penalty: real): seq<Float>
    requires penalty > 0.0
  {
    if penalty == 1.0 then logits
    else seq(|logits|, t requires 0 <= t < |logits| => PenalizeTimes(logits[t], penalty, multiset(recent)[t]))
  }

  /** A model that slightly prefers token 0, which is a stop token. */
  function Constant(): Model<(), ()>
  {
    Model((rows, ssm, token) => (), (rec, rows, token) => (), (rows, ssm) => [Finite(1.0), Finite(0.6)], None)
  }

  function StopAtZero(): Settings
  {
    Settings(1, 3, [], token => token == 0, token => [])
  }

  /** Behind token 0 its logit is divided at every draw. */
  lemma PenalizedTwice(a: real)
    ensures Penalized([Finite(a), Finite(0.6)], RecentTail([0]), 1.5)
         == [Penalize(Finite(a), 1.5), Finite(0.6)]
  {
    var recent := [0];
    assert RecentTail(recent) == recent && multiset(recent)[0] == 1 && multiset(recent)[1] == 0;
    assert PenalizeTimes(Finite(a), 1.5, 1) == Penalize(PenalizeTimes(Finite(a), 1.5, 0), 1.5);
  }

  /** What a turn emits that starts from `a` for token 0: nothing while that is the larger logit. */
  lemma StopsOrAnswers(a: real)
    requires a > 0.0
    ensures TurnFrom(Constant(), StopAtZero(), Penalizing(1.5), [0], [Finite(a), Finite(0.6)], 0, START).emitted
         == if a / 1.5 >= 0.6 then [] else [1]
  {
    PenalizedTwice(a);
    FirstOfTwo(a / 1.5, 0.6);
    assert [0] + [] == [0];
  }

  /** One turn on the prompt [0]. */
  method PenalizedTurn(session: Session<(), ()>, ghost a: real) returns (ghost emitted: seq<Token>)
    requires session.Valid() && session.Primed() && session.model == Constant() && session.kvCache.rows.Length == 4
    requires a > 0.0
    requires [Finite(a), Finite(0.6)] == if session.UsesSavedLogits([0]) then session.lastLogits else Constant().LogitsAfter([0])
    modifies session, session.kvCache`ssm, session.kvCache.rows
    ensures session.Valid() && session.Primed() && session.cachedTokens == [0] + emitted
    ensures emitted == if a / 1.5 >= 0.6 then [] else [1]
    ensures emitted == [] ==> session.lastLogits == [Finite(a / 1.5), Finite(0.6)]
  {
    StopsOrAnswers(a);
    var text, streamed;
    text, streamed, emitted := session.Turn(StopAtZero(), Penalizing(1.5), 0, [0]);
    if emitted == [] {
      assert session.cachedTokens[..session.processed] == [0];
      LeavesPenalized(a, session.lastLogits);
    }
  }

  lemma LeavesPenalized(a: real, left: seq<Float>)
    requires Leaves(Constant(), StopAtZero(), Penalizing(1.5), [0], [Finite(a), Finite(0.6)], [], [0], left) && a > 0.0
    ensures left == [Finite(a / 1.5), Finite(0.6)]
  {
    PenalizedTwice(a);
  }

  /**
   The same prompt twice under a repetition penalty. The first answer is the stop token. Its logit,
   already penalized, is penalized again in the second turn, which therefore answers something.
   */
  method SilenceThenAnswer() returns (ghost first: seq<Token>, ghost second: seq<Token>)
    ensures first == [] && second == [1]
    ensures ColdTurn(Constant(), StopAtZero(), Penalizing(1.5), [0], 0).emitted == []
  {
    var session := new Session<(), ()>(Constant(), 4, ());
    StopsOrAnswers(1.0);
    first := PenalizedTurn(session, 1.0);
    second := PenalizedTurn(session, 1.0 / 1.5);
  }

  // One wrong start is passed on as long as nothing is processed.

  function StopAtOne(): Settings
  {
    Settings(1, 3, [], token => token == 1, token => [])
  }

  /** A greedy turn for one token, of which token 1 is the stop token. */
  lemma AnswersUnlessOne(model: Model<(), ()>, prompt: seq<Token>, logits: seq<Float>)
    requires |prompt| <= 3
    ensures TurnFrom(model, StopAtOne(), GREEDY, prompt, logits, 0, START).emitted
         == if Argmax(logits) == 1 then [] else [Argmax(logits)]
  {
    assert prompt + [] == prompt;
    var s := GREEDY(logits, 0, RecentTail(prompt));
    assert s.token == Argmax(logits);
    var round := Choose(StopAtOne(), |prompt|, START, s.token);
    assert round.Finished? && round.p.emitted == if s.token == 1 then [] else [s.token];
  }

  method TurnUnlessOne(session: Session<(), ()>, prompt: seq<Token>, ghost start: seq<Float>) returns (ghost emitted: seq<Token>)
    requires session.Valid() && session.Primed() && Sized(session.model, GREEDY)
    requires session.kvCache.rows.Length == 4 && 0 < |prompt| < 3
    requires start == if session.UsesSavedLogits(prompt) then session.lastLogits else session.model.LogitsAfter(prompt)
    modifies session, session.kvCache`ssm, session.kvCache.rows
    ensures session.Valid() && session.Primed() && session.cachedTokens == prompt + emitted
    ensures emitted == if Argmax(start) == 1 then [] else [Argmax(start)]
    ensures session.lastLogits == if emitted == [] then start else session.model.LogitsAfter(session.cachedTokens)
    ensures emitted == [] ==> session.cachedTokens[..session.processed] == prompt
  {
    AnswersUnlessOne(session.model, prompt, start);
    var text, streamed;
    text, streamed, emitted := session.Turn(StopAtOne(), GREEDY, 0, prompt);
    if emitted == [] {
      assert session.cachedTokens[..session.processed] == prompt;
    }
  }

  /**
   The same prompt three times. The second turn starts from logits that follow prompt and answer,
   draws the stop token and saves them again. Before the third turn exactly the prompt has been
   processed, and no draw has rewritten anything; the answer is wrong all the same.
   */
  method SilentFromThenOn() returns (ghost first: seq<Token>, ghost second: seq<Token>, ghost third: seq<Token>)
    ensures first == [0] && second == [] && third == []
    ensures ColdTurn(Counter(1), StopAtOne(), GREEDY, [0], 0).emitted == [0]
  {
    var session := new Session<(), ()>(Counter(1), 4, ());
    CounterIsSized(1);
    CounterPrefers(1, [0]);
    CounterPrefers(1, [0] + [0]);
    AnswersUnlessOne(Counter(1), [0], Counter(1).LogitsAfter([0]));
    first, second, third := ThreeTurns(session, [0]);
  }

  /** On a new session: the first answer, and what the logits behind prompt and first answer prefer, twice. */
  method ThreeTurns(session: Session<(), ()>, prompt: seq<Token>)
    returns (ghost first: seq<Token>, ghost second: seq<Token>, ghost third: seq<Token>)
    requires session.Valid() && session.cachedTokens == [] && session.lastLogits == []
    requires session.model.initial.None? && Sized(session.model, GREEDY)
    requires session.kvCache.rows.Length == 4 && 0 < |prompt| < 3
    requires Argmax(session.model.LogitsAfter(prompt)) == 0 && Argmax(session.model.LogitsAfter(prompt + [0])) == 1
    modifies session, session.kvCache`ssm, session.kvCache.rows
    ensures first == [0] && second == [] && third == []
    ensures session.cachedTokens == prompt
  {
    ghost var model := session.model;
    first := TurnUnlessOne(session, prompt, model.LogitsAfter(prompt));
    second := TurnUnlessOne(session, prompt, model.LogitsAfter(prompt + [0]));
    assert session.cachedTokens == prompt;
    third := TurnUnlessOne(session, prompt, model.LogitsAfter(prompt + [0]));
  }
}
