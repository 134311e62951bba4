/**
 The forward passes, as far as generation depends on them: a step at a position reads the
 cache rows before it and the recurrent state, writes the row at that position and folds the
 token into the recurrent state; the logits are read off the rows up to it and the state.
 */
module LanguageModel {
  import opened Wrappers
  import opened Logits

  datatype Model<!Row, !Rec> = Model(
    /** Keys and values of the token at the position just behind the given rows. */
    row: (seq<Row>, Option<Rec>, Token) -> Row,
    /** Folds a token into the recurrent state of a hybrid model. */
    advance: (Rec, seq<Row>, Token) -> Rec,
    logits: (seq<Row>, Option<Rec>) -> seq<Float>,
    /** Recurrent state before any token; none for attention-only models. */
    initial: Option<Rec>)
  {
    /** Cache contents once exactly `tokens` have been processed from an empty cache. */
    ghost function After(tokens: seq<Token>): (s: State<Row, Rec>)
      ensures |s.rows| == |tokens|
      ensures s.ssm.Some? <==> initial.Some?
    {
      if tokens == [] then State([], initial)
      else Step(After(tokens[..|tokens| - 1]), tokens[|tokens| - 1])
    }

    function Step(s: State<Row, Rec>, token: Token): State<Row, Rec>
    {
      State(s.rows + [row(s.rows, s.ssm, token)],
            if s.ssm.None? then None else Some(advance(s.ssm.value, s.rows, token)))
    }

    /** The logits that follow `tokens`. */
    ghost function LogitsAfter(tokens: seq<Token>): seq<Float>
    {
      logits(After(tokens).rows, After(tokens).ssm)
    }

    lemma AfterOneMore(tokens: seq<Token>, token: Token)
      ensures After(tokens + [token]) == Step(After(tokens), token)
    {
      assert (tokens + [token])[..|tokens|] == tokens;
    }

    /** Processing more tokens never rewrites an earlier row. */
    lemma {:induction false} RowsOfPrefix(tokens: seq<Token>, n: nat)
      requires n <= |tokens|
      ensures After(tokens).rows[..n] == After(tokens[..n]).rows
      decreases |tokens| - n
    {
      if n == |tokens| {
        assert tokens[..n] == tokens;
      } else {
        RowsOfPrefix(tokens, n + 1);
        assert tokens[..n + 1] == tokens[..n] + [tokens[n]];
        AfterOneMore(tokens[..n], tokens[n]);
        assert After(tokens).rows[..n] == After(tokens).rows[..n + 1][..n];
      }
    }
  }

  datatype State<Row, Rec> = State(rows: seq<Row>, ssm: Option<Rec>)

  /** A linear key/value cache with the recurrent state of a hybrid model beside it. */
  class KVCache<Row, Rec> {
    const rows: array<Row>
    var ssm: Option<Rec>

    constructor Empty(model: Model<Row, Rec>, maxLen: nat, zero: Row)
      ensures fresh(rows) && rows.Length == maxLen
      ensures Holds(model, [])
    {
      rows := new Row[maxLen](_ => zero);
      ssm := model.initial;
    }

    /** A cache that nothing will be processed with. */
    constructor Blank(maxLen: nat, zero: Row)
      ensures fresh(rows) && rows.Length == maxLen
    {
      rows := new Row[maxLen](_ => zero);
      ssm := None;
    }

    /** Rows before the position are those of `tokens`; what lies behind is arbitrary. */
    ghost predicate RowsHold(model: Model<Row, Rec>, tokens: seq<Token>)
      reads rows
    {
      |tokens| <= rows.Length && rows[..|tokens|] == model.After(tokens).rows
    }

    /** The cache is exactly what processing `tokens` leaves. */
    ghost predicate Holds(model: Model<Row, Rec>, tokens: seq<Token>)
      reads this, rows
    {
      RowsHold(model, tokens) && ssm == model.After(tokens).ssm
    }

    /** Processes one token at the position behind `before`, without computing logits. */
    method Prefill(model: Model<Row, Rec>, token: Token, pos: nat, ghost before: seq<Token>)
      requires Holds(model, before) && pos == |before| < rows.Length
      modifies this`ssm, rows
      ensures Holds(model, before + [token])
    {
      model.AfterOneMore(before, token);
      var row := model.row(rows[..pos], ssm, token);
      if ssm.Some? {
        ssm := Some(model.advance(ssm.value, rows[..pos], token));
      }
      rows[pos] := row;
      assert rows[..pos + 1] == rows[..pos] + [row];
    }

    /** Processes one token and computes the logits that follow it. */
    method Forward(model: Model<Row, Rec>, token: Token, pos: nat, ghost before: seq<Token>)
      returns (logits: seq<Float>)
      requires Holds(model, before) && pos == |before| < rows.Length
      modifies this`ssm, rows
      ensures Holds(model, before + [token])
      ensures logits == model.LogitsAfter(before + [token])
    {
      Prefill(model, token, pos, before);
      logits := model.logits(rows[..pos + 1], ssm);
    }

    /** Processes several tokens in order. */
    method PrefillAll(model: Model<Row, Rec>, tokens: seq<Token>, start: nat, ghost before: seq<Token>)
      requires Holds(model, before) && start == |before| && start + |tokens| <= rows.Length
      modifies this`ssm, rows
      ensures Holds(model, before + tokens)
    {
      assert before + tokens[..0] == before;
      for i := 0 to |tokens|
        invariant Holds(model, before + tokens[..i])
      {
        Prefill(model, tokens[i], start + i, before + tokens[..i]);
        assert before + tokens[..i] + [tokens[i]] == before + tokens[..i + 1];
      }
      assert tokens[..|tokens|] == tokens;
    }

    /** Processes a whole prompt suffix; only its last token needs logits. */
    method PrefillPrompt(model: Model<Row, Rec>, tokens: seq<Token>, start: nat, ghost before: seq<Token>)
      returns (logits: seq<Float>)
      requires tokens != []
      requires Holds(model, before) && start == |before| && start + |tokens| <= rows.Length
      modifies this`ssm, rows
      ensures Holds(model, before + tokens)
      ensures logits == model.LogitsAfter(before + tokens)
    {
      var last := |tokens| - 1;
      PrefillAll(model, tokens[..last], start, before);
      logits := Forward(model, tokens[last], start + last, before + tokens[..last]);
      assert before + tokens[..last] + [tokens[last]] == before + tokens;
    }

    /**
     Verifies a draft in one pass: every drafted token is processed, and entry `i` of the
     result holds the logits that follow the first `i + 1` of them.
     */
    method VerifyBatch(model: Model<Row, Rec>, draft: seq<Token>, start: nat, ghost before: seq<Token>)
      returns (after: seq<seq<Float>>)
      requires Holds(model, before) && start == |before| && start + |draft| <= rows.Length
      modifies this`ssm, rows
      ensures Holds(model, before + draft)
      ensures |after| == |draft|
      ensures forall i :: 0 <= i < |draft| ==> after[i] == model.LogitsAfter(before + draft[..i + 1])
    {
      after := [];
      assert before + draft[..0] == before;
      for i := 0 to |draft|
        invariant Holds(model, before + draft[..i])
        invariant |after| == i
        invariant forall j :: 0 <= j < i ==> after[j] == model.LogitsAfter(before + draft[..j + 1])
      {
        var logits := Forward(model, draft[i], start + i, before + draft[..i]);
        assert before + draft[..i] + [draft[i]] == before + draft[..i + 1];
        after := after + [logits];
      }
      assert draft[..|draft|] == draft;
    }

    /**
     Takes the cache back to a prefix of what it holds. Rows need no repair, since later ones
     are overwritten; a recurrent state cannot be rewound and is restored from a snapshot taken
     before `kept`, then advanced over `kept` again.
     */
    method Rewind(
      model: Model<Row, Rec>, kept: seq<Token>, start: nat, snapshot: Option<Rec>,
      ghost before: seq<Token>, ghost written: seq<Token>)
      requires RowsHold(model, before + written) && kept <= written && start == |before|
      requires ssm.Some? <==> model.initial.Some?
      requires snapshot == model.After(before).ssm
      modifies this`ssm, rows
      ensures Holds(model, before + kept)
    {
      model.RowsOfPrefix(before + written, |before| + |kept|);
      assert (before + written)[..|before| + |kept|] == before + kept;
      assert rows[..|before| + |kept|] == rows[..|before + written|][..|before| + |kept|];
      if snapshot.Some? {
        ssm := snapshot;
        model.RowsOfPrefix(before + kept, |before|);
        assert (before + kept)[..|before|] == before;
        assert rows[..|before|] == rows[..|before + kept|][..|before|];
        PrefillAll(model, kept, start, before);
      }
    }
  }

  /** An attention-only cache also holds every prefix of what it holds; a recurrent one does not. */
  lemma HoldsPrefix<Row, Rec>(cache: KVCache<Row, Rec>, model: Model<Row, Rec>, tokens: seq<Token>, n: nat)
    requires cache.Holds(model, tokens) && n <= |tokens|
    requires model.initial.None? || n == |tokens|
    ensures cache.Holds(model, tokens[..n])
  {
    model.RowsOfPrefix(tokens, n);
    assert cache.rows[..n] == cache.rows[..|tokens|][..n];
    assert n == |tokens| ==> tokens[..n] == tokens;
  }
}
