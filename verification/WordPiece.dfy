/** Greedy longest-match segmentation of one normalized word. */
module WordPiece {
  import opened Wrappers
  import opened Sequences

  type Token = nat

  const WORD_START: char := '\U{2581}'

  datatype Vocabulary = Vocabulary(vocab: seq<string>, tokenToId: map<string, Token>, maxTokenChars: nat, unknown: Token)
  {
    ghost predicate Valid()
    {
      && (forall w :: w in tokenToId ==> tokenToId[w] < |vocab| && vocab[tokenToId[w]] == w)
      && (forall i :: 0 <= i < |vocab| ==> |vocab[i]| <= maxTokenChars)
    }

    /** `end` is the end of the longest vocabulary entry at `start`. */
    ghost predicate LongestMatch(text: string, start: nat, end: nat)
    {
      && start < end <= |text| && text[start..end] in tokenToId
      && forall e :: end < e <= |text| ==> text[start..e] !in tokenToId
    }

    /** The longest match that ends at or before `limit`, without any cap on its length. */
    function LongestUpTo(text: string, start: nat, limit: nat): (end: Option<nat>)
      requires start <= limit <= |text|
      ensures end.Some? ==> start < end.value <= limit && text[start..end.value] in tokenToId
      ensures end.Some? ==> forall e :: end.value < e <= limit ==> text[start..e] !in tokenToId
      ensures end.None? ==> forall e :: start < e <= limit ==> text[start..e] !in tokenToId
      decreases limit
    {
      if start == limit then None
      else if text[start..limit] in tokenToId then Some(limit)
      else LongestUpTo(text, start, limit - 1)
    }

    /** Entries longer than the longest vocabulary entry need not be looked up. */
    lemma {:induction false} CapIsHarmless(text: string, start: nat, limit: nat)
      requires Valid() && start <= limit <= |text|
      ensures LongestUpTo(text, start, limit)
           == LongestUpTo(text, start, if start + maxTokenChars < limit then start + maxTokenChars else limit)
      decreases limit
    {
      if start + maxTokenChars < limit {
        assert |text[start..limit]| > maxTokenChars;
        CapIsHarmless(text, start, limit - 1);
      }
    }

    /** The greedy segmentation from `start` on, if every position it reaches has a match. */
    function Segment(text: string, start: nat): (ids: Option<seq<Token>>)
      requires start <= |text|
      decreases |text| - start
    {
      if start == |text| then Some([])
      else
        match LongestUpTo(text, start, |text|)
        case None => None
        case Some(end) =>
          match Segment(text, end)
          case None => None
          case Some(rest) => Some([tokenToId[text[start..end]]] + rest)
    }

    function Text(id: Token): string
    {
      if id < |vocab| then vocab[id] else ""
    }

    function Texts(ids: seq<Token>): seq<string>
    {
      seq(|ids|, i requires 0 <= i < |ids| => Text(ids[i]))
    }

    /** The pieces spell the text, and each is the longest match at its place. */
    lemma {:induction false} SegmentationSpells(text: string, start: nat)
      requires Valid() && start <= |text| && Segment(text, start).Some?
      ensures Join(Texts(Segment(text, start).value)) == text[start..]
      ensures GreedyFrom(text, start, Segment(text, start).value)
      decreases |text| - start
    {
      if start < |text| {
        var end := LongestUpTo(text, start, |text|).value;
        var rest := Segment(text, end).value;
        SegmentationSpells(text, end);
        var id := tokenToId[text[start..end]];
        assert ([id] + rest)[1..] == rest && Text(id) == text[start..end];
        JoinOfTexts(id, rest);
        assert text[start..end] + text[end..] == text[start..];
      }
    }

    lemma JoinOfTexts(id: Token, rest: seq<Token>)
      ensures Join(Texts([id] + rest)) == Text(id) + Join(Texts(rest))
    {
      assert Texts([id] + rest)[1..] == Texts(rest);
    }

    /** Every piece is a longest match where it begins, and together they reach the end. */
    ghost predicate GreedyFrom(text: string, start: nat, ids: seq<Token>)
      decreases |ids|
    {
      if ids == [] then start == |text|
      else
        var end := start + |Text(ids[0])|;
        LongestMatch(text, start, end) && text[start..end] == Text(ids[0]) && GreedyFrom(text, end, ids[1..])
    }

    /** Greedy pieces are determined by the text: the segmentation is the only one of its kind. */
    lemma {:induction false} GreedyIsUnique(text: string, start: nat, ids: seq<Token>)
      requires Valid() && start <= |text| && GreedyFrom(text, start, ids)
      requires forall i :: 0 <= i < |ids| ==> Text(ids[i]) in tokenToId && ids[i] == tokenToId[Text(ids[i])]
      ensures Segment(text, start) == Some(ids)
      decreases |ids|
    {
      if ids != [] {
        var end := start + |Text(ids[0])|;
        GreedyIsUnique(text, end, ids[1..]);
        assert LongestUpTo(text, start, |text|) == Some(end);
        assert ids == [ids[0]] + ids[1..];
      }
    }

    /** Tries the widest window first. */
    method LongestWindow(text: string, start: nat) returns (end: Option<nat>)
      requires Valid() && start < |text|
      ensures end == LongestUpTo(text, start, |text|)
    {
      var stop := if start + maxTokenChars < |text| then start + maxTokenChars else |text|;
      CapIsHarmless(text, start, |text|);
      while stop > start
        invariant start <= stop <= |text| && LongestUpTo(text, start, stop) == LongestUpTo(text, start, |text|)
      {
        if text[start..stop] in tokenToId {
          return Some(stop);
        }
        stop := stop - 1;
      }
      end := None;
    }

    /**
     Appends the pieces of a word, or rewinds to where it began and appends the unknown token.
     Either way everything appended earlier stays as it was.
     */
    method EncodeWord(word: string, before: seq<Token>) returns (out: seq<Token>)
      requires Valid()
      ensures out == if word == [] then before
                     else before + if Segment(['\U{2581}'] + word, 0).Some? then Segment(['\U{2581}'] + word, 0).value
                                   else [unknown]
      ensures word != [] && Segment(['\U{2581}'] + word, 0).Some? ==>
                Join(Texts(out[|before|..])) == ['\U{2581}'] + word
    {
      out := before;
      if word == [] {
        return;
      }
      var prefixed := [WORD_START] + word;
      var mark := |out|;
      var start := 0;
      assert prefixed[0..] == prefixed;
      assert out[mark..] == [];
      assert Segment(prefixed, 0).Some? ==> [] + Segment(prefixed, 0).value == Segment(prefixed, 0).value;
      while start < |prefixed|
        invariant start <= |prefixed| && mark <= |out| && out[..mark] == before
        invariant
          match Segment(prefixed, start)
          case None => Segment(prefixed, 0).None?
          case Some(rest) => Segment(prefixed, 0) == Some(out[mark..] + rest)
      {
        var matched := LongestWindow(prefixed, start);
        if matched.None? {
          out := out[..mark] + [unknown];
          return;
        }
        var id := tokenToId[prefixed[start..matched.value]];
        assert (out + [id])[mark..] == out[mark..] + [id];
        ghost var kept := out[mark..];
        if Segment(prefixed, matched.value).Some? {
          Associate(kept, [id], Segment(prefixed, matched.value).value);
        }
        out := out + [id];
        start := matched.value;
      }
      assert out == before + out[mark..];
      SegmentationSpells(prefixed, 0);
    }
  }
}
