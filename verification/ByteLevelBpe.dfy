/**
 Byte-level BPE: the merge table built from vocabulary metadata, encoding of whole texts, and
 decoding of single tokens. Decoding what was encoded gives the text's bytes back.
 */
module ByteLevelBpe {
  import opened Wrappers
  import opened Sequences
  import opened Search
  import opened Utf8
  import opened Utf8Stitching
  import opened ByteAlphabet
  import opened ReferenceMerge
  import opened FastMerge
  import opened Regex
  import opened TekkenSplitter
  import opened Splitters
  import opened QwenSplitter

  type Token = nat

  /** The tables of a byte-level tokenizer. */
  datatype Tokenizer = Tokenizer(
    vocab: seq<string>,
    tokenToId: map<string, Token>,
    /** Merge rank and merged token of a mergeable pair. */
    bpeMerges: map<(Token, Token), (nat, Token)>,
    byteEncoder: seq<char>,
    byteDecoder: map<char, Byte>,
    byteTokenIds: seq<Option<Token>>,
    singleByteIds: seq<Option<Token>>)
  {
    function Lookup(piece: string): Option<Token>
    {
      if piece in tokenToId then Some(tokenToId[piece]) else None
    }

    ghost predicate IdsValid()
    {
      && (forall w :: w in tokenToId ==> tokenToId[w] < |vocab| && vocab[tokenToId[w]] == w)
      && (forall i :: 0 <= i < |vocab| ==> vocab[i] in tokenToId)
    }

    /** A merged token spells its two parts one after the other. */
    ghost predicate MergesValid()
    {
      forall l, r :: (l, r) in bpeMerges ==> Spells(vocab, l, r, bpeMerges[(l, r)].1)
    }

    ghost predicate BytesValid()
    {
      && Inverse(byteEncoder, byteDecoder)
      && |byteTokenIds| == |singleByteIds| == 256
      && (forall b :: 0 <= b < 256 ==> byteTokenIds[b] == Lookup(HexToken(b)))
      && (forall b :: 0 <= b < 256 ==> singleByteIds[b] == Lookup([byteEncoder[b]]))
    }

    ghost predicate Valid()
    {
      IdsValid() && MergesValid() && BytesValid()
    }

    /** The text of a token, byte by remapped byte; other characters keep their encoding. */
    function DecodeRaw(raw: string): Bytes
    {
      if raw == [] then []
      else (if raw[0] in byteDecoder then [byteDecoder[raw[0]]] else EncodeChar(raw[0])) + DecodeRaw(raw[1..])
    }

    function DecodeToken(id: Token): Bytes
    {
      DecodeRaw(if id < |vocab| then vocab[id] else "")
    }

    /** The bytes a token stands for; they need not be whole characters. */
    method DecodeTokenBytes(id: Token) returns (bytes: Bytes)
      ensures bytes == DecodeToken(id)
    {
      var raw := if id < |vocab| then vocab[id] else "";
      bytes := [];
      for i := 0 to |raw|
        invariant bytes + DecodeRaw(raw[i..]) == DecodeRaw(raw)
      {
        var next := if raw[i] in byteDecoder then [byteDecoder[raw[i]]] else EncodeChar(raw[i]);
        assert raw[i..][1..] == raw[i + 1..];
        Associate(bytes, next, DecodeRaw(raw[i + 1..]));
        bytes := bytes + next;
      }
    }

    /** A character that stands for a byte is that byte, and any other keeps its encoding; unknown tokens mean nothing. */
    lemma CharacterDecodes(c: char, id: Token)
      requires BytesValid()
      ensures
        if exists b: nat :: b < 256 && byteEncoder[b] == c then
          exists b: Byte :: byteEncoder[b] == c && DecodeRaw([c]) == [b]
        else DecodeRaw([c]) == EncodeChar(c)
      ensures id >= |vocab| ==> DecodeToken(id) == []
    {
      assert [c][1..] == [] && DecodeRaw([]) == [];
      if c in byteDecoder {
        var b: Byte := byteDecoder[c];
        assert byteEncoder[b] == c && DecodeRaw([c]) == [b];
      }
    }

    function DecodeAll(ids: seq<Token>): Bytes
    {
      if ids == [] then [] else DecodeToken(ids[0]) + DecodeAll(ids[1..])
    }

    lemma {:induction false} DecodeRawConcat(a: string, b: string)
      ensures DecodeRaw(a + b) == DecodeRaw(a) + DecodeRaw(b)
      decreases |a|
    {
      if a == [] {
        assert a + b == b;
      } else {
        assert (a + b)[1..] == a[1..] + b;
        DecodeRawConcat(a[1..], b);
        Associate(if a[0] in byteDecoder then [byteDecoder[a[0]]] else EncodeChar(a[0]), DecodeRaw(a[1..]), DecodeRaw(b));
      }
    }

    lemma {:induction false} DecodeAllConcat(a: seq<Token>, b: seq<Token>)
      ensures DecodeAll(a + b) == DecodeAll(a) + DecodeAll(b)
      decreases |a|
    {
      if a == [] {
        assert a + b == b;
      } else {
        assert (a + b)[1..] == a[1..] + b;
        DecodeAllConcat(a[1..], b);
        Associate(DecodeToken(a[0]), DecodeAll(a[1..]), DecodeAll(b));
      }
    }

    lemma DecodeOne(id: Token)
      ensures DecodeAll([id]) == DecodeToken(id)
    {
      assert DecodeToken(id) + [] == DecodeToken(id);
    }

    /** The merge table as the merge pass reads it: a lower rank is a larger key. */
    function Pairs(): PairTable<Token>
    {
      (l, r) => if (l, r) in bpeMerges then Some(Merge(-(bpeMerges[(l, r)].0 as int), bpeMerges[(l, r)].1)) else None
    }

    /** The pair at `i` has the lowest rank of all adjacent pairs with a rule, and is the leftmost of those. */
    ghost predicate IsLowestRank(s: seq<Token>, i: nat)
    {
      && i + 1 < |s| && (s[i], s[i + 1]) in bpeMerges
      && forall j :: 0 <= j < |s| - 1 && j != i && (s[j], s[j + 1]) in bpeMerges ==>
           || bpeMerges[(s[i], s[i + 1])].0 < bpeMerges[(s[j], s[j + 1])].0
           || (bpeMerges[(s[i], s[i + 1])].0 == bpeMerges[(s[j], s[j + 1])].0 && i < j)
    }

    /** The rule for the pair at `i` replaces it by its token. */
    function Joined(s: seq<Token>, i: nat): seq<Token>
      requires i + 1 < |s| && (s[i], s[i + 1]) in bpeMerges
    {
      s[..i] + [bpeMerges[(s[i], s[i + 1])].1] + s[i + 2..]
    }

    /**
     Merging by rank: as long as adjacent pairs have rules, the leftmost pair of lowest rank is
     replaced; the list that is left when none has a rule is `t`.
     */
    ghost predicate MergesByRank(s: seq<Token>, t: seq<Token>)
      decreases |s|
    {
      if forall i :: 0 <= i < |s| - 1 ==> (s[i], s[i + 1]) !in bpeMerges then t == s
      else exists i: nat :: IsLowestRank(s, i) && MergesByRank(Joined(s, i), t)
    }

    /** The merge of lowest rank comes first. */
    lemma LowestRankMergesFirst(s: seq<Token>, i: nat)
      requires IsLowestRank(s, i)
      ensures MergeAll(s, Pairs()) == MergeAll(Joined(s, i), Pairs())
    {
      LeftmostBestDecidesStep(s, Pairs(), i);
    }

    /** The merge pass merges by rank, and that has one outcome. */
    lemma {:induction false} MergesByRankIff(s: seq<Token>, t: seq<Token>)
      ensures MergesByRank(s, t) <==> t == MergeAll(s, Pairs())
      decreases |s|
    {
      if i: nat :| Mergeable(s, Pairs(), i) {
        var best := BestBefore(s, Pairs(), |s|).value;
        BestIsLowestRank(s, best);
        LowestRankMergesFirst(s, best);
        MergesByRankIff(Joined(s, best), t);
        forall j: nat | IsLowestRank(s, j)
          ensures j == best
        {
        }
      } else {
        forall i | 0 <= i < |s| - 1
          ensures (s[i], s[i + 1]) !in bpeMerges
        {
          assert !Mergeable(s, Pairs(), i);
        }
      }
    }

    lemma BestIsLowestRank(s: seq<Token>, i: nat)
      requires BestBefore(s, Pairs(), |s|) == Some(i)
      ensures IsLowestRank(s, i)
    {
      forall j | 0 <= j < |s| - 1 && j != i && (s[j], s[j + 1]) in bpeMerges
        ensures || bpeMerges[(s[i], s[i + 1])].0 < bpeMerges[(s[j], s[j + 1])].0
                || (bpeMerges[(s[i], s[i + 1])].0 == bpeMerges[(s[j], s[j + 1])].0 && i < j)
      {
        assert Mergeable(s, Pairs(), j) && Beats(s, Pairs(), i, j);
      }
    }

    /** No merge changes what a symbol list decodes to. */
    lemma MergeAtKeepsText(s: seq<Token>, i: nat)
      requires MergesValid() && Mergeable(s, Pairs(), i)
      ensures DecodeAll(MergeAt(s, Pairs(), i)) == DecodeAll(s)
    {
      var m := bpeMerges[(s[i], s[i + 1])].1;
      MergedTokenDecodes(s[i], s[i + 1]);
      AroundPair(s, i);
      ReplaceMiddle(s[..i], [s[i], s[i + 1]], [m], s[i + 2..]);
    }

    /** A merged token decodes to what its two parts decode to. */
    lemma MergedTokenDecodes(l: Token, r: Token)
      requires MergesValid() && (l, r) in bpeMerges
      ensures DecodeAll([bpeMerges[(l, r)].1]) == DecodeAll([l, r])
    {
      var m := bpeMerges[(l, r)].1;
      assert Spells(vocab, l, r, m);
      DecodeRawConcat(vocab[l], vocab[r]);
      DecodeOne(m);
      DecodeOne(r);
      assert [l, r][1..] == [r];
    }

    lemma AroundPair(s: seq<Token>, i: nat)
      requires i + 1 < |s|
      ensures s == s[..i] + [s[i], s[i + 1]] + s[i + 2..]
    {
    }

    lemma ReplaceMiddle(a: seq<Token>, b: seq<Token>, c: seq<Token>, d: seq<Token>)
      requires DecodeAll(b) == DecodeAll(c)
      ensures DecodeAll(a + b + d) == DecodeAll(a + c + d)
    {
      DecodeAllConcat(a + b, d);
      DecodeAllConcat(a, b);
      DecodeAllConcat(a + c, d);
      DecodeAllConcat(a, c);
    }

    lemma MergingKeepsText(s: seq<Token>)
      requires MergesValid()
      ensures DecodeAll(MergeAll(s, Pairs())) == DecodeAll(s)
    {
      var text := DecodeAll(s);
      var good := (t: seq<Token>) => DecodeAll(t) == text;
      forall t: seq<Token>, i: nat | good(t) && Mergeable(t, Pairs(), i)
        ensures good(MergeAt(t, Pairs(), i))
      {
        MergeAtKeepsText(t, i);
      }
      MergeAllKeeps(s, Pairs(), good);
    }

    /** The byte-fallback tokens of a piece that is not in the vocabulary. */
    function FallbackIds(bytes: Bytes): seq<Token>
      requires |byteTokenIds| == 256
    {
      if bytes == [] then []
      else (if byteTokenIds[bytes[0]].Some? then [byteTokenIds[bytes[0]].value] else []) + FallbackIds(bytes[1..])
    }

    /** Bytes that all have fallback tokens become these, one each. */
    lemma {:induction false} FallbackIsByByte(bytes: Bytes)
      requires |byteTokenIds| == 256 && forall i :: 0 <= i < |bytes| ==> byteTokenIds[bytes[i]].Some?
      ensures |FallbackIds(bytes)| == |bytes|
      ensures forall i :: 0 <= i < |bytes| ==> FallbackIds(bytes)[i] == byteTokenIds[bytes[i]].value
      decreases |bytes|
    {
      if bytes != [] {
        FallbackIsByByte(bytes[1..]);
      }
    }

    /** The symbols a byte is turned into before merging. */
    function ByteSymbols(b: Byte): seq<Token>
      requires |byteTokenIds| == |singleByteIds| == 256 && |byteEncoder| == 256
    {
      if singleByteIds[b].Some? then [singleByteIds[b].value] else FallbackIds(EncodeChar(byteEncoder[b]))
    }

    /** What the symbols of `bytes` decode to. */
    function Meaning(bytes: Bytes): Bytes
      requires |byteTokenIds| == |singleByteIds| == 256 && |byteEncoder| == 256
    {
      if bytes == [] then [] else DecodeAll(ByteSymbols(bytes[0])) + Meaning(bytes[1..])
    }

    predicate Knows(b: Byte)
      requires |singleByteIds| == 256
    {
      singleByteIds[b].Some?
    }

    lemma KnownByteDecodes(b: Byte)
      requires IdsValid() && BytesValid() && Knows(b)
      ensures DecodeAll(ByteSymbols(b)) == [b]
    {
      DecodeOne(singleByteIds[b].value);
      var raw := [byteEncoder[b]];
      assert raw[1..] == [];
      assert DecodeRaw(raw) == [b] + [];
    }

    /** Bytes whose symbols are all in the vocabulary survive encoding. */
    lemma {:induction false} KnownBytesDecode(bytes: Bytes)
      requires IdsValid() && BytesValid() && KnowsBytes(bytes)
      ensures Meaning(bytes) == bytes
      decreases |bytes|
    {
      if bytes != [] {
        KnownByteDecodes(bytes[0]);
        KnownBytesDecode(bytes[1..]);
        assert bytes == [bytes[0]] + bytes[1..];
      }
    }

    /** A byte-fallback token decodes to its six-character spelling, not to its byte. */
    lemma FallbackTokenLength(b: Byte)
      requires IdsValid() && BytesValid() && byteTokenIds[b].Some?
      ensures |DecodeToken(byteTokenIds[b].value)| == 6
    {
      SpellingLength(HexToken(b));
    }

    lemma {:induction false} FallbackLength(bytes: Bytes)
      requires IdsValid() && BytesValid()
      ensures |DecodeAll(FallbackIds(bytes))| == 0 || |DecodeAll(FallbackIds(bytes))| >= 6
      decreases |bytes|
    {
      if bytes != [] {
        FallbackLength(bytes[1..]);
        var id, rest := byteTokenIds[bytes[0]], FallbackIds(bytes[1..]);
        if id.Some? {
          FallbackTokenLength(bytes[0]);
          assert ([id.value] + rest)[1..] == rest;
        } else {
          assert [] + rest == rest;
        }
      }
    }

    /** Plain ASCII decodes to as many bytes as it has characters. */
    lemma {:induction false} SpellingLength(word: string)
      requires forall i :: 0 <= i < |word| ==> word[i] as int < 0x80
      ensures |DecodeRaw(word)| == |word|
      decreases |word|
    {
      if word != [] {
        SpellingLength(word[1..]);
      }
    }

    /** A byte without a symbol of its own never comes back as one byte. */
    lemma UnknownByteIsLost(b: Byte)
      requires IdsValid() && BytesValid() && !Knows(b)
      ensures |DecodeAll(ByteSymbols(b))| == 0 || |DecodeAll(ByteSymbols(b))| >= 6
    {
      FallbackLength(EncodeChar(byteEncoder[b]));
    }

    lemma {:induction false} MeaningLength(bytes: Bytes)
      requires IdsValid() && BytesValid()
      ensures |Meaning(bytes)| >= 6 || |Meaning(bytes)| <= |bytes|
      ensures |Meaning(bytes)| == |bytes| && |bytes| < 6 ==> forall i :: 0 <= i < |bytes| ==> Knows(bytes[i])
      decreases |bytes|
    {
      if bytes != [] {
        MeaningLength(bytes[1..]);
        if Knows(bytes[0]) {
          KnownByteDecodes(bytes[0]);
        } else {
          UnknownByteIsLost(bytes[0]);
        }
      }
    }

    /** Each of these bytes has a symbol of its own. */
    ghost predicate KnowsBytes(bytes: Bytes)
      requires |singleByteIds| == 256
    {
      forall i :: 0 <= i < |bytes| ==> Knows(bytes[i])
    }

    /** The pre-token has a token of its own, or each of its bytes has a symbol. */
    ghost predicate Survives(wholeWords: bool, piece: string)
      requires |singleByteIds| == |byteEncoder| == 256
    {
      WholeWord(wholeWords, piece).Some? || KnowsBytes(EncodeString(piece))
    }

    /** A single character survives encoding exactly if it is a whole word or all its bytes have symbols. */
    lemma CharacterSurvivesIff(wholeWords: bool, c: char)
      requires IdsValid() && BytesValid()
      ensures PieceText(wholeWords, [c]) == EncodeChar(c) <==> Survives(wholeWords, [c])
    {
      var piece := [c];
      assert piece[1..] == [] && EncodeString(piece) == EncodeChar(c);
      MeaningLength(EncodeChar(c));
      if KnowsBytes(EncodeChar(c)) {
        KnownBytesDecode(EncodeChar(c));
      }
    }

    /** The remapped spelling of bytes, one character each. */
    function Remap(bytes: Bytes): string
      requires |byteEncoder| == 256
    {
      if bytes == [] then [] else [byteEncoder[bytes[0]]] + Remap(bytes[1..])
    }

    lemma {:induction false} RemapDecodes(bytes: Bytes)
      requires Inverse(byteEncoder, byteDecoder)
      ensures DecodeRaw(Remap(bytes)) == bytes
      decreases |bytes|
    {
      if bytes != [] {
        RemapDecodes(bytes[1..]);
        assert Remap(bytes)[1..] == Remap(bytes[1..]);
        assert bytes == [bytes[0]] + bytes[1..];
      }
    }

    method EncodePiece(piece: string, out: seq<Token>) returns (ids: seq<Token>)
      requires IdsValid() && |byteTokenIds| == 256
      ensures ids == out + if piece in tokenToId then [tokenToId[piece]] else FallbackIds(EncodeString(piece))
    {
      ids := out;
      if piece in tokenToId {
        ids := ids + [tokenToId[piece]];
      } else {
        ids := AppendFallback(EncodeString(piece), ids);
      }
    }

    /** Falls back to one token per byte, skipping bytes that have none. */
    method AppendFallback(bytes: Bytes, out: seq<Token>) returns (ids: seq<Token>)
      requires |byteTokenIds| == 256
      ensures ids == out + FallbackIds(bytes)
    {
      ids := out;
      for i := 0 to |bytes|
        invariant ids + FallbackIds(bytes[i..]) == out + FallbackIds(bytes)
      {
        assert bytes[i..][1..] == bytes[i + 1..];
        if byteTokenIds[bytes[i]].Some? {
          var id := byteTokenIds[bytes[i]].value;
          Associate(ids, [id], FallbackIds(bytes[i + 1..]));
          ids := ids + [id];
        } else {
          assert [] + FallbackIds(bytes[i + 1..]) == FallbackIds(bytes[i + 1..]);
        }
      }
    }

    method AppendByte(b: Byte, symbols: seq<Token>) returns (extended: seq<Token>)
      requires IdsValid() && BytesValid()
      ensures extended == symbols + ByteSymbols(b)
    {
      if singleByteIds[b].Some? {
        extended := symbols + [singleByteIds[b].value];
      } else {
        var symbol := [byteEncoder[b]];
        assert singleByteIds[b] == Lookup(symbol);
        assert symbol[1..] == [] && EncodeString(symbol) == EncodeChar(byteEncoder[b]);
        extended := EncodePiece(symbol, symbols);
      }
    }

    /** The symbol list that merging starts from. */
    function SymbolsOf(bytes: Bytes): seq<Token>
      requires |byteTokenIds| == |singleByteIds| == 256 && |byteEncoder| == 256
    {
      if bytes == [] then [] else ByteSymbols(bytes[0]) + SymbolsOf(bytes[1..])
    }

    lemma {:induction false} SymbolsMean(bytes: Bytes)
      requires |byteTokenIds| == |singleByteIds| == 256 && |byteEncoder| == 256
      ensures DecodeAll(SymbolsOf(bytes)) == Meaning(bytes)
      decreases |bytes|
    {
      if bytes != [] {
        SymbolsMean(bytes[1..]);
        DecodeAllConcat(ByteSymbols(bytes[0]), SymbolsOf(bytes[1..]));
      }
    }

    /** The initial symbol list of one pre-token. */
    method ByteSymbolList(bytes: Bytes) returns (symbols: seq<Token>)
      requires IdsValid() && BytesValid()
      ensures symbols == SymbolsOf(bytes)
    {
      symbols := [];
      for i := 0 to |bytes|
        invariant symbols + SymbolsOf(bytes[i..]) == SymbolsOf(bytes)
      {
        assert bytes[i..][1..] == bytes[i + 1..];
        Associate(symbols, ByteSymbols(bytes[i]), SymbolsOf(bytes[i + 1..]));
        symbols := AppendByte(bytes[i], symbols);
      }
    }

    /** The token of a whole pre-token, if the vocabulary has it. */
    function WholeWord(wholeWords: bool, piece: string): Option<Token>
      requires |byteEncoder| == 256
    {
      if wholeWords then Lookup(Remap(EncodeString(piece))) else None
    }

    /** The tokens of one pre-token, as the rescanning merge loop leaves them. */
    function PieceIds(wholeWords: bool, piece: string): seq<Token>
      requires |byteTokenIds| == |singleByteIds| == 256 && |byteEncoder| == 256
    {
      match WholeWord(wholeWords, piece)
      case Some(id) => [id]
      case None => MergeAll(SymbolsOf(EncodeString(piece)), Pairs())
    }

    function PiecesIds(wholeWords: bool, pieces: seq<string>): seq<Token>
      requires |byteTokenIds| == |singleByteIds| == 256 && |byteEncoder| == 256
    {
      if pieces == [] then [] else PieceIds(wholeWords, pieces[0]) + PiecesIds(wholeWords, pieces[1..])
    }

    /** What encoding one pre-token and decoding it again gives. */
    function PieceText(wholeWords: bool, piece: string): Bytes
      requires |byteTokenIds| == |singleByteIds| == 256 && |byteEncoder| == 256
    {
      if WholeWord(wholeWords, piece).Some? then EncodeString(piece) else Meaning(EncodeString(piece))
    }

    function PiecesText(wholeWords: bool, pieces: seq<string>): Bytes
      requires |byteTokenIds| == |singleByteIds| == 256 && |byteEncoder| == 256
    {
      if pieces == [] then [] else PieceText(wholeWords, pieces[0]) + PiecesText(wholeWords, pieces[1..])
    }

    lemma PieceIdsDecode(wholeWords: bool, piece: string)
      requires Valid()
      ensures DecodeAll(PieceIds(wholeWords, piece)) == PieceText(wholeWords, piece)
    {
      var bytes := EncodeString(piece);
      match WholeWord(wholeWords, piece)
      case Some(id) =>
        DecodeOne(id);
        RemapDecodes(bytes);
      case None =>
        MergingKeepsText(SymbolsOf(bytes));
        SymbolsMean(bytes);
    }

    lemma {:induction false} PiecesIdsDecode(wholeWords: bool, pieces: seq<string>)
      requires Valid()
      ensures DecodeAll(PiecesIds(wholeWords, pieces)) == PiecesText(wholeWords, pieces)
      decreases |pieces|
    {
      if pieces != [] {
        PieceIdsDecode(wholeWords, pieces[0]);
        PiecesIdsDecode(wholeWords, pieces[1..]);
        DecodeAllConcat(PieceIds(wholeWords, pieces[0]), PiecesIds(wholeWords, pieces[1..]));
      }
    }

    /** Encodes one pre-token: whole if the vocabulary has it, otherwise by merging. */
    method EncodePretoken(wholeWords: bool, piece: string) returns (ids: seq<Token>)
      requires Valid()
      ensures ids == PieceIds(wholeWords, piece)
      ensures wholeWords && Remap(EncodeString(piece)) in tokenToId ==> ids == [tokenToId[Remap(EncodeString(piece))]]
      ensures !(wholeWords && Remap(EncodeString(piece)) in tokenToId) ==> MergesByRank(SymbolsOf(EncodeString(piece)), ids)
    {
      var bytes := EncodeString(piece);
      if wholeWords {
        var encoded := Remap(bytes);
        if encoded in tokenToId {
          return [tokenToId[encoded]];
        }
      }
      var symbols := ByteSymbolList(bytes);
      var slots := new Token[|symbols|](i requires 0 <= i < |symbols| => symbols[i]);
      assert slots[..] == symbols;
      ghost var merges, queued;
      ids, merges, queued := MergeSymbols(slots, Pairs());
      MergesByRankIff(symbols, ids);
    }

    /** A piece is its whole-word token, if those are looked up and there is one, or its bytes' symbols merged by rank. */
    ghost predicate IsEncoded(wholeWords: bool, piece: string, ids: seq<Token>)
      requires |byteTokenIds| == |singleByteIds| == 256 && |byteEncoder| == 256
    {
      var word := Remap(EncodeString(piece));
      if wholeWords && word in tokenToId then ids == [tokenToId[word]]
      else MergesByRank(SymbolsOf(EncodeString(piece)), ids)
    }

    /** The tokens of all pieces, piece by piece. */
    ghost predicate AreEncoded(wholeWords: bool, pieces: seq<string>, ids: seq<Token>)
      requires |byteTokenIds| == |singleByteIds| == 256 && |byteEncoder| == 256
      decreases |pieces|
    {
      if pieces == [] then ids == []
      else exists first, rest ::
          ids == first + rest && IsEncoded(wholeWords, pieces[0], first) && AreEncoded(wholeWords, pieces[1..], rest)
    }

    lemma {:induction false} PiecesAreEncoded(wholeWords: bool, pieces: seq<string>)
      requires Valid()
      ensures AreEncoded(wholeWords, pieces, PiecesIds(wholeWords, pieces))
      decreases |pieces|
    {
      if pieces != [] {
        PieceIsEncoded(wholeWords, pieces[0]);
        PiecesAreEncoded(wholeWords, pieces[1..]);
      }
    }

    lemma PieceIsEncoded(wholeWords: bool, piece: string)
      requires Valid()
      ensures IsEncoded(wholeWords, piece, PieceIds(wholeWords, piece))
    {
      MergesByRankIff(SymbolsOf(EncodeString(piece)), MergeAll(SymbolsOf(EncodeString(piece)), Pairs()));
    }

    /** Encodes the pieces in order. */
    method EncodePieces(wholeWords: bool, pieces: seq<string>) returns (out: seq<Token>)
      requires Valid()
      ensures out == PiecesIds(wholeWords, pieces)
    {
      out := [];
      for i := 0 to |pieces|
        invariant out + PiecesIds(wholeWords, pieces[i..]) == PiecesIds(wholeWords, pieces)
      {
        var ids := EncodePretoken(wholeWords, pieces[i]);
        assert pieces[i..][1..] == pieces[i + 1..];
        Associate(out, ids, PiecesIds(wholeWords, pieces[i + 1..]));
        out := out + ids;
      }
    }

    lemma {:induction false} KnownPiecesDecode(wholeWords: bool, pieces: seq<string>)
      requires IdsValid() && BytesValid() && forall i :: 0 <= i < |pieces| ==> Survives(wholeWords, pieces[i])
      ensures PiecesText(wholeWords, pieces) == EncodeString(Join(pieces))
      decreases |pieces|
    {
      if pieces != [] {
        assert Survives(wholeWords, pieces[0]);
        if KnowsBytes(EncodeString(pieces[0])) {
          KnownBytesDecode(EncodeString(pieces[0]));
        }
        KnownPiecesDecode(wholeWords, pieces[1..]);
        EncodeConcat(pieces[0], Join(pieces[1..]));
      }
    }

    /** If the bytes of a text have symbols, those of its pieces do. */
    lemma {:induction false} KnownTextSurvives(wholeWords: bool, pieces: seq<string>)
      requires IdsValid() && BytesValid() && KnowsBytes(EncodeString(Join(pieces)))
      ensures forall i :: 0 <= i < |pieces| ==> Survives(wholeWords, pieces[i])
      decreases |pieces|
    {
      if pieces != [] {
        EncodeConcat(pieces[0], Join(pieces[1..]));
        KnownParts(EncodeString(pieces[0]), EncodeString(Join(pieces[1..])));
        KnownTextSurvives(wholeWords, pieces[1..]);
        forall i | 0 <= i < |pieces|
          ensures Survives(wholeWords, pieces[i])
        {
          if i > 0 {
            assert pieces[i] == pieces[1..][i - 1];
          }
        }
      }
    }

    lemma KnownParts(a: Bytes, b: Bytes)
      requires |singleByteIds| == 256 && KnowsBytes(a + b)
      ensures KnowsBytes(a) && KnowsBytes(b)
    {
      assert forall i :: 0 <= i < |a| ==> (a + b)[i] == a[i];
      assert forall i :: 0 <= i < |b| ==> (a + b)[|a| + i] == b[i];
    }

    lemma {:induction false} KnownCharactersAreKnownText(text: string)
      requires |singleByteIds| == 256 && forall c :: KnowsBytes(EncodeChar(c))
      ensures KnowsBytes(EncodeString(text))
      decreases |text|
    {
      if text != [] {
        KnownCharactersAreKnownText(text[1..]);
        assert KnowsBytes(EncodeChar(text[0]));
      }
    }

    /** A text of one character is its own only piece. */
    lemma SingleCharacter(c: char)
      requires Valid()
      ensures Partition([[c]], [c])
      ensures DecodeAll(PiecesIds(false, [[c]])) == EncodeString([c]) <==> KnowsBytes(EncodeChar(c))
    {
      var pieces: seq<string> := [[c]];
      assert pieces[1..] == [] && Join(pieces) == [c] + [];
      assert [c][1..] == [] && EncodeString([c]) == EncodeChar(c);
      PiecesIdsDecode(false, pieces);
      assert PiecesText(false, pieces) == PieceText(false, [c]) + [];
      CharacterSurvivesIff(false, c);
    }

    /** However texts are cut, without whole words: they decode to their bytes. */
    ghost predicate AllTextsSurvive()
      requires |byteTokenIds| == |singleByteIds| == 256 && |byteEncoder| == 256
    {
      forall text: string, cut: seq<string> :: Partition(cut, text) ==> DecodeAll(PiecesIds(false, cut)) == EncodeString(text)
    }

    /** Every text survives, under every splitter without whole words, exactly if all bytes of all characters have symbols. */
    lemma TextsSurviveIff()
      requires Valid()
      ensures AllTextsSurvive() <==> forall c :: KnowsBytes(EncodeChar(c))
    {
      if AllTextsSurvive() {
        forall c
          ensures KnowsBytes(EncodeChar(c))
        {
          SingleCharacter(c);
        }
      }
      if forall c :: KnowsBytes(EncodeChar(c)) {
        forall text: string, cut: seq<string> | Partition(cut, text)
          ensures DecodeAll(PiecesIds(false, cut)) == EncodeString(text)
        {
          KnownCharactersAreKnownText(text);
          KnownTextSurvives(false, cut);
          PiecesIdsDecode(false, cut);
          KnownPiecesDecode(false, cut);
        }
      }
    }

    /** Encodes text with byte-level BPE, under whichever splitter the model calls for. */
    method EncodeGpt2Bpe(kind: Splitter, text: string) returns (ids: seq<Token>, ghost cut: seq<string>)
      requires Valid() && kind.Sane()
      ensures Partition(cut, text) && ids == PiecesIds(kind.Tekken?, cut) && AreEncoded(kind.Tekken?, cut, ids)
      ensures cut == Split(kind.Matcher(), text, 0)
      ensures kind.Matcher() == match kind case Gpt2(u) => Splitters.Gpt2(u) case Tekken(u) => TekkenSplitter.Tekken(u) case Qwen35(q) => Qwen(q)
      ensures (forall i :: 0 <= i < |cut| ==> Survives(kind.Tekken?, cut[i])) ==> DecodeAll(ids) == EncodeString(text)
      ensures KnowsBytes(EncodeString(text)) ==> DecodeAll(ids) == EncodeString(text)
    {
      var pieces: seq<string>;
      if kind.Qwen35? {
        pieces := PretokenizeQwen35(kind.q, text);
        QwenIsTotal(kind.q);
      } else if kind.Tekken? {
        pieces := PretokenizeTekken(kind.u, text);
        TekkenIsTotal(kind.u);
      } else {
        pieces := PretokenizeGpt2(kind.u, text);
        Gpt2IsTotal(kind.u);
      }
      SplitPartitions(kind.Matcher(), text, 0);
      assert text[0..] == text;
      cut := pieces;
      ids := EncodePieces(kind.Tekken?, pieces);
      PiecesIdsDecode(kind.Tekken?, pieces);
      PiecesAreEncoded(kind.Tekken?, pieces);
      if KnowsBytes(EncodeString(text)) {
        KnownTextSurvives(kind.Tekken?, pieces);
      }
      if forall i :: 0 <= i < |pieces| ==> Survives(kind.Tekken?, pieces[i]) {
        KnownPiecesDecode(kind.Tekken?, pieces);
      }
    }
  }

  /** The pre-tokenizer a byte-level model uses. Only Tekken has the whole-word shortcut. */
  datatype Splitter = Gpt2(u: Classes) | Tekken(u: Classes) | Qwen35(q: QwenClasses)
  {
    ghost predicate Sane()
    {
      match this
      case Gpt2(u) => u.Apart()
      case Tekken(u) => u.Sane()
      case Qwen35(q) => q.Sane()
    }

    /** The pattern whose matches are the pieces. */
    ghost function Matcher(): (p: Pattern)
      requires Sane()
      ensures Total(p)
    {
      match this
      case Gpt2(u) => Gpt2IsTotal(u); Splitters.Gpt2(u)
      case Tekken(u) => TekkenIsTotal(u); TekkenSplitter.Tekken(u)
      case Qwen35(q) => QwenIsTotal(q); Qwen(q)
    }
  }

  function HexDigit(d: int): char
    requires 0 <= d < 16
  {
    "0123456789ABCDEF"[d]
  }

  /** The spelling of a byte-fallback token. */
  function HexToken(b: Byte): (token: string)
    ensures |token| == 6 && forall i :: 0 <= i < 6 ==> token[i] as int < 0x80
  {
    "<0x" + [HexDigit(b / 16), HexDigit(b % 16)] + ">"
  }

  /** The value of an upper-case hexadecimal digit. */
  function UpperHexValue(c: char): (d: Option<nat>)
  {
    if '0' <= c <= '9' then Some((c - '0') as nat)
    else if 'A' <= c <= 'F' then Some((c - 'A') as nat + 10)
    else None
  }

  /** The spelling is the byte's two upper-case digits in its brackets. */
  lemma HexTokenSpells(b: Byte)
    ensures HexToken(b)[..3] == "<0x" && HexToken(b)[5] == '>'
    ensures UpperHexValue(HexToken(b)[3]).Some? && UpperHexValue(HexToken(b)[4]).Some?
    ensures UpperHexValue(HexToken(b)[3]).value * 16 + UpperHexValue(HexToken(b)[4]).value == b
  {
    HexDigitValue(b / 16);
    HexDigitValue(b % 16);
  }

  lemma HexDigitValue(d: nat)
    requires d < 16
    ensures UpperHexValue(HexDigit(d)) == Some(d)
  {
    var digits := "0123456789ABCDEF";
    assert d < 10 ==> digits[d] == '0' + d as char;
    assert d >= 10 ==> digits[d] == 'A' + (d - 10) as char;
  }

  /** Numbers the vocabulary; of equal entries the last one keeps the name. */
  method NumberVocabulary(vocab: seq<string>) returns (ids: map<string, Token>)
    ensures forall w :: w in ids ==> ids[w] < |vocab| && vocab[ids[w]] == w
    ensures forall i :: 0 <= i < |vocab| ==> vocab[i] in ids && i <= ids[vocab[i]]
  {
    ids := map[];
    for i := 0 to |vocab|
      invariant forall w :: w in ids ==> ids[w] < i && vocab[ids[w]] == w
      invariant forall j :: 0 <= j < i ==> vocab[j] in ids && j <= ids[vocab[j]]
    {
      ids := ids[vocab[i] := i];
    }
  }

  /** A merge spells its two parts one after the other. */
  ghost predicate Spells(vocab: seq<string>, l: Token, r: Token, m: Token)
  {
    l < |vocab| && r < |vocab| && m < |vocab| && vocab[m] == vocab[l] + vocab[r]
  }

  /** The rule of a rank merges `l` and `r` into `m`: both parts and their concatenation are tokens. */
  ghost predicate Rules(ids: map<string, Token>, rules: seq<string>, rank: nat, l: Token, r: Token, m: Token)
  {
    rank < |rules| &&
    var space := Find(rules[rank], " ");
    space.Some? &&
    var (left, right) := (rules[rank][..space.value], rules[rank][space.value + 1..]);
    && left in ids && right in ids && left + right in ids
    && (ids[left], ids[right], ids[left + right]) == (l, r, m)
  }

  /** The table holds, for every pair with a usable rule below `limit`, the last one. */
  ghost predicate Tabulates(
    merges: map<(Token, Token), (nat, Token)>, ids: map<string, Token>, rules: seq<string>, limit: nat)
  {
    && (forall l: nat, r: nat :: (l, r) in merges ==>
          merges[(l, r)].0 < limit && Rules(ids, rules, merges[(l, r)].0, l, r, merges[(l, r)].1))
    && (forall rank: nat, l: nat, r: nat, m: nat :: rank < limit && Rules(ids, rules, rank, l, r, m) ==>
          (l, r) in merges && rank <= merges[(l, r)].0)
  }

  /** A rule that is not usable changes nothing; any other replaces what was known of its pair. */
  lemma TabulateNext(merges: map<(Token, Token), (nat, Token)>, ids: map<string, Token>, rules: seq<string>, rank: nat)
    requires Tabulates(merges, ids, rules, rank) && rank < |rules|
    ensures (forall l: nat, r: nat, m: nat :: !Rules(ids, rules, rank, l, r, m)) ==> Tabulates(merges, ids, rules, rank + 1)
    ensures forall l: nat, r: nat, m: nat :: Rules(ids, rules, rank, l, r, m) ==>
              Tabulates(merges[(l, r) := (rank, m)], ids, rules, rank + 1)
  {
    forall l: nat, r: nat, m: nat | Rules(ids, rules, rank, l, r, m)
      ensures Tabulates(merges[(l, r) := (rank, m)], ids, rules, rank + 1)
    {
    }
  }

  /** Reads the merge rules; the rank of a rule is its position. */
  method ReadMerges(ids: map<string, Token>, rules: seq<string>) returns (merges: map<(Token, Token), (nat, Token)>)
    ensures Tabulates(merges, ids, rules, |rules|)
  {
    merges := map[];
    for rank := 0 to |rules|
      invariant Tabulates(merges, ids, rules, rank)
    {
      var (rule, space) := (rules[rank], Find(rules[rank], " "));
      TabulateNext(merges, ids, rules, rank);
      if space.Some? {
        var (left, right) := (rule[..space.value], rule[space.value + 1..]);
        if left + right in ids && left in ids && right in ids {
          assert Rules(ids, rules, rank, ids[left], ids[right], ids[left + right]);
          merges := merges[(ids[left], ids[right]) := (rank, ids[left + right])];
        }
      }
    }
  }

  lemma TabulatedSpells(
    vocab: seq<string>, merges: map<(Token, Token), (nat, Token)>, ids: map<string, Token>, rules: seq<string>)
    requires forall w :: w in ids ==> ids[w] < |vocab| && vocab[ids[w]] == w
    requires Tabulates(merges, ids, rules, |rules|)
    ensures forall l, r :: (l, r) in merges ==> Spells(vocab, l, r, merges[(l, r)].1)
  {
  }

  /** Builds the tables from vocabulary metadata. */
  method FromMetadata(vocab: seq<string>, rules: seq<string>) returns (t: Tokenizer)
    ensures t.Valid() && t.vocab == vocab && Tabulates(t.bpeMerges, t.tokenToId, rules, |rules|)
    ensures forall i :: 0 <= i < |vocab| ==> i <= t.tokenToId[vocab[i]]
    ensures forall b :: 0 <= b < 256 ==> t.byteEncoder[b] as int == CodePoint(b)
  {
    var ids := NumberVocabulary(vocab);
    var merges := ReadMerges(ids, rules);
    TabulatedSpells(vocab, merges, ids, rules);
    var enc, dec := BuildByteMaps();
    t := Tokenizer(vocab, ids, merges, enc, dec,
                   seq(256, b requires 0 <= b < 256 => if HexToken(b) in ids then Some(ids[HexToken(b)]) else None),
                   seq(256, b requires 0 <= b < 256 => if [enc[b]] in ids then Some(ids[[enc[b]]]) else None));
  }

  /** Encoding and then decoding as one stream of tokens returns the text. */
  method EncodeThenStream(t: Tokenizer, kind: Splitter, text: string) returns (out: Bytes)
    requires t.Valid() && kind.Sane() && t.KnowsBytes(EncodeString(text))
    ensures out == EncodeString(text)
  {
    var ids;
    ghost var cut;
    ids, cut := t.EncodeGpt2Bpe(kind, text);
    var chunks := seq(|ids|, i requires 0 <= i < |ids| => t.DecodeToken(ids[i]));
    out := DecodeStream(chunks);
    JoinOfDecoded(t, ids, chunks);
    EncodedIsValid(text);
    LossyIsValid(EncodeString(text));
  }

  lemma {:induction false} JoinOfDecoded(t: Tokenizer, ids: seq<Token>, chunks: seq<Bytes>)
    requires |chunks| == |ids| && forall i :: 0 <= i < |ids| ==> chunks[i] == t.DecodeToken(ids[i])
    ensures Join(chunks) == t.DecodeAll(ids)
    decreases |ids|
  {
    if ids != [] {
      JoinOfDecoded(t, ids[1..], chunks[1..]);
    }
  }
}
