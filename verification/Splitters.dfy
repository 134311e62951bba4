/** The other pre-tokenizers. Whatever their rules, they cut a text without losing any of it. */
module Splitters {
  import opened Wrappers
  import opened Sequences
  import opened Regex
  import opened TekkenSplitter

  /** The pieces are non-empty, contiguous, and together the whole text. */
  ghost predicate Partition(pieces: seq<string>, text: string)
  {
    Join(pieces) == text && forall i :: 0 <= i < |pieces| ==> pieces[i] != []
  }

  lemma ExtendPartition(pieces: seq<string>, text: string, i: nat, end: nat)
    requires i < end <= |text| && Partition(pieces, text[..i])
    ensures Partition(pieces + [text[i..end]], text[..end])
  {
    JoinOneMore(pieces, text[i..end]);
    assert text[..i] + text[i..end] == text[..end];
  }

  /** The matches of a total pattern partition the text. */
  lemma {:induction false} SplitPartitions(p: Pattern, text: string, i: nat)
    requires i <= |text| && Total(p)
    ensures Partition(Split(p, text, i), text[i..])
    decreases |text| - i
  {
    if i < |text| {
      MatchesAreLongEnough(p, text, i);
      var end := First(p, text, i).value;
      SplitPartitions(p, text, end);
      assert text[i..end] + text[end..] == text[i..];
    }
  }

  /** White space, then a run. */
  function Spaced(u: Classes, cls: Class): Pattern
  {
    Then(Star(u.space), Plus(cls))
  }

  /** White space with the letters, digits or symbols behind it, or white space at the end. */
  function Gpt2(u: Classes): Pattern
  {
    Either(Spaced(u, u.letter), Either(Spaced(u, u.digit), Either(Spaced(u, c => u.Symbol(c)), Plus(u.space))))
  }

  /** White space is never given back to a run of something else. */
  lemma FirstSpaced(u: Classes, cls: Class, s: string, i: nat)
    requires i <= |s| && forall c :: cls(c) ==> !u.space(c)
    ensures
      var run := RunEnd(s, u.space, i);
      First(Spaced(u, cls), s, i) == if At(s, run, cls) then Some(RunEnd(s, cls, run)) else None
  {
    StarGivesBack(s, u.space, i);
    var (ends, run) := (Ends(Star(u.space), s, i), RunEnd(s, u.space, i));
    FirstPlus(s, cls, run);
    if At(s, run, cls) {
      FirstThen(Star(u.space), Plus(cls), s, i, 0);
    } else {
      forall k | 0 <= k < |ends|
        ensures First(Plus(cls), s, ends[k]).None?
      {
        FirstPlus(s, cls, ends[k]);
      }
      NoneThen(Star(u.space), Plus(cls), s, i);
    }
  }

  lemma FirstGpt2(u: Classes, s: string, i: nat)
    requires i <= |s|
    ensures First(Gpt2(u), s, i)
         == OrElse(First(Spaced(u, u.letter), s, i), OrElse(First(Spaced(u, u.digit), s, i),
              OrElse(First(Spaced(u, c => u.Symbol(c)), s, i), First(Plus(u.space), s, i))))
  {
    var symbols, blank := Spaced(u, c => u.Symbol(c)), Plus(u.space);
    FirstEither(symbols, blank, s, i);
    FirstEither(Spaced(u, u.digit), Either(symbols, blank), s, i);
    FirstEither(Spaced(u, u.letter), Either(Spaced(u, u.digit), Either(symbols, blank)), s, i);
  }

  /** All white space, then the run that its first other character belongs to. */
  lemma FirstGpt2Piece(u: Classes, s: string, i: nat)
    requires i < |s| && u.Apart()
    ensures
      var run := RunEnd(s, u.space, i);
      First(Gpt2(u), s, i) == Some(
        if run == |s| then run
        else if u.letter(s[run]) then RunEnd(s, u.letter, run)
        else if u.digit(s[run]) then RunEnd(s, u.digit, run)
        else RunEnd(s, c => u.Symbol(c), run))
  {
    FirstGpt2(u, s, i);
    FirstSpaced(u, u.letter, s, i);
    FirstSpaced(u, u.digit, s, i);
    FirstSpaced(u, c => u.Symbol(c), s, i);
    FirstPlus(s, u.space, i);
  }

  lemma SpacedConsumes(u: Classes, cls: Class)
    ensures MinLength(Spaced(u, cls)) == 1
  {
    PlusConsumes(cls);
  }

  lemma Gpt2IsTotal(u: Classes)
    requires u.Apart()
    ensures Total(Gpt2(u))
  {
    SpacedConsumes(u, u.letter);
    SpacedConsumes(u, u.digit);
    SpacedConsumes(u, c => u.Symbol(c));
    PlusConsumes(u.space);
    var rest := Either(Spaced(u, c => u.Symbol(c)), Plus(u.space));
    assert MinLength(rest) == 1 && MinLength(Either(Spaced(u, u.digit), rest)) == 1;
    forall s: string, i: nat | i < |s|
      ensures First(Gpt2(u), s, i).Some?
    {
      FirstGpt2Piece(u, s, i);
    }
  }

  /** The end of the piece that starts at `start`, by forward scanning. */
  method Gpt2PieceEnd(u: Classes, text: string, start: nat) returns (end: nat)
    requires start < |text| && u.Apart()
    ensures First(Gpt2(u), text, start) == Some(end)
  {
    FirstGpt2Piece(u, text, start);
    end := ScanRun(text, u.space, start);
    if end < |text| {
      if u.letter(text[end]) {
        end := ScanRun(text, u.letter, end);
      } else if u.digit(text[end]) {
        end := ScanRun(text, u.digit, end);
      } else {
        end := ScanRun(text, c => u.Symbol(c), end);
      }
    }
  }

  /** Splits text the GPT-2 way. */
  method PretokenizeGpt2(u: Classes, text: string) returns (pieces: seq<string>)
    requires u.Apart()
    ensures Total(Gpt2(u)) && pieces == Split(Gpt2(u), text, 0)
  {
    Gpt2IsTotal(u);
    pieces := [];
    var i := 0;
    while i < |text|
      invariant i <= |text| && pieces + Split(Gpt2(u), text, i) == Split(Gpt2(u), text, 0)
    {
      var start := i;
      MatchesAreLongEnough(Gpt2(u), text, start);
      i := Gpt2PieceEnd(u, text, start);
      pieces := pieces + [text[start..i]];
    }
  }

  /** A run of line feeds, or a run without any. */
  ghost predicate Homogeneous(piece: string, newline: bool)
  {
    forall j :: 0 <= j < |piece| ==> (piece[j] == '\n' <==> newline)
  }

  ghost predicate Alternating(pieces: seq<string>, lastNewline: bool)
  {
    forall i :: 0 <= i < |pieces| ==> Homogeneous(pieces[i], (|pieces| - 1 - i) % 2 == 0 <==> lastNewline)
  }

  lemma ExtendAlternating(pieces: seq<string>, piece: string, newline: bool)
    requires Alternating(pieces, !newline) && Homogeneous(piece, newline)
    ensures Alternating(pieces + [piece], newline)
  {
  }

  lemma ExtendHomogeneous(text: string, start: nat, idx: nat, newline: bool)
    requires start <= idx < |text| && Homogeneous(text[start..idx], newline) && (text[idx] == '\n' <==> newline)
    ensures Homogeneous(text[start..idx + 1], newline)
  {
    assert text[start..idx + 1] == text[start..idx] + [text[idx]];
  }

  /** Splits text into its maximal runs of line feeds and of other characters. */
  method SplitGemma4Pieces(text: string) returns (pieces: seq<string>, ghost lastNewline: bool)
    ensures Partition(pieces, text) && Alternating(pieces, lastNewline)
  {
    pieces, lastNewline := [], false;
    var start := 0;
    var lastIsNewline: Option<bool> := None;
    for idx := 0 to |text|
      invariant start <= idx && (lastIsNewline.Some? <==> idx > 0) && (idx > 0 ==> start < idx)
      invariant Partition(pieces, text[..start])
      invariant lastIsNewline.Some? ==> Homogeneous(text[start..idx], lastIsNewline.value)
      invariant lastIsNewline.Some? ==> Alternating(pieces, !lastIsNewline.value)
      invariant lastIsNewline.None? ==> pieces == []
    {
      var isNewline := text[idx] == '\n';
      if lastIsNewline.Some? && lastIsNewline.value != isNewline {
        ExtendPartition(pieces, text, start, idx);
        ExtendAlternating(pieces, text[start..idx], lastIsNewline.value);
        pieces := pieces + [text[start..idx]];
        start := idx;
      }
      lastIsNewline := Some(isNewline);
      ExtendHomogeneous(text, start, idx, isNewline);
    }
    if start < |text| {
      ExtendPartition(pieces, text, start, |text|);
      lastNewline := lastIsNewline.value;
      assert text[start..] == text[start..|text|];
      ExtendAlternating(pieces, text[start..], lastNewline);
      pieces := pieces + [text[start..]];
    }
    assert text[start..|text|] == text[start..] && text[..|text|] == text;
  }
}
