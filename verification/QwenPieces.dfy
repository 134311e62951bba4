/**
 Where the Qwen3.5 and GPT-2 pre-tokenizers cut, said in terms of the characters around the cut.
 */
module QwenPieces {
  import opened Wrappers
  import opened Regex
  import opened TekkenSplitter
  import opened TekkenPieces
  import opened Splitters
  import opened QwenSplitter

  /** A letter that is a suffix by itself, in either case. */
  predicate IsShortSuffix(c: char)
  {
    c == 's' || c == 'S' || c == 't' || c == 'T' || c == 'm' || c == 'M' || c == 'd' || c == 'D'
  }

  /** Two letters that are a suffix together, in either case. */
  predicate AreLongSuffix(c: char, d: char)
  {
    || ((c == 'r' || c == 'R' || c == 'v' || c == 'V') && (d == 'e' || d == 'E'))
    || ((c == 'l' || c == 'L') && (d == 'l' || d == 'L'))
  }

  /** How many characters the contraction at `i` has, if there is one. */
  function ContractionLength(s: string, i: nat): nat
    requires i < |s|
  {
    if s[i] != '\'' then 0
    else if i + 1 < |s| && IsShortSuffix(s[i + 1]) then 2
    else if i + 2 < |s| && AreLongSuffix(s[i + 1], s[i + 2]) then 3
    else 0
  }

  lemma ContractionIs(s: string, i: nat)
    requires i < |s|
    ensures First(Contraction(), s, i) == if ContractionLength(s, i) > 0 then Some(i + ContractionLength(s, i)) else None
  {
    FirstContraction(s, i);
  }

  lemma SolidIsFirst(q: QwenClasses, s: string, i: nat)
    requires i < |s|
    ensures First(Solid(q), s, i).Some? ==> First(Qwen(q), s, i) == First(Solid(q), s, i)
  {
    FirstQwen(q, s, i);
  }

  /** A contraction is a piece of its own, even in front of more letters. */
  lemma ContractionStandsAlone(q: QwenClasses, s: string, i: nat)
    requires i < |s| && ContractionLength(s, i) > 0
    ensures First(Qwen(q), s, i) == Some(i + ContractionLength(s, i))
  {
    ContractionIs(s, i);
    FirstSolid(q, s, i);
    SolidIsFirst(q, s, i);
  }

  predicate IsLetterOrMark(q: QwenClasses, c: char) { q.base.letter(c) || q.mark(c) }

  /** Nothing at `i` begins a word or contraction. */
  ghost predicate NoWordBegins(q: QwenClasses, s: string, i: nat)
  {
    && i < |s| && ContractionLength(s, i) == 0 && !IsLetterOrMark(q, s[i])
    && (s[i] == '\r' || s[i] == '\n' || q.base.digit(s[i]) || i + 1 == |s| || !IsLetterOrMark(q, s[i + 1]))
  }

  /** Letters and marks, all of them, with one character before them that is neither letter, digit nor line end. */
  lemma LettersAndMarks(q: QwenClasses, s: string, i: nat, b: nat, e: nat)
    requires i <= b < e <= |s| && ContractionLength(s, i) == 0
    requires b == i || (b == i + 1 && !IsLetterOrMark(q, s[i]) && !q.base.digit(s[i]) && s[i] != '\r' && s[i] != '\n')
    requires (forall k :: b <= k < e ==> IsLetterOrMark(q, s[k])) && (e == |s| || !IsLetterOrMark(q, s[e]))
    ensures First(Qwen(q), s, i) == Some(e)
  {
    ContractionIs(s, i);
    FirstWordIs(q, s, i);
    RunEndIs(s, c => q.Word(c), b, e);
    FirstSolid(q, s, i);
    SolidIsFirst(q, s, i);
  }

  lemma NoWordNorContraction(q: QwenClasses, s: string, i: nat)
    requires NoWordBegins(q, s, i)
    ensures First(Solid(q), s, i) == OrElse(First(Digit(q.base), s, i), First(Punctuated(q), s, i))
  {
    ContractionIs(s, i);
    FirstWordIs(q, s, i);
    FirstSolid(q, s, i);
  }

  /** Every digit outside a word is a piece of its own. */
  lemma NumberStandsAlone(q: QwenClasses, s: string, i: nat)
    requires NoWordBegins(q, s, i) && q.base.digit(s[i])
    ensures First(Qwen(q), s, i) == Some(i + 1)
  {
    NoWordNorContraction(q, s, i);
    SolidIsFirst(q, s, i);
  }

  predicate IsOther(q: QwenClasses, c: char) { !q.base.space(c) && !IsLetterOrMark(q, c) && !q.base.digit(c) }

  /** Punctuation, with one space before it and all line ends behind it. */
  lemma PunctuationWithLineEnds(q: QwenClasses, s: string, i: nat, b: nat, m: nat, e: nat)
    requires q.Sane() && NoWordBegins(q, s, i) && !q.base.digit(s[i])
    requires (b == i && s[i] != ' ') || (b == i + 1 && s[i] == ' ')
    requires b < m <= e <= |s|
    requires (forall k :: b <= k < m ==> IsOther(q, s[k])) && (m == |s| || !IsOther(q, s[m]))
    requires (forall k :: m <= k < e ==> s[k] == '\r' || s[k] == '\n') && (e == |s| || (s[e] != '\r' && s[e] != '\n'))
    ensures First(Qwen(q), s, i) == Some(e)
  {
    NoWordNorContraction(q, s, i);
    FirstPunctuated(q, s, i);
    FirstPunctuationCore(q, s, b);
    RunEndIs(s, c => q.Punctuation(c), b, m);
    RunEndIs(s, c => IsNewline(c), m, e);
    SolidIsFirst(q, s, i);
  }

  /** White space up to `run` that no word and no punctuation takes a character of. */
  ghost predicate BlankBegins(q: QwenClasses, s: string, i: nat, run: nat)
  {
    && NoWordBegins(q, s, i) && !q.base.digit(s[i]) && i < run <= |s|
    && (forall k :: i <= k < run ==> q.base.space(s[k])) && (run == |s| || !q.base.space(s[run]))
    && (s[i] == ' ' && i + 1 < |s| ==> !IsOther(q, s[i + 1]))
  }

  lemma NoPunctuation(q: QwenClasses, s: string, i: nat, run: nat)
    requires q.Sane() && BlankBegins(q, s, i, run)
    ensures First(Qwen(q), s, i) == OrElse(First(Lines(q.base), s, i), Some(run))
    ensures RunEnd(s, q.base.space, i) == run
  {
    NoWordNorContraction(q, s, i);
    FirstPunctuated(q, s, i);
    FirstPunctuationCore(q, s, if s[i] == ' ' then i + 1 else i);
    FirstQwen(q, s, i);
    RunEndIs(s, q.base.space, i, run);
    FirstPlus(s, q.base.space, i);
  }

  /** White space with a line end in it is cut behind the last one. */
  lemma CutBehindLast(q: QwenClasses, s: string, i: nat, run: nat, last: nat)
    requires q.Sane() && BlankBegins(q, s, i, run) && i <= last < run
    requires s[last] == '\r' || s[last] == '\n'
    requires forall k :: last < k < run ==> s[k] != '\r' && s[k] != '\n'
    ensures First(Qwen(q), s, i) == Some(last + 1)
  {
    NoPunctuation(q, s, i, run);
    FirstLines(q.base, s, i);
  }

  /** Other white space is kept together to its last character, whatever follows. */
  lemma SpaceIsKeptTogether(q: QwenClasses, s: string, i: nat, run: nat)
    requires q.Sane() && BlankBegins(q, s, i, run)
    requires forall k :: i <= k < run ==> s[k] != '\r' && s[k] != '\n'
    ensures First(Qwen(q), s, i) == Some(run)
  {
    NoPunctuation(q, s, i, run);
    FirstLines(q.base, s, i);
  }

  // ---------- GPT-2 ----------

  /** White space, all of it, then all letters, or all digits, or all other characters behind it. */
  lemma SpaceThenRun(u: Classes, s: string, i: nat, b: nat, e: nat)
    requires u.Apart() && i <= b < e <= |s|
    requires (forall k :: i <= k < b ==> u.space(s[k])) && !u.space(s[b])
    requires
      var kind: char -> bool :=
        if u.letter(s[b]) then u.letter else if u.digit(s[b]) then u.digit
        else c => !u.space(c) && !u.letter(c) && !u.digit(c);
      (forall k :: b <= k < e ==> kind(s[k])) && (e == |s| || !kind(s[e]))
    ensures First(Gpt2(u), s, i) == Some(e)
  {
    FirstGpt2Piece(u, s, i);
    RunEndIs(s, u.space, i, b);
    if u.letter(s[b]) {
      RunEndIs(s, u.letter, b, e);
    } else if u.digit(s[b]) {
      RunEndIs(s, u.digit, b, e);
    } else {
      RunEndIs(s, c => u.Symbol(c), b, e);
    }
  }

  /** White space at the end of the text is one piece. */
  lemma SpaceAtEnd(u: Classes, s: string, i: nat)
    requires u.Apart() && i < |s| && forall k :: i <= k < |s| ==> u.space(s[k])
    ensures First(Gpt2(u), s, i) == Some(|s|)
  {
    FirstGpt2Piece(u, s, i);
    RunEndIs(s, u.space, i, |s|);
  }
}
