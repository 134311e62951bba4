/**
 The Qwen3.5 pre-tokenizer: forward scans that find the matches of a pattern without lookahead,
 and exactly which texts the documented pattern, which has one, cuts alike.
 */
module QwenSplitter {
  import opened Wrappers
  import opened Sequences
  import opened Regex
  import opened TekkenSplitter
  import opened Splitters

  /** The Qwen3.5 classes add combining marks, which stay with their word. */
  datatype QwenClasses = QwenClasses(base: Classes, mark: Class)
  {
    predicate Word(c: char) { base.letter(c) || mark(c) }

    predicate Punctuation(c: char) { !base.space(c) && !Word(c) && !base.digit(c) }

    /** White space, the apostrophe and the letters of contractions are not numeric. */
    ghost predicate Sane()
    {
      && base.Sane() && !base.digit('\'')
      && (forall c :: base.space(c) ==> !base.digit(c))
      && (forall c :: 'a' <= c <= 'z' || 'A' <= c <= 'Z' ==> !base.digit(c))
    }

    /** White space is neither part of a word nor an apostrophe. */
    ghost predicate Apart()
    {
      forall c :: base.space(c) ==> !Word(c) && c != '\''
    }

    /** A number outside a word. */
    predicate LoneNumber(c: char) { base.digit(c) && !Word(c) }
  }

  function AsciiLower(c: char): char
  {
    if 'A' <= c <= 'Z' then c - 'A' + 'a' else c
  }

  /** One letter in either case. */
  function Letter(x: char): Pattern
  {
    One(c => AsciiLower(c) == x)
  }

  function Suffix(): Pattern
  {
    Either(Letter('s'), Either(Letter('t'), Either(Then(Letter('r'), Letter('e')), Either(Then(Letter('v'), Letter('e')),
      Either(Letter('m'), Either(Then(Letter('l'), Letter('l')), Letter('d')))))))
  }

  /** The alternatives, in order. */
  function Contraction(): Pattern
  {
    Then(One(c => c == '\''), Suffix())
  }

  function Word(q: QwenClasses): Pattern
  {
    Then(Maybe(c => q.base.Lead(c)), Plus(c => q.Word(c)))
  }

  function PunctuationCore(q: QwenClasses): Pattern
  {
    Then(Plus(c => q.Punctuation(c)), Star(c => IsNewline(c)))
  }

  function Punctuated(q: QwenClasses): Pattern
  {
    Then(Maybe(c => c == ' '), PunctuationCore(q))
  }

  /** What comes before white space on both patterns. */
  function Solid(q: QwenClasses): Pattern
  {
    Either(Contraction(), Either(Word(q), Either(Digit(q.base), Punctuated(q))))
  }

  /** The pattern whose matches the program finds. */
  function Qwen(q: QwenClasses): Pattern
  {
    Either(Solid(q), Either(Lines(q.base), Blank(q.base)))
  }

  /** The documented pattern: white space before something else keeps its last character for that. */
  function Documented(q: QwenClasses): Pattern
  {
    Either(Solid(q), Either(Lines(q.base), Either(Gap(q.base), Blank(q.base))))
  }

  // ---------- Contractions ----------

  lemma FirstLetter(x: char, s: string, i: nat)
    requires i <= |s|
    ensures First(Letter(x), s, i) == if i < |s| && AsciiLower(s[i]) == x then Some(i + 1) else None
  {
  }

  lemma FirstTwoLetters(x: char, y: char, s: string, i: nat)
    requires i <= |s|
    ensures First(Then(Letter(x), Letter(y)), s, i)
         == if i + 1 < |s| && AsciiLower(s[i]) == x && AsciiLower(s[i + 1]) == y then Some(i + 2) else None
  {
    FirstLetter(x, s, i);
    if i < |s| && AsciiLower(s[i]) == x {
      assert Ends(Letter(x), s, i) == [i + 1];
      FirstLetter(y, s, i + 1);
      if First(Letter(y), s, i + 1).Some? {
        FirstThen(Letter(x), Letter(y), s, i, 0);
      } else {
        NoneThen(Letter(x), Letter(y), s, i);
      }
    } else {
      NoneThen(Letter(x), Letter(y), s, i);
    }
  }

  /** The suffixes begin with different letters, so their order does not matter. */
  function SuffixEnd(s: string, i: nat): Option<nat>
  {
    if i >= |s| then None
    else
      var c := AsciiLower(s[i]);
      if c == 's' || c == 't' || c == 'm' || c == 'd' then Some(i + 1)
      else if i + 1 >= |s| then None
      else
        var d := AsciiLower(s[i + 1]);
        if (c == 'r' && d == 'e') || (c == 'v' && d == 'e') || (c == 'l' && d == 'l') then Some(i + 2) else None
  }

  lemma FirstSuffix(s: string, i: nat)
    requires i <= |s|
    ensures First(Suffix(), s, i) == SuffixEnd(s, i)
  {
    FirstLetter('s', s, i);
    FirstLetter('t', s, i);
    FirstTwoLetters('r', 'e', s, i);
    FirstTwoLetters('v', 'e', s, i);
    FirstLetter('m', s, i);
    FirstTwoLetters('l', 'l', s, i);
    FirstLetter('d', s, i);
    var six := Either(Then(Letter('l'), Letter('l')), Letter('d'));
    var five := Either(Letter('m'), six);
    var four := Either(Then(Letter('v'), Letter('e')), five);
    var three := Either(Then(Letter('r'), Letter('e')), four);
    FirstEither(Then(Letter('l'), Letter('l')), Letter('d'), s, i);
    FirstEither(Letter('m'), six, s, i);
    FirstEither(Then(Letter('v'), Letter('e')), five, s, i);
    FirstEither(Then(Letter('r'), Letter('e')), four, s, i);
    FirstEither(Letter('t'), three, s, i);
    FirstEither(Letter('s'), Either(Letter('t'), three), s, i);
  }

  lemma FirstAfterOne(cls: Class, p: Pattern, s: string, i: nat)
    requires i <= |s|
    ensures First(Then(One(cls), p), s, i) == if At(s, i, cls) then First(p, s, i + 1) else None
  {
    if At(s, i, cls) && First(p, s, i + 1).Some? {
      FirstThen(One(cls), p, s, i, 0);
    } else {
      NoneThen(One(cls), p, s, i);
    }
  }

  const SUFFIXES: seq<string> := ["re", "ve", "ll", "s", "t", "m", "d"]

  predicate SuffixAt(text: string, at: nat, suffix: string)
  {
    at + |suffix| <= |text| && forall k :: 0 <= k < |suffix| ==> AsciiLower(text[at + k]) == suffix[k]
  }

  lemma SuffixIsLetters(text: string, at: nat, suffix: string)
    requires at <= |text|
    ensures |suffix| == 1 ==> (SuffixAt(text, at, suffix) <==> at < |text| && AsciiLower(text[at]) == suffix[0])
    ensures |suffix| == 2 ==>
              (SuffixAt(text, at, suffix) <==>
                 at + 1 < |text| && AsciiLower(text[at]) == suffix[0] && AsciiLower(text[at + 1]) == suffix[1])
  {
    if |suffix| == 2 && at + 1 < |text| {
      assert text[at + 0] == text[at];
      if AsciiLower(text[at]) == suffix[0] && AsciiLower(text[at + 1]) == suffix[1] {
        forall k | 0 <= k < |suffix|
          ensures AsciiLower(text[at + k]) == suffix[k]
        {
          assert k == 0 || k == 1;
        }
      }
    }
  }

  /** Listing the suffixes in the program's order finds the one there is. */
  lemma ListedSuffix(text: string, at: nat, k: nat)
    requires at <= |text| && k <= |SUFFIXES|
    requires forall j :: 0 <= j < k ==> !SuffixAt(text, at, SUFFIXES[j])
    requires k < |SUFFIXES| ==> SuffixAt(text, at, SUFFIXES[k])
    ensures SuffixEnd(text, at) == if k < |SUFFIXES| then Some(at + |SUFFIXES[k]|) else None
  {
    forall j | 0 <= j < |SUFFIXES|
      ensures SuffixAt(text, at, SUFFIXES[j]) <==>
                if |SUFFIXES[j]| == 1 then at < |text| && AsciiLower(text[at]) == SUFFIXES[j][0]
                else at + 1 < |text| && AsciiLower(text[at]) == SUFFIXES[j][0] && AsciiLower(text[at + 1]) == SUFFIXES[j][1]
    {
      SuffixIsLetters(text, at, SUFFIXES[j]);
    }
    assert SUFFIXES[0] == "re" && SUFFIXES[1] == "ve" && SUFFIXES[2] == "ll" && SUFFIXES[3] == "s";
    assert SUFFIXES[4] == "t" && SUFFIXES[5] == "m" && SUFFIXES[6] == "d";
  }

  lemma SuffixHasLetters(text: string, at: nat, k: nat)
    requires k < |SUFFIXES| && SuffixAt(text, at, SUFFIXES[k])
    ensures forall j :: at <= j < at + |SUFFIXES[k]| ==> 'a' <= AsciiLower(text[j]) <= 'z'
  {
    assert forall j :: 0 <= j < |SUFFIXES[k]| ==> 'a' <= SUFFIXES[k][j] <= 'z';
    forall j | at <= j < at + |SUFFIXES[k]|
      ensures 'a' <= AsciiLower(text[j]) <= 'z'
    {
      assert AsciiLower(text[at + (j - at)]) == SUFFIXES[k][j - at];
    }
  }

  lemma FirstContraction(s: string, i: nat)
    requires i < |s|
    ensures First(Contraction(), s, i) == if s[i] == '\'' then SuffixEnd(s, i + 1) else None
  {
    FirstAfterOne(c => c == '\'', Suffix(), s, i);
    FirstSuffix(s, i + 1);
  }

  /** Tries the suffixes in the order they are listed. */
  method ListedSuffixEnd(text: string, at: nat) returns (end: Option<nat>)
    requires at <= |text|
    ensures end == SuffixEnd(text, at)
    ensures end.Some? ==> at < end.value <= |text| && forall j :: at <= j < end.value ==> 'a' <= AsciiLower(text[j]) <= 'z'
  {
    for k := 0 to |SUFFIXES|
      invariant forall j :: 0 <= j < k ==> !SuffixAt(text, at, SUFFIXES[j])
    {
      if SuffixAt(text, at, SUFFIXES[k]) {
        ListedSuffix(text, at, k);
        SuffixHasLetters(text, at, k);
        return Some(at + |SUFFIXES[k]|);
      }
    }
    ListedSuffix(text, at, |SUFFIXES|);
    return None;
  }

  /** An apostrophe with one of the listed suffixes, in any case. */
  method ContractionEnd(text: string, index: nat) returns (end: Option<nat>)
    requires index < |text|
    ensures end == First(Contraction(), text, index)
    ensures end.Some? ==>
              && text[index] == '\'' && index < end.value <= |text|
              && forall j :: index < j < end.value ==> 'a' <= AsciiLower(text[j]) <= 'z'
  {
    FirstContraction(text, index);
    if text[index] != '\'' {
      return None;
    }
    end := ListedSuffixEnd(text, index + 1);
  }

  // ---------- Words and punctuation ----------

  lemma FirstWordIs(q: QwenClasses, s: string, i: nat)
    requires i < |s|
    ensures
      var run := RunEnd(s, c => q.Word(c), i);
      First(Word(q), s, i)
        == if run > i then Some(run)
           else if q.base.Lead(s[i]) && At(s, i + 1, c => q.Word(c)) then Some(RunEnd(s, c => q.Word(c), i + 1))
           else None
  {
    FirstAfterMaybe(c => q.base.Lead(c), Plus(c => q.Word(c)), s, i);
    FirstPlus(s, c => q.Word(c), i);
    FirstPlus(s, c => q.Word(c), i + 1);
  }

  /** A word, or one leading character that is neither letter, digit nor line end, and a word. */
  method WordEnd(q: QwenClasses, text: string, index: nat) returns (end: Option<nat>)
    requires index < |text|
    ensures end == First(Word(q), text, index)
    ensures end.Some? ==>
              && index < end.value <= |text| && (forall j :: index < j < end.value ==> q.Word(text[j]))
              && (q.Word(text[index]) || !q.base.digit(text[index]))
  {
    FirstWordIs(q, text, index);
    var run := ScanRun(text, c => q.Word(c), index);
    if run > index {
      return Some(run);
    }
    var c := text[index];
    if c != '\r' && c != '\n' && !q.base.letter(c) && !q.base.digit(c) {
      run := ScanRun(text, c => q.Word(c), index + 1);
      if run > index + 1 {
        return Some(run);
      }
    }
    return None;
  }

  lemma FirstPunctuationCore(q: QwenClasses, s: string, k: nat)
    requires k <= |s|
    ensures First(PunctuationCore(q), s, k)
         == if At(s, k, c => q.Punctuation(c))
            then Some(RunEnd(s, c => IsNewline(c), RunEnd(s, c => q.Punctuation(c), k))) else None
  {
    PlusGivesBack(s, c => q.Punctuation(c), k);
    if At(s, k, c => q.Punctuation(c)) {
      FirstStar(s, c => IsNewline(c), RunEnd(s, c => q.Punctuation(c), k));
      FirstThen(Plus(c => q.Punctuation(c)), Star(c => IsNewline(c)), s, k, 0);
    } else {
      NoneThen(Plus(c => q.Punctuation(c)), Star(c => IsNewline(c)), s, k);
    }
  }

  /** The optional space is never given back, being no punctuation itself. */
  lemma FirstPunctuated(q: QwenClasses, s: string, i: nat)
    requires i < |s| && q.Sane()
    ensures First(Punctuated(q), s, i) == First(PunctuationCore(q), s, if s[i] == ' ' then i + 1 else i)
  {
    FirstAfterMaybe(c => c == ' ', PunctuationCore(q), s, i);
    FirstPunctuationCore(q, s, i);
  }

  /** An optional space, punctuation, then line ends. */
  method PunctuationEnd(q: QwenClasses, text: string, index: nat) returns (end: Option<nat>)
    requires index < |text| && q.Sane()
    ensures end == First(Punctuated(q), text, index)
    ensures end.Some? ==>
              index < end.value <= |text| && forall j :: index <= j < end.value ==> !q.base.digit(text[j])
  {
    var start := if text[index] == ' ' then index + 1 else index;
    FirstPunctuated(q, text, index);
    FirstPunctuationCore(q, text, start);
    var run := ScanRun(text, c => q.Punctuation(c), start);
    if run == start {
      return None;
    }
    var stop := ScanRun(text, c => IsNewline(c), run);
    return Some(stop);
  }

  /** A white-space run, cut behind its last line end; there is no lookahead. */
  method WhitespaceEnd(q: QwenClasses, text: string, index: nat) returns (end: nat)
    requires index < |text| && q.base.space(text[index])
    ensures index < end <= |text| && forall j :: index <= j < end ==> q.base.space(text[j])
    ensures
      var run := RunEnd(text, q.base.space, index);
      var last := LastNewline(text, index, run);
      end == if last.Some? then last.value + 1 else run
  {
    end := index;
    var lastNewline: Option<nat> := None;
    while end < |text| && q.base.space(text[end])
      invariant index <= end <= |text| && forall j :: index <= j < end ==> q.base.space(text[j])
      invariant lastNewline == LastNewline(text, index, end)
      invariant RunEnd(text, q.base.space, end) == RunEnd(text, q.base.space, index)
    {
      if IsNewline(text[end]) {
        lastNewline := Some(end);
      }
      end := end + 1;
    }
    if lastNewline.Some? {
      end := lastNewline.value + 1;
    }
  }


  // ---------- The whole pattern ----------

  lemma FirstSolid(q: QwenClasses, s: string, i: nat)
    requires i <= |s|
    ensures First(Solid(q), s, i)
         == OrElse(First(Contraction(), s, i), OrElse(First(Word(q), s, i),
              OrElse(First(Digit(q.base), s, i), First(Punctuated(q), s, i))))
  {
    FirstEither(Digit(q.base), Punctuated(q), s, i);
    FirstEither(Word(q), Either(Digit(q.base), Punctuated(q)), s, i);
    FirstEither(Contraction(), Either(Word(q), Either(Digit(q.base), Punctuated(q))), s, i);
  }

  lemma FirstQwen(q: QwenClasses, s: string, i: nat)
    requires i <= |s|
    ensures First(Qwen(q), s, i) == OrElse(First(Solid(q), s, i), OrElse(First(Lines(q.base), s, i), First(Blank(q.base), s, i)))
  {
    FirstEither(Lines(q.base), Blank(q.base), s, i);
    FirstEither(Solid(q), Either(Lines(q.base), Blank(q.base)), s, i);
  }

  lemma FirstDocumented(q: QwenClasses, s: string, i: nat)
    requires i <= |s|
    ensures First(Documented(q), s, i)
         == OrElse(First(Solid(q), s, i), OrElse(First(Lines(q.base), s, i),
              OrElse(First(Gap(q.base), s, i), First(Blank(q.base), s, i))))
  {
    FirstEither(Gap(q.base), Blank(q.base), s, i);
    FirstEither(Lines(q.base), Either(Gap(q.base), Blank(q.base)), s, i);
    FirstEither(Solid(q), Either(Lines(q.base), Either(Gap(q.base), Blank(q.base))), s, i);
  }

  ghost predicate NumbersAlone(q: QwenClasses, piece: string)
  {
    |piece| == 1 || forall j :: 0 <= j < |piece| ==> !q.LoneNumber(piece[j])
  }

  /** The alternatives before white space. */
  method SolidEnd(q: QwenClasses, text: string, index: nat) returns (end: Option<nat>)
    requires index < |text| && q.Sane()
    ensures end == First(Solid(q), text, index)
    ensures end.Some? ==> index < end.value <= |text| && NumbersAlone(q, text[index..end.value])
  {
    FirstSolid(q, text, index);
    end := ContractionEnd(text, index);
    if end.Some? {
      return;
    }
    end := WordEnd(q, text, index);
    if end.Some? {
      return;
    }
    if q.base.digit(text[index]) {
      return Some(index + 1);
    }
    end := PunctuationEnd(q, text, index);
  }

  /** The end of the piece that starts at `index`, by forward scanning. */
  method Qwen35PieceEnd(q: QwenClasses, text: string, index: nat) returns (end: nat)
    requires index < |text| && q.Sane()
    ensures end == if First(Qwen(q), text, index).Some? then First(Qwen(q), text, index).value else index + 1
    ensures index < end <= |text| && NumbersAlone(q, text[index..end])
  {
    FirstQwen(q, text, index);
    var found := SolidEnd(q, text, index);
    if found.Some? {
      return found.value;
    }
    FirstLines(q.base, text, index);
    FirstPlus(text, q.base.space, index);
    if q.base.space(text[index]) {
      end := WhitespaceEnd(q, text, index);
    } else {
      end := index + 1;
    }
  }

  lemma SolidConsumes(q: QwenClasses)
    ensures MinLength(Solid(q)) >= 1
  {
    PlusConsumes(c => q.Word(c));
    PlusConsumes(c => q.Punctuation(c));
    assert MinLength(Word(q)) == 1 && MinLength(Punctuated(q)) == 1 && MinLength(Contraction()) >= 1;
    assert MinLength(Either(Digit(q.base), Punctuated(q))) == 1;
    assert MinLength(Either(Word(q), Either(Digit(q.base), Punctuated(q)))) == 1;
  }

  lemma PatternsConsume(q: QwenClasses)
    ensures MinLength(Qwen(q)) >= 1 && MinLength(Documented(q)) >= 1
  {
    SolidConsumes(q);
    PlusConsumes(c => IsNewline(c));
    PlusConsumes(q.base.space);
    assert MinLength(Lines(q.base)) == 1 && MinLength(Gap(q.base)) == 1 && MinLength(Blank(q.base)) == 1;
    assert MinLength(Either(Lines(q.base), Blank(q.base))) == 1;
    assert MinLength(Either(Gap(q.base), Blank(q.base))) == 1;
    assert MinLength(Either(Lines(q.base), Either(Gap(q.base), Blank(q.base)))) == 1;
  }

  /** What is no white space is matched before it. */
  lemma SolidMatches(q: QwenClasses, s: string, i: nat)
    requires i < |s| && q.Sane() && !q.base.space(s[i])
    ensures First(Solid(q), s, i).Some?
  {
    FirstSolid(q, s, i);
    FirstWordIs(q, s, i);
    FirstPunctuated(q, s, i);
    FirstPunctuationCore(q, s, i);
  }

  lemma QwenIsTotal(q: QwenClasses)
    requires q.Sane()
    ensures Total(Qwen(q)) && Total(Documented(q))
  {
    PatternsConsume(q);
    forall s: string, i: nat | i < |s|
      ensures First(Qwen(q), s, i).Some? && First(Documented(q), s, i).Some?
    {
      FirstQwen(q, s, i);
      FirstDocumented(q, s, i);
      if q.base.space(s[i]) {
        FirstPlus(s, q.base.space, i);
      } else {
        SolidMatches(q, s, i);
      }
    }
  }

  /** Splits text the Qwen3.5 way: a number outside a word is always a piece of its own. */
  method PretokenizeQwen35(q: QwenClasses, text: string) returns (pieces: seq<string>)
    requires q.Sane()
    ensures Total(Qwen(q)) && pieces == Split(Qwen(q), text, 0) && Partition(pieces, text)
    ensures forall i :: 0 <= i < |pieces| ==> NumbersAlone(q, pieces[i])
  {
    QwenIsTotal(q);
    SplitPartitions(Qwen(q), text, 0);
    assert text[0..] == text;
    pieces := [];
    var index := 0;
    while index < |text|
      invariant index <= |text| && pieces + Split(Qwen(q), text, index) == Split(Qwen(q), text, 0)
      invariant forall i :: 0 <= i < |pieces| ==> NumbersAlone(q, pieces[i])
    {
      assert First(Qwen(q), text, index).Some?;
      var end := Qwen35PieceEnd(q, text, index);
      SplitFirst(Qwen(q), text, index, end);
      Associate(pieces, [text[index..end]], Split(Qwen(q), text, end));
      pieces := pieces + [text[index..end]];
      index := end;
    }
  }

  // ---------- The documented pattern ----------

  /** White space of more than one character, without a line end. */
  ghost predicate LongBlank(q: QwenClasses, piece: string)
  {
    |piece| > 1 && forall j :: 0 <= j < |piece| ==> q.base.space(piece[j]) && !IsNewline(piece[j])
  }

  /** At this place the lookahead matters: long white space before something else. */
  ghost predicate Differs(q: QwenClasses, s: string, i: nat)
    requires i < |s|
  {
    var run := RunEnd(s, q.base.space, i);
    && First(Solid(q), s, i).None? && First(Lines(q.base), s, i).None?
    && run < |s| && run - i > 1
  }

  /** The patterns disagree about a place exactly if the lookahead matters there. */
  lemma MatchedAlikeIff(q: QwenClasses, s: string, i: nat)
    requires i < |s| && q.Sane()
    ensures First(Qwen(q), s, i) == First(Documented(q), s, i) <==> !Differs(q, s, i)
  {
    FirstQwen(q, s, i);
    FirstDocumented(q, s, i);
    FirstPlus(s, q.base.space, i);
    if q.base.space(s[i]) {
      FirstGap(q.base, s, i);
    } else {
      SolidMatches(q, s, i);
    }
  }

  lemma DiffersIsLongBlank(q: QwenClasses, s: string, i: nat, end: nat)
    requires i < |s| && q.Sane() && First(Qwen(q), s, i) == Some(end) && Differs(q, s, i)
    ensures end < |s| && end == RunEnd(s, q.base.space, i) && LongBlank(q, s[i..end])
  {
    FirstQwen(q, s, i);
    FirstLines(q.base, s, i);
    FirstPlus(s, q.base.space, i);
  }

  /** Two white-space characters begin no match of what comes before white space. */
  lemma SpacesAreNotSolid(q: QwenClasses, s: string, i: nat)
    requires i + 1 < |s| && q.base.space(s[i]) && q.base.space(s[i + 1]) && q.Sane() && q.Apart()
    ensures First(Solid(q), s, i) == None
  {
    FirstSolid(q, s, i);
    FirstContraction(s, i);
    FirstWordIs(q, s, i);
    FirstPunctuated(q, s, i);
    FirstPunctuationCore(q, s, if s[i] == ' ' then i + 1 else i);
  }

  lemma LongBlankDiffers(q: QwenClasses, s: string, i: nat, end: nat)
    requires i < |s| && q.Sane() && q.Apart() && First(Qwen(q), s, i) == Some(end)
    requires end < |s| && LongBlank(q, s[i..end])
    ensures Differs(q, s, i)
  {
    FirstQwen(q, s, i);
    assert s[i..end][|s[i..end]| - 1] == s[end - 1];
    assert s[i..end][0] == s[i] && s[i..end][1] == s[i + 1];
    SpacesAreNotSolid(q, s, i);
    FirstLines(q.base, s, i);
    FirstPlus(s, q.base.space, i);
  }

  /** No piece but the last is white space of more than one character without a line end. */
  ghost predicate NoLongBlank(q: QwenClasses, pieces: seq<string>)
  {
    forall k :: 0 <= k < |pieces| - 1 ==> !LongBlank(q, pieces[k])
  }

  lemma NoLongBlankSplits(q: QwenClasses, first: string, rest: seq<string>)
    ensures NoLongBlank(q, [first] + rest) <==> NoLongBlank(q, rest) && (rest != [] ==> !LongBlank(q, first))
  {
    var pieces := [first] + rest;
    if NoLongBlank(q, pieces) {
      assert pieces[0] == first && forall k :: 0 <= k < |rest| ==> pieces[k + 1] == rest[k];
    }
  }

  lemma SplitFirst(p: Pattern, s: string, i: nat, end: nat)
    requires i < |s| && Total(p) && First(p, s, i) == Some(end)
    ensures i < end <= |s| && Split(p, s, i) == [s[i..end]] + Split(p, s, end)
  {
    MatchesAreLongEnough(p, s, i);
  }

  /** Where the first pieces differ, the longer one is white space before something else. */
  lemma DifferentStep(q: QwenClasses, a: string, b: string, rest: seq<string>, rest': seq<string>)
    requires a != b && LongBlank(q, a) && rest != []
    ensures [a] + rest != [b] + rest' && !NoLongBlank(q, [a] + rest)
  {
    assert ([a] + rest)[0] == a && ([b] + rest')[0] == b;
    NoLongBlankSplits(q, a, rest);
  }

  /** Where they agree, the rest decides. */
  lemma AgreeingStep(q: QwenClasses, a: string, rest: seq<string>, rest': seq<string>)
    requires rest != [] ==> !LongBlank(q, a)
    requires rest == rest' <==> NoLongBlank(q, rest)
    ensures [a] + rest == [a] + rest' <==> NoLongBlank(q, [a] + rest)
  {
    assert ([a] + rest)[1..] == rest && ([a] + rest')[1..] == rest';
    NoLongBlankSplits(q, a, rest);
  }

  lemma StepAlikeIff(q: QwenClasses, s: string, i: nat, end: nat, end': nat, rest: seq<string>, rest': seq<string>)
    requires i < |s| && q.Sane() && q.Apart() && i < end <= |s| && i < end' <= |s|
    requires First(Qwen(q), s, i) == Some(end) && First(Documented(q), s, i) == Some(end')
    requires rest == [] <==> end == |s|
    requires end == end' ==> (rest == rest' <==> NoLongBlank(q, rest))
    ensures [s[i..end]] + rest == [s[i..end']] + rest' <==> NoLongBlank(q, [s[i..end]] + rest)
  {
    MatchedAlikeIff(q, s, i);
    if Differs(q, s, i) {
      DiffersIsLongBlank(q, s, i, end);
      DifferentStep(q, s[i..end], s[i..end'], rest, rest');
    } else {
      if end < |s| && LongBlank(q, s[i..end]) {
        LongBlankDiffers(q, s, i, end);
      }
      AgreeingStep(q, s[i..end], rest, rest');
    }
  }

  /**
   Exactly which texts the documented pattern cuts like the program: those of whose pieces none but
   the last is longer white space without a line end.
   */
  lemma {:induction false} CutAlikeIff(q: QwenClasses, s: string, i: nat)
    requires i <= |s| && q.Sane() && q.Apart()
    ensures Total(Qwen(q)) && Total(Documented(q))
    ensures Split(Qwen(q), s, i) == Split(Documented(q), s, i) <==> NoLongBlank(q, Split(Qwen(q), s, i))
    decreases |s| - i
  {
    QwenIsTotal(q);
    if i < |s| {
      var end, end' := First(Qwen(q), s, i).value, First(Documented(q), s, i).value;
      SplitFirst(Qwen(q), s, i, end);
      SplitFirst(Documented(q), s, i, end');
      RestIsEmptyIff(Qwen(q), s, end);
      if end == end' {
        CutAlikeIff(q, s, end);
      }
      StepAlikeIff(q, s, i, end, end', Split(Qwen(q), s, end), Split(Documented(q), s, end'));
    }
  }

  lemma RestIsEmptyIff(p: Pattern, s: string, i: nat)
    requires i <= |s| && Total(p)
    ensures Split(p, s, i) == [] <==> i == |s|
  {
  }

  /** A classification that treats ASCII letters, digits and white space as such. */
  const ASCII: QwenClasses :=
    QwenClasses(Classes(c => 'a' <= c <= 'z' || 'A' <= c <= 'Z', c => '0' <= c <= '9', c => c == ' ' || c == '\r' || c == '\n'),
                c => false)

  /** Two spaces before a letter: the program keeps both together, the pattern leaves one to the word. */
  lemma TwoSpacesAreCutDifferently()
    ensures ASCII.Sane() && ASCII.Apart()
    ensures First(Qwen(ASCII), "  a", 0) == Some(2) && First(Documented(ASCII), "  a", 0) == Some(1)
  {
    FirstQwen(ASCII, "  a", 0);
    FirstDocumented(ASCII, "  a", 0);
    SpacesAreNotSolid(ASCII, "  a", 0);
    TwoSpacesAreBlank();
  }

  lemma TwoSpacesAreBlank()
    ensures First(Lines(ASCII.base), "  a", 0) == None
    ensures First(Gap(ASCII.base), "  a", 0) == Some(1) && First(Blank(ASCII.base), "  a", 0) == Some(2)
  {
    var s := "  a";
    assert RunEnd(s, ASCII.base.space, 2) == 2 && RunEnd(s, ASCII.base.space, 1) == 2;
    assert RunEnd(s, ASCII.base.space, 0) == 2;
    FirstLines(ASCII.base, s, 0);
    FirstGap(ASCII.base, s, 0);
    FirstPlus(s, ASCII.base.space, 0);
  }
}
