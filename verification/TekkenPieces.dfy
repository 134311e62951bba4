/**
 Where the Tekken pattern cuts, said in terms of the characters around the cut instead of the
 alternatives: case boundaries, single digits, symbols with their line ends, and white space.
 */
module TekkenPieces {
  import opened Wrappers
  import opened Regex
  import opened TekkenSplitter

  predicate IsSmall(c: char) { 'a' <= c <= 'z' }

  predicate IsCapital(c: char) { 'A' <= c <= 'Z' }

  /** The letters of the Latin alphabet are letters, and no white space. */
  ghost predicate Latin(u: Classes)
  {
    forall c: char :: 'a' <= c <= 'z' || 'A' <= c <= 'Z' ==> u.letter(c) && !u.space(c)
  }

  /** The letters of a piece begin at `b`: at its start, or behind one character that may lead a word. */
  ghost predicate LettersFrom(u: Classes, s: string, i: nat, b: nat)
  {
    && b < |s| && u.letter(s[b])
    && (b == i
        || (b == i + 1 && s[i] != '\r' && s[i] != '\n' && !u.letter(s[i]) && !u.digit(s[i])))
  }

  lemma RunEndIs(s: string, cls: Class, i: nat, end: nat)
    requires i <= end <= |s| && !At(s, end, cls) && forall k :: i <= k < end ==> cls(s[k])
    ensures RunEnd(s, cls, i) == end
  {
    var r := RunEnd(s, cls, i);
    assert r < |s| ==> !cls(s[r]);
  }

  /** A word is what the cores match where its letters begin. */
  lemma WordFrom(u: Classes, s: string, i: nat, b: nat)
    requires LettersFrom(u, s, i, b)
    requires First(LowerCore(u), s, b).Some? || First(UpperCore(u), s, b).Some?
    ensures First(Tekken(u), s, i) == OrElse(First(LowerCore(u), s, b), First(UpperCore(u), s, b))
  {
    WordsFirst(u, s, i);
    FirstWord(u, s, i);
  }

  lemma WordsFirst(u: Classes, s: string, i: nat)
    requires i <= |s|
    ensures
      var word := OrElse(First(LowerWord(u), s, i), First(UpperWord(u), s, i));
      word.Some? ==> First(Tekken(u), s, i) == word
  {
    FirstTekken(u, s, i);
  }

  /**
   Letters that are no small Latin ones, then a small Latin letter and all letters behind it up
   to the next capital: one piece.
   */
  lemma SmallLettersEndWord(u: Classes, s: string, i: nat, b: nat, m: nat, e: nat)
    requires LettersFrom(u, s, i, b) && b <= m < e <= |s|
    requires forall k :: b <= k < m ==> u.letter(s[k]) && !('a' <= s[k] <= 'z')
    requires 'a' <= s[m] <= 'z' && forall k :: m <= k < e ==> u.letter(s[k]) && !('A' <= s[k] <= 'Z')
    requires e == |s| || !u.letter(s[e]) || 'A' <= s[e] <= 'Z'
    ensures First(Tekken(u), s, i) == Some(e)
  {
    RunEndIs(s, c => u.Upper(c), b, m);
    RunEndIs(s, c => u.Lower(c), m, e);
    StarGivesBack(s, c => u.Upper(c), b);
    FirstPlus(s, c => u.Lower(c), m);
    FirstThen(Star(c => u.Upper(c)), Plus(c => u.Lower(c)), s, b, 0);
    WordFrom(u, s, i, b);
  }

  /** Capitals up to the end of the letters are one piece. */
  lemma CapitalsAlone(u: Classes, s: string, i: nat, b: nat, e: nat)
    requires LettersFrom(u, s, i, b) && b < e <= |s|
    requires forall k :: b <= k < e ==> u.letter(s[k]) && 'A' <= s[k] <= 'Z'
    requires e == |s| || !u.letter(s[e])
    ensures First(Tekken(u), s, i) == Some(e)
  {
    RunEndIs(s, c => u.Upper(c), b, e);
    StarGivesBack(s, c => u.Upper(c), b);
    var ends := Ends(Star(c => u.Upper(c)), s, b);
    forall j | 0 <= j < |ends|
      ensures First(Plus(c => u.Lower(c)), s, ends[j]).None?
    {
      FirstPlus(s, c => u.Lower(c), e - j);
    }
    NoneThen(Star(c => u.Upper(c)), Plus(c => u.Lower(c)), s, b);
    PlusGivesBack(s, c => u.Upper(c), b);
    FirstStar(s, c => u.Lower(c), e);
    RunEndIs(s, c => u.Lower(c), e, e);
    FirstThen(Plus(c => u.Upper(c)), Star(c => u.Lower(c)), s, b, 0);
    WordFrom(u, s, i, b);
  }

  /**
   Letters without a case that is known, with capitals between and behind them and no small Latin
   letter: the piece ends behind the last of them, and the capitals behind it are left over.
   */
  lemma CapitalsAreLeftOver(u: Classes, s: string, i: nat, b: nat, g: nat, e: nat)
    requires LettersFrom(u, s, i, b) && b <= g < e <= |s|
    requires forall k :: b <= k < e ==> u.letter(s[k]) && !('a' <= s[k] <= 'z')
    requires !('A' <= s[g] <= 'Z') && forall k :: g < k < e ==> 'A' <= s[k] <= 'Z'
    requires e == |s| || !u.letter(s[e])
    ensures First(Tekken(u), s, i) == Some(g + 1)
  {
    RunEndIs(s, c => u.Upper(c), b, e);
    StarGivesBack(s, c => u.Upper(c), b);
    var ends := Ends(Star(c => u.Upper(c)), s, b);
    forall j | 0 <= j < e - g
      ensures First(Plus(c => u.Lower(c)), s, ends[j]).None?
    {
      FirstPlus(s, c => u.Lower(c), e - j);
    }
    FirstPlus(s, c => u.Lower(c), g);
    RunEndIs(s, c => u.Lower(c), g, g + 1);
    FirstThen(Star(c => u.Upper(c)), Plus(c => u.Lower(c)), s, b, e - g);
    WordFrom(u, s, i, b);
  }

  /** A lower-case word ends where an upper-case one begins. */
  lemma CaseBoundary(u: Classes, s: string, i: nat, j: nat)
    requires Latin(u) && i < j < |s|
    requires (forall k :: i <= k < j ==> 'a' <= s[k] <= 'z') && 'A' <= s[j] <= 'Z'
    ensures First(Tekken(u), s, i) == Some(j)
  {
    assert u.letter(s[i]);
    SmallLettersEndWord(u, s, i, i, i, j);
  }

  /** Capitals stay with the small letters behind them, all of them and not only the last. */
  lemma CapitalsThenSmall(u: Classes, s: string, i: nat, m: nat, e: nat)
    requires Latin(u) && i < m < e <= |s|
    requires forall k :: i <= k < m ==> 'A' <= s[k] <= 'Z'
    requires forall k :: m <= k < e ==> 'a' <= s[k] <= 'z'
    requires e == |s| || !u.letter(s[e]) || 'A' <= s[e] <= 'Z'
    ensures First(Tekken(u), s, i) == Some(e)
  {
    assert u.letter(s[i]);
    SmallLettersEndWord(u, s, i, i, m, e);
  }

  // ---------- Everything that is not a word ----------

  /** Nothing at `i` begins a word: there is no letter, and none behind a character that may lead one. */
  ghost predicate NoWordAt(u: Classes, s: string, i: nat)
  {
    && i < |s| && !u.letter(s[i])
    && (s[i] == '\r' || s[i] == '\n' || u.digit(s[i]) || i + 1 == |s| || !u.letter(s[i + 1]))
  }

  lemma NoWord(u: Classes, s: string, i: nat)
    requires NoWordAt(u, s, i)
    ensures First(LowerWord(u), s, i) == First(UpperWord(u), s, i) == None
  {
    FirstWord(u, s, i);
    NoCoreWithoutLetter(u, s, i);
    if u.Lead(s[i]) {
      NoCoreWithoutLetter(u, s, i + 1);
    }
  }

  /** Every digit is a piece of its own. */
  lemma DigitStandsAlone(u: Classes, s: string, i: nat)
    requires i < |s| && u.digit(s[i]) && !u.letter(s[i])
    ensures First(Tekken(u), s, i) == Some(i + 1)
  {
    NoWord(u, s, i);
    FirstTekken(u, s, i);
  }

  predicate IsMark(u: Classes, c: char) { !u.space(c) && !u.letter(c) && !u.digit(c) }

  predicate IsLineEndOrSlash(c: char) { c == '\r' || c == '\n' || c == '/' }

  /** Symbols, with one space before them and all line ends and slashes behind them. */
  lemma SymbolsWithLineEnds(u: Classes, s: string, i: nat, b: nat, m: nat, e: nat)
    requires u.Sane() && NoWordAt(u, s, i) && !u.digit(s[i])
    requires (b == i && s[i] != ' ') || (b == i + 1 && s[i] == ' ')
    requires b < m <= e <= |s|
    requires (forall k :: b <= k < m ==> IsMark(u, s[k])) && (m == |s| || !IsMark(u, s[m]))
    requires (forall k :: m <= k < e ==> IsLineEndOrSlash(s[k])) && (e == |s| || !IsLineEndOrSlash(s[e]))
    ensures First(Tekken(u), s, i) == Some(e)
  {
    NoWord(u, s, i);
    FirstTekken(u, s, i);
    FirstSymbols(u, s, i);
    RunEndIs(s, c => u.Symbol(c), b, m);
    RunEndIs(s, c => IsNewlineOrSlash(c), m, e);
  }

  /** White space up to `run` that no word and no symbol takes a character of. */
  ghost predicate BlankAt(u: Classes, s: string, i: nat, run: nat)
  {
    && NoWordAt(u, s, i) && !u.digit(s[i]) && i < run <= |s|
    && (forall k :: i <= k < run ==> u.space(s[k])) && (run == |s| || !u.space(s[run]))
    && (s[i] == ' ' && run == i + 1 < |s| ==> !IsMark(u, s[run]))
  }

  lemma NoSymbols(u: Classes, s: string, i: nat, run: nat)
    requires u.Sane() && BlankAt(u, s, i, run)
    ensures First(Tekken(u), s, i) == OrElse(First(Lines(u), s, i), OrElse(First(Gap(u), s, i), First(Blank(u), s, i)))
    ensures RunEnd(s, u.space, i) == run && First(Blank(u), s, i) == Some(run)
  {
    NoWord(u, s, i);
    FirstTekken(u, s, i);
    FirstSymbols(u, s, i);
    RunEndIs(s, u.space, i, run);
    FirstPlus(s, u.space, i);
  }

  /** White space with a line end in it is cut behind the last one. */
  lemma CutBehindLastLineEnd(u: Classes, s: string, i: nat, run: nat, last: nat)
    requires u.Sane() && BlankAt(u, s, i, run) && i <= last < run
    requires s[last] == '\r' || s[last] == '\n'
    requires forall k :: last < k < run ==> s[k] != '\r' && s[k] != '\n'
    ensures First(Tekken(u), s, i) == Some(last + 1)
  {
    NoSymbols(u, s, i, run);
    FirstLines(u, s, i);
  }

  /** Other white space leaves its last character to what follows, if it has two and anything follows. */
  lemma LastSpaceIsLeft(u: Classes, s: string, i: nat, run: nat)
    requires u.Sane() && BlankAt(u, s, i, run)
    requires forall k :: i <= k < run ==> s[k] != '\r' && s[k] != '\n'
    ensures First(Tekken(u), s, i) == Some(if run < |s| && run - i >= 2 then run - 1 else run)
  {
    NoSymbols(u, s, i, run);
    FirstLines(u, s, i);
    FirstGap(u, s, i);
  }

  // ---------- All pieces of a text ----------

  /** No capital follows a small letter directly. */
  ghost predicate NoInnerCapital(piece: string)
  {
    forall k :: 0 <= k && k + 1 < |piece| ==> !(IsSmall(piece[k]) && IsCapital(piece[k + 1]))
  }

  /** Both word alternatives match letters of which the first ones are not small and the others no capitals. */
  lemma WordKeepsCase(u: Classes, s: string, i: nat, e: nat)
    requires Latin(u) && i <= e <= |s|
    requires Matches(LowerWord(u), s, i, e) || Matches(UpperWord(u), s, i, e)
    ensures NoInnerCapital(s[i..e])
  {
    var word := if Matches(LowerWord(u), s, i, e) then LowerWord(u) else UpperWord(u);
    var b := PartsMatch(word, s, i, e);
    var m := PartsMatch(word.second, s, b, e);
    if Matches(LowerWord(u), s, i, e) {
      PlusMatches(s, c => u.Lower(c), m, e);
    } else {
      PlusMatches(s, c => u.Upper(c), b, m);
    }
    assert b == i || (b == i + 1 && u.Lead(s[i]));
    assert forall k :: b <= k < m ==> !IsSmall(s[k]);
    assert forall k :: m <= k < e ==> !IsCapital(s[k]);
  }

  ghost predicate NoLatin(s: string, i: nat, e: nat)
    requires i <= e <= |s|
  {
    forall k :: i <= k < e ==> !IsSmall(s[k]) && !IsCapital(s[k])
  }

  lemma SymbolsHaveNoLatin(u: Classes, s: string, i: nat, e: nat)
    requires Latin(u) && i <= e <= |s| && Matches(Symbols(u), s, i, e)
    ensures NoLatin(s, i, e)
  {
    var b := PartsMatch(Symbols(u), s, i, e);
    var m := PartsMatch(SymbolCore(u), s, b, e);
    PlusMatches(s, c => u.Symbol(c), b, m);
    assert forall k :: m <= k < e ==> IsNewlineOrSlash(s[k]);
    assert b == i || s[i] == ' ';
  }

  lemma SpaceHasNoLatin(u: Classes, s: string, i: nat, e: nat)
    requires Latin(u) && i <= e <= |s|
    requires Matches(Lines(u), s, i, e) || Matches(Gap(u), s, i, e) || Matches(Blank(u), s, i, e)
    ensures NoLatin(s, i, e)
  {
    if Matches(Lines(u), s, i, e) {
      var m := PartsMatch(Lines(u), s, i, e);
      PlusMatches(s, c => IsNewline(c), m, e);
      assert forall k :: i <= k < m ==> u.space(s[k]);
    } else if Matches(Gap(u), s, i, e) {
      var m := PartsMatch(Gap(u), s, i, e);
      PlusMatches(s, u.space, i, m);
    } else {
      PlusMatches(s, u.space, i, e);
    }
  }

  lemma TekkenMatches(u: Classes, s: string, i: nat, e: nat)
    requires i <= e <= |s| && Matches(Tekken(u), s, i, e)
    ensures
      || Matches(LowerWord(u), s, i, e) || Matches(UpperWord(u), s, i, e) || Matches(Digit(u), s, i, e)
      || Matches(Symbols(u), s, i, e) || Matches(Lines(u), s, i, e) || Matches(Gap(u), s, i, e) || Matches(Blank(u), s, i, e)
  {
    var gaps := Either(Lines(u), Either(Gap(u), Blank(u)));
    var others := Either(Digit(u), Either(Symbols(u), gaps));
    assert Tekken(u) == Either(LowerWord(u), Either(UpperWord(u), others));
    if Matches(others, s, i, e) {
      EitherMatches(Digit(u), Either(Symbols(u), gaps), s, i, e);
      EitherMatches(Symbols(u), gaps, s, i, e);
    } else {
      EitherMatches(LowerWord(u), Either(UpperWord(u), others), s, i, e);
      EitherMatches(UpperWord(u), others, s, i, e);
    }
  }

  lemma EitherMatches(p: Pattern, q: Pattern, s: string, i: nat, e: nat)
    requires i <= e <= |s|
    ensures Matches(Either(p, q), s, i, e) <==> Matches(p, s, i, e) || Matches(q, s, i, e)
  {
  }

  lemma MatchKeepsCase(u: Classes, s: string, i: nat, e: nat)
    requires Latin(u) && i <= e <= |s| && Matches(Tekken(u), s, i, e)
    ensures NoInnerCapital(s[i..e])
  {
    TekkenMatches(u, s, i, e);
    if Matches(LowerWord(u), s, i, e) || Matches(UpperWord(u), s, i, e) {
      WordKeepsCase(u, s, i, e);
    } else if Matches(Symbols(u), s, i, e) {
      SymbolsHaveNoLatin(u, s, i, e);
    } else if Matches(Lines(u), s, i, e) || Matches(Gap(u), s, i, e) || Matches(Blank(u), s, i, e) {
      SpaceHasNoLatin(u, s, i, e);
    } else {
      assert e == i + 1;
    }
  }

  /** In no piece of any text does a capital follow a small letter directly. */
  lemma {:induction false} PiecesKeepCase(u: Classes, s: string, i: nat)
    requires Latin(u) && i <= |s| && Total(Tekken(u))
    ensures forall piece :: piece in Split(Tekken(u), s, i) ==> NoInnerCapital(piece)
    decreases |s| - i
  {
    if i < |s| {
      MatchesAreLongEnough(Tekken(u), s, i);
      var e := First(Tekken(u), s, i).value;
      FirstMatches(Tekken(u), s, i);
      MatchKeepsCase(u, s, i, e);
      PiecesKeepCase(u, s, e);
    }
  }
}
