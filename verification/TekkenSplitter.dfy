/**
 The Tekken pre-tokenizer, written as forward scans. At every position it takes exactly what a
 backtracking engine takes for the seven ordered alternatives of the Tekken pattern.
 */
module TekkenSplitter {
  import opened Wrappers
  import opened Regex

  /**
   Unicode character classes, left abstract. A character may be both a letter and a digit;
   the space and the two line ends are white space.
   */
  datatype Classes = Classes(letter: Class, digit: Class, space: Class)
  {
    ghost predicate Sane()
    {
      space(' ') && space('\r') && space('\n')
    }

    /** White space is neither letter nor digit. */
    ghost predicate Apart()
    {
      forall c :: space(c) ==> !letter(c) && !digit(c)
    }

    predicate Upper(c: char) { letter(c) && !('a' <= c <= 'z') }

    predicate Lower(c: char) { letter(c) && !('A' <= c <= 'Z') }

    predicate Lead(c: char) { c != '\r' && c != '\n' && !letter(c) && !digit(c) }

    predicate Symbol(c: char) { !space(c) && !letter(c) && !digit(c) }
  }

  predicate IsNewline(c: char) { c == '\r' || c == '\n' }

  predicate IsNewlineOrSlash(c: char) { IsNewline(c) || c == '/' }

  /** The seven alternatives, in order. */
  function LowerWord(u: Classes): Pattern
  {
    Then(Maybe(c => u.Lead(c)), Then(Star(c => u.Upper(c)), Plus(c => u.Lower(c))))
  }

  function UpperWord(u: Classes): Pattern
  {
    Then(Maybe(c => u.Lead(c)), Then(Plus(c => u.Upper(c)), Star(c => u.Lower(c))))
  }

  function Digit(u: Classes): Pattern
  {
    One(u.digit)
  }

  function Symbols(u: Classes): Pattern
  {
    Then(Maybe(c => c == ' '), Then(Plus(c => u.Symbol(c)), Star(c => IsNewlineOrSlash(c))))
  }

  function Lines(u: Classes): Pattern
  {
    Then(Star(u.space), Plus(c => IsNewline(c)))
  }

  function Gap(u: Classes): Pattern
  {
    Then(Plus(u.space), NotAhead(c => !u.space(c)))
  }

  function Blank(u: Classes): Pattern
  {
    Plus(u.space)
  }

  function Tekken(u: Classes): Pattern
  {
    Either(LowerWord(u), Either(UpperWord(u), Either(Digit(u), Either(Symbols(u),
      Either(Lines(u), Either(Gap(u), Blank(u)))))))
  }

  lemma FirstTekken(u: Classes, s: string, i: nat)
    requires i <= |s|
    ensures First(Tekken(u), s, i)
         == OrElse(First(LowerWord(u), s, i), OrElse(First(UpperWord(u), s, i), OrElse(First(Digit(u), s, i),
              OrElse(First(Symbols(u), s, i), OrElse(First(Lines(u), s, i), OrElse(First(Gap(u), s, i),
              First(Blank(u), s, i)))))))
  {
    FirstEither(Gap(u), Blank(u), s, i);
    FirstEither(Lines(u), Either(Gap(u), Blank(u)), s, i);
    FirstEither(Symbols(u), Either(Lines(u), Either(Gap(u), Blank(u))), s, i);
    FirstEither(Digit(u), Either(Symbols(u), Either(Lines(u), Either(Gap(u), Blank(u)))), s, i);
    FirstEither(UpperWord(u), Either(Digit(u), Either(Symbols(u), Either(Lines(u), Either(Gap(u), Blank(u))))), s, i);
    FirstEither(LowerWord(u), Either(UpperWord(u), Either(Digit(u), Either(Symbols(u),
      Either(Lines(u), Either(Gap(u), Blank(u)))))), s, i);
  }

  /** The lower-case alternative without its lead: give upper-case letters back until it fits. */
  function LowerCore(u: Classes): Pattern
  {
    Then(Star(c => u.Upper(c)), Plus(c => u.Lower(c)))
  }

  function UpperCore(u: Classes): Pattern
  {
    Then(Plus(c => u.Upper(c)), Star(c => u.Lower(c)))
  }

  method ScanLowerCore(u: Classes, s: string, start: nat) returns (end: Option<nat>)
    requires start <= |s|
    ensures end == First(LowerCore(u), s, start)
  {
    var upperEnd := ScanRun(s, c => u.Upper(c), start);
    ghost var ends := Ends(Star(c => u.Upper(c)), s, start);
    StarGivesBack(s, c => u.Upper(c), start);
    var giveBack := upperEnd;
    while true
      invariant start <= giveBack <= upperEnd
      invariant forall j :: 0 <= j < upperEnd - giveBack ==> First(Plus(c => u.Lower(c)), s, ends[j]).None?
      decreases giveBack
    {
      var j := ScanRun(s, c => u.Lower(c), giveBack);
      FirstPlus(s, c => u.Lower(c), giveBack);
      if j > giveBack {
        FirstThen(Star(c => u.Upper(c)), Plus(c => u.Lower(c)), s, start, upperEnd - giveBack);
        return Some(j);
      }
      if giveBack == start {
        NoneThen(Star(c => u.Upper(c)), Plus(c => u.Lower(c)), s, start);
        return None;
      }
      giveBack := giveBack - 1;
    }
  }

  method ScanUpperCore(u: Classes, s: string, start: nat) returns (end: Option<nat>)
    requires start <= |s|
    ensures end == First(UpperCore(u), s, start)
  {
    var upperEnd := ScanRun(s, c => u.Upper(c), start);
    PlusGivesBack(s, c => u.Upper(c), start);
    if upperEnd > start {
      var j := ScanRun(s, c => u.Lower(c), upperEnd);
      FirstStar(s, c => u.Lower(c), upperEnd);
      FirstThen(Plus(c => u.Upper(c)), Star(c => u.Lower(c)), s, start, 0);
      end := Some(j);
    } else {
      NoneThen(Plus(c => u.Upper(c)), Star(c => u.Lower(c)), s, start);
      end := None;
    }
  }

  lemma NoCoreWithoutLetter(u: Classes, s: string, i: nat)
    requires i <= |s| && !At(s, i, u.letter)
    ensures First(LowerCore(u), s, i) == None && First(UpperCore(u), s, i) == None
  {
    StarGivesBack(s, c => u.Upper(c), i);
    FirstPlus(s, c => u.Lower(c), i);
    NoneThen(Star(c => u.Upper(c)), Plus(c => u.Lower(c)), s, i);
    PlusGivesBack(s, c => u.Upper(c), i);
    NoneThen(Plus(c => u.Upper(c)), Star(c => u.Lower(c)), s, i);
  }

  /**
   The two word alternatives share one scan, which tries both cores behind a lead character
   before it tries either without one. The pattern has them in the other order; the answer is
   the same because a lead character is no letter.
   */
  lemma FirstWord(u: Classes, s: string, i: nat)
    requires i < |s|
    ensures OrElse(First(LowerWord(u), s, i), First(UpperWord(u), s, i))
         == if u.Lead(s[i])
            then OrElse(First(LowerCore(u), s, i + 1), First(UpperCore(u), s, i + 1))
            else OrElse(First(LowerCore(u), s, i), First(UpperCore(u), s, i))
  {
    FirstAfterMaybe(c => u.Lead(c), LowerCore(u), s, i);
    FirstAfterMaybe(c => u.Lead(c), UpperCore(u), s, i);
    if u.Lead(s[i]) {
      NoCoreWithoutLetter(u, s, i);
    }
  }

  method ScanWord(u: Classes, s: string, i: nat) returns (end: Option<nat>)
    requires i < |s|
    ensures end == OrElse(First(LowerWord(u), s, i), First(UpperWord(u), s, i))
  {
    FirstWord(u, s, i);
    if u.Lead(s[i]) {
      end := ScanLowerCore(u, s, i + 1);
      if end.Some? {
        return;
      }
      end := ScanUpperCore(u, s, i + 1);
      if end.Some? {
        return;
      }
      NoCoreWithoutLetter(u, s, i);
    }
    end := ScanLowerCore(u, s, i);
    if end.Some? {
      return;
    }
    end := ScanUpperCore(u, s, i);
  }

  /** An optional space, symbols, then line ends or slashes. */
  method ScanSymbols(u: Classes, s: string, i: nat) returns (end: Option<nat>)
    requires i < |s| && u.Sane()
    ensures end == First(Symbols(u), s, i)
  {
    var symbolStart := if s[i] == ' ' then i + 1 else i;
    var k := ScanRun(s, c => u.Symbol(c), symbolStart);
    FirstSymbols(u, s, i);
    if k > symbolStart {
      k := ScanRun(s, c => IsNewlineOrSlash(c), k);
      end := Some(k);
    } else {
      end := None;
    }
  }

  function SymbolCore(u: Classes): Pattern
  {
    Then(Plus(c => u.Symbol(c)), Star(c => IsNewlineOrSlash(c)))
  }

  lemma FirstSymbolCore(u: Classes, s: string, k: nat)
    requires k <= |s|
    ensures First(SymbolCore(u), s, k)
         == if At(s, k, c => u.Symbol(c))
            then Some(RunEnd(s, c => IsNewlineOrSlash(c), RunEnd(s, c => u.Symbol(c), k))) else None
  {
    PlusGivesBack(s, c => u.Symbol(c), k);
    if At(s, k, c => u.Symbol(c)) {
      FirstStar(s, c => IsNewlineOrSlash(c), RunEnd(s, c => u.Symbol(c), k));
      FirstThen(Plus(c => u.Symbol(c)), Star(c => IsNewlineOrSlash(c)), s, k, 0);
    } else {
      NoneThen(Plus(c => u.Symbol(c)), Star(c => IsNewlineOrSlash(c)), s, k);
    }
  }

  /** The optional space is never given back: it is no symbol itself. */
  lemma FirstSymbols(u: Classes, s: string, i: nat)
    requires i < |s| && u.Sane()
    ensures First(Symbols(u), s, i) == First(SymbolCore(u), s, if s[i] == ' ' then i + 1 else i)
    ensures
      var k := if s[i] == ' ' then i + 1 else i;
      First(SymbolCore(u), s, k)
        == if At(s, k, c => u.Symbol(c))
           then Some(RunEnd(s, c => IsNewlineOrSlash(c), RunEnd(s, c => u.Symbol(c), k))) else None
  {
    FirstAfterMaybe(c => c == ' ', SymbolCore(u), s, i);
    FirstSymbolCore(u, s, i);
    FirstSymbolCore(u, s, i + 1);
  }

  /** Position of the last line end in `s[i..limit]`. */
  function LastNewline(s: string, i: nat, limit: nat): (last: Option<nat>)
    requires i <= limit <= |s|
    ensures last.Some? ==> i <= last.value < limit && IsNewline(s[last.value])
    ensures last.Some? ==> forall k :: last.value < k < limit ==> !IsNewline(s[k])
    ensures last.None? ==> forall k :: i <= k < limit ==> !IsNewline(s[k])
    decreases limit
  {
    if i == limit then None
    else if IsNewline(s[limit - 1]) then Some(limit - 1)
    else LastNewline(s, i, limit - 1)
  }

  /** A run of white space is cut behind its last line end, if it has one. */
  lemma FirstLines(u: Classes, s: string, i: nat)
    requires i <= |s| && u.Sane()
    ensures
      var last := LastNewline(s, i, RunEnd(s, u.space, i));
      First(Lines(u), s, i) == if last.Some? then Some(last.value + 1) else None
  {
    var run := RunEnd(s, u.space, i);
    match LastNewline(s, i, run)
    case Some(last) => CutBehindLine(u, s, i, last);
    case None =>
      StarGivesBack(s, u.space, i);
      forall j | 0 <= j < |Ends(Star(u.space), s, i)|
        ensures First(Plus(c => IsNewline(c)), s, Ends(Star(u.space), s, i)[j]).None?
      {
        NotALine(u, s, i, run - j);
      }
      NoneThen(Star(u.space), Plus(c => IsNewline(c)), s, i);
  }

  /** The end of the run is no line end, being no white space. */
  lemma NotALine(u: Classes, s: string, i: nat, e: nat)
    requires i <= |s| && u.Sane() && i <= e <= RunEnd(s, u.space, i) <= |s|
    requires e < RunEnd(s, u.space, i) ==> !IsNewline(s[e])
    ensures First(Plus(c => IsNewline(c)), s, e).None?
  {
    FirstPlus(s, c => IsNewline(c), e);
  }

  lemma CutBehindLine(u: Classes, s: string, i: nat, last: nat)
    requires i <= |s| && u.Sane() && i <= last < RunEnd(s, u.space, i) <= |s| && IsNewline(s[last])
    requires forall k :: last < k < RunEnd(s, u.space, i) ==> !IsNewline(s[k])
    ensures First(Lines(u), s, i) == Some(last + 1)
  {
    var run := RunEnd(s, u.space, i);
    var ends := Ends(Star(u.space), s, i);
    StarGivesBack(s, u.space, i);
    forall j | 0 <= j < run - last
      ensures First(Plus(c => IsNewline(c)), s, ends[j]).None?
    {
      NotALine(u, s, i, run - j);
    }
    NotALine(u, s, i, last + 1);
    FirstPlus(s, c => IsNewline(c), last);
    assert !At(s, last + 1, c => IsNewline(c));
    FirstThen(Star(u.space), Plus(c => IsNewline(c)), s, i, run - last);
  }

  /** White space keeps its last character for what follows, unless the text ends. */
  lemma FirstGap(u: Classes, s: string, i: nat)
    requires i < |s| && u.space(s[i])
    ensures
      var run := RunEnd(s, u.space, i);
      First(Gap(u), s, i) == if run == |s| then Some(run) else if run - i > 1 then Some(run - 1) else None
  {
    var run := RunEnd(s, u.space, i);
    var ahead := NotAhead(c => !u.space(c));
    PlusGivesBack(s, u.space, i);
    if run == |s| {
      FirstThen(Plus(u.space), ahead, s, i, 0);
    } else if run - i > 1 {
      FirstThen(Plus(u.space), ahead, s, i, 1);
    } else {
      NoneThen(Plus(u.space), ahead, s, i);
    }
  }

  /** The three white-space alternatives, from one scan of the run. */
  method ScanSpace(u: Classes, s: string, i: nat) returns (end: nat)
    requires i < |s| && u.Sane() && u.space(s[i])
    ensures Some(end) == OrElse(First(Lines(u), s, i), OrElse(First(Gap(u), s, i), First(Blank(u), s, i)))
  {
    var run := ScanRun(s, u.space, i);
    FirstLines(u, s, i);
    FirstGap(u, s, i);
    FirstPlus(s, u.space, i);
    var last := run;
    while last > i && !IsNewline(s[last - 1])
      invariant i <= last <= run && LastNewline(s, i, last) == LastNewline(s, i, run)
    {
      last := last - 1;
    }
    if last > i {
      var groupEnd := last - 1;
      while groupEnd < run && IsNewline(s[groupEnd])
        invariant last - 1 <= groupEnd <= last
      {
        groupEnd := groupEnd + 1;
      }
      end := groupEnd;
    } else if run == |s| {
      end := run;
    } else {
      end := if run - i > 1 then run - 1 else run;
    }
  }

  lemma NoSpaceNoMatch(u: Classes, s: string, i: nat)
    requires i < |s| && u.Sane() && !u.space(s[i])
    ensures First(Lines(u), s, i) == None && First(Gap(u), s, i) == None && First(Blank(u), s, i) == None
  {
    FirstLines(u, s, i);
    FirstPlus(s, u.space, i);
    PlusGivesBack(s, u.space, i);
    NoneThen(Plus(u.space), NotAhead(c => !u.space(c)), s, i);
  }

  lemma LetterBeginsWord(u: Classes, s: string, i: nat)
    requires i < |s| && u.letter(s[i])
    ensures OrElse(First(LowerWord(u), s, i), First(UpperWord(u), s, i)).Some?
  {
    FirstWord(u, s, i);
    StarGivesBack(s, c => u.Upper(c), i);
    PlusGivesBack(s, c => u.Upper(c), i);
    if u.Upper(s[i]) {
      FirstStar(s, c => u.Lower(c), RunEnd(s, c => u.Upper(c), i));
      FirstThen(Plus(c => u.Upper(c)), Star(c => u.Lower(c)), s, i, 0);
    } else {
      FirstPlus(s, c => u.Lower(c), i);
      FirstThen(Star(c => u.Upper(c)), Plus(c => u.Lower(c)), s, i, 0);
    }
  }

  /** Every character begins a match, and every match makes progress. */
  lemma TekkenAlwaysMatches(u: Classes, s: string, i: nat)
    requires i < |s| && u.Sane()
    ensures First(Tekken(u), s, i).Some? && First(Tekken(u), s, i).value > i
  {
    FirstTekken(u, s, i);
    if u.letter(s[i]) {
      LetterBeginsWord(u, s, i);
    } else if u.space(s[i]) {
      FirstPlus(s, u.space, i);
    } else {
      FirstSymbols(u, s, i);
    }
    TekkenConsumes(u);
    MatchesAreLongEnough(Tekken(u), s, i);
  }

  lemma TekkenConsumes(u: Classes)
    ensures MinLength(Tekken(u)) == 1
  {
    WordsConsume(u);
    GapsConsume(u);
    var gaps := Either(Lines(u), Either(Gap(u), Blank(u)));
    assert MinLength(Either(Symbols(u), gaps)) == 1;
    assert MinLength(Either(Digit(u), Either(Symbols(u), gaps))) == 1;
    assert MinLength(Either(UpperWord(u), Either(Digit(u), Either(Symbols(u), gaps)))) == 1;
  }

  lemma WordsConsume(u: Classes)
    ensures MinLength(LowerWord(u)) == MinLength(UpperWord(u)) == MinLength(Symbols(u)) == 1
  {
    PlusConsumes(c => u.Lower(c));
    PlusConsumes(c => u.Upper(c));
    PlusConsumes(c => u.Symbol(c));
    assert MinLength(LowerCore(u)) == MinLength(UpperCore(u)) == MinLength(SymbolCore(u)) == 1;
  }

  lemma GapsConsume(u: Classes)
    ensures MinLength(Either(Lines(u), Either(Gap(u), Blank(u)))) == 1
  {
    PlusConsumes(c => IsNewline(c));
    PlusConsumes(u.space);
    assert MinLength(Lines(u)) == MinLength(Gap(u)) == MinLength(Blank(u)) == 1;
    assert MinLength(Either(Gap(u), Blank(u))) == 1;
  }

  lemma TekkenIsTotal(u: Classes)
    requires u.Sane()
    ensures Total(Tekken(u))
  {
    TekkenConsumes(u);
    forall s: string, i: nat | i < |s|
      ensures First(Tekken(u), s, i).Some?
    {
      TekkenAlwaysMatches(u, s, i);
    }
  }

  /** The end of the piece that starts at `i`, by forward scanning. */
  method PieceEnd(u: Classes, s: string, i: nat) returns (end: nat)
    requires i < |s| && u.Sane()
    ensures end == if First(Tekken(u), s, i).Some? then First(Tekken(u), s, i).value else i + 1
  {
    FirstTekken(u, s, i);
    var found := ScanWord(u, s, i);
    if found.None? && u.digit(s[i]) {
      found := Some(i + 1);
    }
    if found.None? {
      found := ScanSymbols(u, s, i);
    }
    if found.None? && u.space(s[i]) {
      end := ScanSpace(u, s, i);
    } else {
      if !u.space(s[i]) {
        NoSpaceNoMatch(u, s, i);
      }
      end := if found.Some? then found.value else i + 1;
    }
  }

  /** Splits text into pre-token pieces. */
  method PretokenizeTekken(u: Classes, s: string) returns (pieces: seq<string>)
    requires u.Sane()
    ensures Total(Tekken(u)) && pieces == Split(Tekken(u), s, 0)
  {
    TekkenIsTotal(u);
    pieces := [];
    var i := 0;
    while i < |s|
      invariant i <= |s| && pieces + Split(Tekken(u), s, i) == Split(Tekken(u), s, 0)
    {
      TekkenAlwaysMatches(u, s, i);
      var stop := PieceEnd(u, s, i);
      pieces := pieces + [s[i..stop]];
      i := stop;
    }
  }
}
