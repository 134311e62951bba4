/**
 When a call in the array layout keeps its id. The id field is looked for by its quoted name, and
 the name or the arguments may spell that first.
 */
module ToolCallIds {
  import opened Wrappers
  import opened Sequences
  import opened Search
  import opened JsonScan
  import opened JsonText
  import opened ToolCalls
  import opened ToolCallArray

  /** What is printed of a call before its id. */
  function Front(call: ToolCall, space: Space): string
  {
    NAME_FIELD + Quoted(Escape(call.name)) + ARGUMENTS_FIELD + NormalizedArguments(call.arguments, space)
  }

  /** A quoted `id` with a colon somewhere behind it: what follows is taken for the id. */
  predicate Captured(front: string)
  {
    match Find(front, ID)
    case None => false
    case Some(at) => Find(front[at + |ID|..], ":").Some?
  }

  // ---------- Nothing is captured ----------

  ghost predicate Mentions(text: string, pattern: string)
  {
    exists i :: OccursAt(text, pattern, i)
  }

  /** No quoted `id` comes about where two texts meet, unless the letters stand there. */
  lemma NotAcross(a: string, b: string)
    requires !Mentions(a, ID) && !Mentions(b, ID) && a != "" && b != ""
    requires a[|a| - 1] != 'i' && a[|a| - 1] != 'd' && b[0] != 'i'
    ensures !Mentions(a + b, ID)
  {
    assert (a + b)[|a|..] == b;
    forall i
      ensures !OccursAt(a + b, ID, i)
    {
      if 0 <= i && i + 4 <= |a| {
        OccursInPrefix(a, b, ID, i);
      } else if i >= |a| {
        OccursInSuffix(a + b, ID, |a|, i - |a|);
      } else if OccursAt(a + b, ID, i) {
        OccurrenceHas(a + b, ID, i, |a| - 1 - i);
        OccurrenceHas(a + b, ID, i, |a| - i);
        assert false;
      }
    }
  }

  /** The id field is found behind a text that does not mention it. */
  lemma IdIsFound(before: string, rest: string)
    requires before != "" && !Mentions(before, ID) && before[|before| - 1] == ' '
    ensures ValueOfKey(before + (ID + (":" + rest)), "id") == Some(|before| + 5)
  {
    var text := before + (ID + (":" + rest));
    assert "\"" + "id" + "\"" == ID && text[|before|..|before| + 4] == ID;
    forall i | 0 <= i < |before|
      ensures !OccursAt(text, ID, i)
    {
      if i + 4 <= |before| {
        OccursInPrefix(before, ID + (":" + rest), ID, i);
      } else if OccursAt(text, ID, i) {
        OccurrenceHas(text, ID, i, |before| - 1 - i);
        assert false;
      }
    }
    FindIs(text, ID, |before|);
    ValueBehindColon(text, "id", |before|, |before| + 4);
  }

  lemma IdIsMissing(text: string, space: Space)
    requires !Mentions(text, ID)
    ensures JsonObjectString(text, "id", space) == None
  {
    assert "\"" + "id" + "\"" == ID;
    assert Find(text, ID).None?;
  }

  lemma IdIsRead(before: string, id: string, text: string, space: Space)
    requires Spaced(space) && before != "" && !Mentions(before, ID) && before[|before| - 1] == ' '
    requires text == before + (ID + (":" + (" " + (Quoted(Escape(id)) + "}"))))
    ensures JsonObjectString(text, "id", space) == Some(id)
  {
    var value := " " + (Quoted(Escape(id)) + "}");
    IdIsFound(before, value);
    SkipThree(before, ID, ":", value);
    StringIsText(text, "id", |before| + 5, id, "}", space);
  }

  lemma PrintEnds(v: Value)
    requires IsDelimited(v)
    ensures
      var p := Print(v);
      p != "" && p[0] != 'i' && (p[|p| - 1] == '"' || p[|p| - 1] == '}' || p[|p| - 1] == ']')
  {
  }


  lemma FrontEnds(call: ToolCall, v: Value, space: Space)
    requires Sendable(call, v, space)
    ensures
      var front := Front(call, space);
      |front| >= 10 && (front[|front| - 1] == '"' || front[|front| - 1] == '}' || front[|front| - 1] == ']')
  {
    PrintEnds(v);
  }

  /** What is printed behind the front. */
  function Tail(id: string): string
  {
    if id == "" then "}" else ", " + (ID + (":" + (" " + (Quoted(Escape(id)) + "}"))))
  }

  lemma ObjectIsFrontAndTail(call: ToolCall, space: Space)
    ensures PrintObject(call, space) == Front(call, space) + Tail(call.id)
  {
    if call.id == "" {
      assert Front(call, space) + "" == Front(call, space);
    } else {
      AtId(call, NormalizedArguments(call.arguments, space), space);
      Associate(Front(call, space), ", ", ID + (":" + (" " + (Quoted(Escape(call.id)) + "}"))));
    }
  }

  /** A first occurrence stays the first, whatever is appended. */
  lemma FirstStaysFirst(front: string, tail: string, pattern: string)
    requires Find(front, pattern).Some?
    ensures Find(front + tail, pattern) == Find(front, pattern)
  {
    var at := Find(front, pattern).value;
    OccursInPrefix(front, tail, pattern, at);
    forall i | 0 <= i < at
      ensures !OccursAt(front + tail, pattern, i)
    {
      OccursInPrefix(front, tail, pattern, i);
    }
    FindIs(front + tail, pattern, at);
  }

  lemma ColonMissing(s: string)
    requires Find(s, ":").None?
    ensures forall j :: 0 <= j < |s| ==> s[j] != ':'
  {
    forall j | 0 <= j < |s|
      ensures s[j] != ':'
    {
      assert !OccursAt(s, ":", j);
      assert s[j..j + 1] == [s[j]];
    }
  }

  lemma TooShort(s: string)
    requires |s| < |ID|
    ensures !Mentions(s, ID)
  {
  }

  lemma NoColonNoField(text: string, at: nat)
    requires Find(text, ID) == Some(at) && Find(text[at + |ID|..], ":").None?
    ensures ValueOfKey(text, "id") == None
  {
    assert "\"" + "id" + "\"" == ID;
  }

  /** Behind a front that captures nothing, no id is read if none is printed. */
  lemma NoIdIsRead(front: string, space: Space)
    requires !Captured(front) && front != "" && front[|front| - 1] != 'i' && front[|front| - 1] != 'd'
    ensures JsonObjectString(front + "}", "id", space) == None
  {
    var text := front + "}";
    match Find(front, ID)
    case None =>
      TooShort("}");
      NotAcross(front, "}");
      IdIsMissing(text, space);
    case Some(at) =>
      FirstStaysFirst(front, "}", ID);
      ColonMissing(front[at + |ID|..]);
      DropOfConcat(front, "}", at + |ID|);
      NoneWithoutColon(front[at + |ID|..] + "}");
      NoColonNoField(text, at);
  }

  lemma NoneWithoutColon(s: string)
    requires forall j :: 0 <= j < |s| ==> s[j] != ':'
    ensures Find(s, ":").None?
  {
    forall i
      ensures !OccursAt(s, ":", i)
    {
      if OccursAt(s, ":", i) {
        OccurrenceHas(s, ":", i, 0);
        assert false;
      }
    }
  }

  /** The field of a printed id is found behind a front that captures nothing. */
  lemma IdFieldIsFound(front: string, rest: string)
    requires !Captured(front) && front != "" && front[|front| - 1] != 'i' && front[|front| - 1] != 'd'
    ensures ValueOfKey(front + ", " + (ID + (":" + rest)), "id") == Some(|front| + 7)
  {
    var text := front + ", " + (ID + (":" + rest));
    match Find(front, ID)
    case None =>
      TooShort(", ");
      NotAcross(front, ", ");
      IdIsFound(front + ", ", rest);
    case Some(at) =>
      assert "\"" + "id" + "\"" == ID;
      Associate(front, ", ", ID + (":" + rest));
      FirstStaysFirst(front, ", " + (ID + (":" + rest)), ID);
      ColonMissing(front[at + |ID|..]);
      NextColonIsTheField(front, at + |ID|, rest);
      ValueBehindColon(text, "id", at, |front| + 6);
  }

  lemma NextColonIsTheField(front: string, from: nat, rest: string)
    requires from <= |front| && forall j :: 0 <= j < |front[from..]| ==> front[from..][j] != ':'
    ensures
      var text := front + ", " + (ID + (":" + rest));
      text[|front| + 6] == ':' && forall j :: from <= j < |front| + 6 ==> text[j] != ':'
  {
    var (text, middle) := (front + ", " + (ID + (":" + rest)), ", " + ID);
    assert text == front + (middle + (":" + rest));
    forall j | from <= j < |front| + 6
      ensures text[j] != ':'
    {
      if j < |front| {
        assert text[j] == front[from..][j - from];
      } else {
        assert text[j] == middle[j - |front|];
      }
    }
  }

  /** If the front captures nothing, the id that was printed is the one that is read. */
  lemma UncapturedIdIsRead(call: ToolCall, v: Value, space: Space)
    requires Spaced(space) && Sendable(call, v, space) && !Captured(Front(call, space))
    ensures ReadId(PrintObject(call, space), space) == call.id
  {
    var front := Front(call, space);
    FrontEnds(call, v, space);
    ObjectIsFrontAndTail(call, space);
    if call.id == "" {
      NoIdIsRead(front, space);
    } else {
      PrintedIdIsRead(front, call.id, space);
    }
  }

  lemma PrintedIdIsRead(front: string, id: string, space: Space)
    requires Spaced(space) && id != "" && !Captured(front)
    requires front != "" && front[|front| - 1] != 'i' && front[|front| - 1] != 'd'
    ensures JsonObjectString(front + Tail(id), "id", space) == Some(id)
  {
    var value := " " + (Quoted(Escape(id)) + "}");
    var text := front + Tail(id);
    IdIsPlaced(front, value, text);
    StringIsText(text, "id", |front| + 7, id, "}", space);
  }

  lemma IdIsPlaced(front: string, value: string, text: string)
    requires text == front + (", " + (ID + (":" + value))) && !Captured(front)
    requires front != "" && front[|front| - 1] != 'i' && front[|front| - 1] != 'd'
    ensures |front| + 7 <= |text| && text[|front| + 7..] == value && ValueOfKey(text, "id") == Some(|front| + 7)
  {
    Associate(front, ", ", ID + (":" + value));
    IdFieldIsFound(front, value);
    SkipThree(front + ", ", ID, ":", value);
  }

  // ---------- Something is captured ----------

  /** What ends within a text ends there whatever is appended. */
  lemma {:induction false} EndStays(bracketed: bool, st: State, a: string, rest: string)
    requires EndFrom(bracketed, st, a).Some?
    ensures EndFrom(bracketed, st, a + rest) == EndFrom(bracketed, st, a)
    decreases |a|
  {
    assert (a + rest)[1..] == a[1..] + rest;
    match Advance(bracketed, st, a[0])
    case Go(next) => EndStays(bracketed, next, a[1..], rest);
    case _ =>
  }

  /** The text ends with the quote that opens the name of the id field. */
  predicate EndsWithOpenQuote(s: string)
  {
    |s| >= 3 && s[|s| - 3..] == ", \""
  }

  /** A string that is being read ends at that quote at the latest. */
  lemma {:induction false} StringIsOver(d: nat, escaped: bool, s: string)
    requires EndsWithOpenQuote(s)
    ensures EndFrom(false, State(d, true, escaped), s).Some?
    decreases |s|
  {
    var st := State(d, true, escaped);
    if |s| == 3 {
      assert s == ", \"" && s[1..] == " \"" && s[1..][1..] == "\"";
      assert EndFrom(false, State(d, true, false), "\"").Some?;
      assert EndFrom(false, State(d, true, false), " \"").Some?;
    } else {
      assert s[1..][|s[1..]| - 3..] == s[|s| - 3..];
      match Advance(false, st, s[0])
      case Go(next) => StringIsOver(d, next.escaped, s[1..]);
      case _ =>
    }
  }

  predicate IsStructural(c: char)
  {
    c == '"' || c == '{' || c == '[' || c == '}' || c == ']'
  }

  /** So does a value that begins with a string. */
  lemma {:induction false} StringValueIsOver(s: string, q: nat)
    requires EndsWithOpenQuote(s) && q + 3 < |s| && s[q] == '"'
    requires forall j :: 0 <= j < q ==> !IsStructural(s[j])
    ensures EndFrom(false, OUTSIDE, s).Some?
    decreases q
  {
    assert s[1..][|s[1..]| - 3..] == s[|s| - 3..];
    if q == 0 {
      StringIsOver(0, false, s[1..]);
    } else if s[0] != ',' {
      StringValueIsOver(s[1..], q - 1);
    }
  }

  lemma {:induction false} SkippedIsSpace(s: string, space: Space, i: nat)
    requires i <= |s|
    ensures forall j :: i <= j < SkipLeading(s, space, i) ==> space(s[j])
    decreases |s| - i
  {
    if i < |s| && space(s[i]) {
      SkippedIsSpace(s, space, i + 1);
    }
  }

  /** Text that is a string once trimmed has nothing but white space before its quote. */
  lemma TrimmedString(s: string, space: Space) returns (q: nat)
    requires Trim(s, space) != "" && Trim(s, space)[0] == '"'
    ensures q < |s| && s[q] == '"' && forall j :: 0 <= j < q ==> space(s[j])
  {
    q := SkipLeading(s, space, 0);
    SkippedIsSpace(s, space, 0);
  }

  /** Where the scan of a value begins. */
  function ValueStart(text: string, start: nat): (i: nat)
    requires start <= |text|
    ensures start <= i <= |text|
    ensures forall j :: start <= j < i ==> IsAsciiWhitespace(text[j])
    ensures i < |text| ==> !IsAsciiWhitespace(text[i])
    decreases |text| - start
  {
    if start < |text| && IsAsciiWhitespace(text[start]) then ValueStart(text, start + 1) else start
  }

  lemma ValueEndFromStart(text: string, start: nat, at: nat)
    requires start <= at < |text| && !IsAsciiWhitespace(text[at])
    requires forall j :: start <= j < at ==> IsAsciiWhitespace(text[j])
    ensures ValueEnd(text, start)
         == match EndFrom(IsOpening(text[at]), OUTSIDE, text[at..]) case None => None case Some(n) => Some(at + n)
  {
    SkipSpace(text, start, at);
  }

  /** The text of a raw value, if that is a string. */
  function StringOf(raw: string): Option<string>
  {
    if |raw| >= 2 && raw[0] == '"' && raw[|raw| - 1] == '"' then Some(Unescape(raw[1..|raw| - 1])) else None
  }

  /** The string that stands at `start`. */
  function StringAt(text: string, start: nat, space: Space): Option<string>
    requires start <= |text|
  {
    match ValueEnd(text, start)
    case None => None
    case Some(end) => StringOf(Trim(text[start..end], space))
  }

  lemma FieldIsStringAt(text: string, key: string, colon: nat, space: Space)
    requires ValueOfKey(text, key) == Some(colon)
    ensures JsonObjectString(text, key, space) == StringAt(text, colon, space)
  {
  }

  /** A position in the front at which a value may be read, and the text up to the id field's opening quote. */
  ghost predicate Within(front: string, k: string, start: nat, space: Space)
  {
    && start < |front| && k == front + ", \""
    && !space(front[|front| - 1]) && !IsAsciiWhitespace(front[|front| - 1])
  }

  /** What the text up to the opening quote says about the string. */
  function Decided(k: string, start: nat, space: Space): Option<string>
    requires start <= |k|
  {
    var at := ValueStart(k, start);
    if at == |k| then None
    else
      match EndFrom(IsOpening(k[at]), OUTSIDE, k[at..])
      case None => None
      case Some(n) => StringOf(Trim(k[start..at + n], space))
  }

  lemma StartIsInFront(front: string, k: string, start: nat, space: Space)
    requires Within(front, k, start, space)
    ensures ValueStart(k, start) < |front|
  {
    assert k[|front| - 1] == front[|front| - 1];
  }

  /** A scan that has not ended at the opening quote does not read a string. */
  lemma UndecidedIsNoString(front: string, k: string, start: nat, at: nat, rest: string, end: nat, space: Space)
    requires Sane(space) && Within(front, k, start, space) && start <= end <= |k + rest|
    requires at == ValueStart(k, start) < |k| && EndFrom(IsOpening(k[at]), OUTSIDE, k[at..]).None?
    ensures StringOf(Trim((k + rest)[start..end], space)) == None
  {
    var t := (k + rest)[start..end];
    if Trim(t, space) != "" && Trim(t, space)[0] == '"' {
      var q := TrimmedString(t, space);
      QuoteStandsInFront(front, k, start, rest, end, q, space);
      BeforeQuote(front, k, start, start + q, space);
      assert k[at..][start + q - at] == '"';
      StringValueIsOver(k[at..], start + q - at);
      assert false;
    }
  }

  lemma QuoteStandsInFront(front: string, k: string, start: nat, rest: string, end: nat, q: nat, space: Space)
    requires Within(front, k, start, space) && start <= end <= |k + rest|
    requires q < end - start && (k + rest)[start..end][q] == '"'
    requires forall j :: 0 <= j < q ==> space((k + rest)[start..end][j])
    ensures start + q < |front| && k[start + q] == '"' && forall j :: start <= j < start + q ==> space(k[j])
  {
    var (t, last) := ((k + rest)[start..end], |front| - 1 - start);
    assert last < |t| ==> t[last] == front[|front| - 1];
    assert q <= last;
    forall j | start <= j < start + q
      ensures space(k[j])
    {
      assert t[j - start] == k[j];
    }
  }

  /** If only white space precedes a quote, the scan starts there or before, and meets nothing structural on the way. */
  lemma BeforeQuote(front: string, k: string, start: nat, d: nat, space: Space)
    requires Sane(space) && Within(front, k, start, space)
    requires start <= d < |front| && k[d] == '"' && forall j :: start <= j < d ==> space(k[j])
    ensures
      var at := ValueStart(k, start);
      && at <= d && !IsOpening(k[at]) && EndsWithOpenQuote(k[at..])
      && forall j :: 0 <= j < d - at ==> !IsStructural(k[at..][j])
  {
    var at := ValueStart(k, start);
    StartIsInFront(front, k, start, space);
    assert k[at..][|k[at..]| - 3..] == ", \"";
    forall j | 0 <= j < d - at
      ensures !IsStructural(k[at..][j])
    {
      assert space(k[at + j]);
    }
  }

  lemma EndedScanDecides(k: string, start: nat, at: nat, n: nat, rest: string, space: Space)
    requires start <= |k| && at == ValueStart(k, start) < |k|
    requires EndFrom(IsOpening(k[at]), OUTSIDE, k[at..]) == Some(n)
    ensures StringAt(k + rest, start, space) == StringOf(Trim(k[start..at + n], space))
  {
    ScanGoesOn(k, start, at, rest);
    EndStays(IsOpening(k[at]), OUTSIDE, k[at..], rest);
    assert (k + rest)[start..at + n] == k[start..at + n];
  }

  lemma OpenScanReadsNothing(front: string, k: string, start: nat, at: nat, rest: string, space: Space)
    requires Sane(space) && Within(front, k, start, space)
    requires at == ValueStart(k, start) < |k| && EndFrom(IsOpening(k[at]), OUTSIDE, k[at..]).None?
    ensures StringAt(k + rest, start, space) == None
  {
    var end := ValueEnd(k + rest, start);
    if end.Some? {
      UndecidedIsNoString(front, k, start, at, rest, end.value, space);
    }
  }

  /** Behind a captured colon, the text up to the quote that opens the id field decides what is read. */
  lemma StringIsDecided(front: string, k: string, start: nat, rest: string, space: Space)
    requires Sane(space) && Within(front, k, start, space)
    ensures StringAt(k + rest, start, space) == Decided(k, start, space)
  {
    var at := ScanStart(front, k, start, space);
    if EndFrom(IsOpening(k[at]), OUTSIDE, k[at..]).None? {
      OpenScanReadsNothing(front, k, start, at, rest, space);
    }
    ScanDecides(k, start, at, rest, space);
  }

  lemma ScanStart(front: string, k: string, start: nat, space: Space) returns (at: nat)
    requires Within(front, k, start, space)
    ensures start <= |k| && at == ValueStart(k, start) < |k|
  {
    at := ValueStart(k, start);
    StartIsInFront(front, k, start, space);
  }

  lemma ScanDecides(k: string, start: nat, at: nat, rest: string, space: Space)
    requires start <= |k| && at == ValueStart(k, start) < |k|
    requires EndFrom(IsOpening(k[at]), OUTSIDE, k[at..]).None? ==> StringAt(k + rest, start, space) == None
    ensures StringAt(k + rest, start, space) == Decided(k, start, space)
  {
    var ended := EndFrom(IsOpening(k[at]), OUTSIDE, k[at..]);
    if ended.Some? {
      EndedScanDecides(k, start, at, ended.value, rest, space);
    }
  }

  lemma ScanGoesOn(k: string, start: nat, at: nat, rest: string)
    requires start <= |k| && at == ValueStart(k, start) < |k|
    ensures ValueEnd(k + rest, start)
         == match EndFrom(IsOpening(k[at]), OUTSIDE, k[at..] + rest) case None => None case Some(n) => Some(at + n)
  {
    assert forall j :: start <= j <= at ==> (k + rest)[j] == k[j];
    ValueEndFromStart(k + rest, start, at);
    DropOfConcat(k, rest, at);
  }

  /** Where a captured value begins, whatever is printed behind the front. */
  lemma CapturedColon(front: string, tail: string) returns (colon: nat)
    requires Captured(front)
    ensures colon <= |front| && colon == CaptureStart(front)
    ensures ValueOfKey(front + tail, "id") == Some(colon)
  {
    var at := Find(front, ID).value;
    colon := CaptureStart(front);
    assert "\"" + "id" + "\"" == ID;
    FirstStaysFirst(front, tail, ID);
    FirstStaysFirst(front[at + |ID|..], tail, ":");
    DropOfConcat(front, tail, at + |ID|);
  }

  function CaptureStart(front: string): (start: nat)
    requires Captured(front)
    ensures 0 < start <= |front| && front[start - 1] == ':'
  {
    var from := Find(front, ID).value + |ID|;
    var n := Find(front[from..], ":").value;
    assert front[from..][n..n + 1] == ":" && front[from..][n] == front[from + n];
    from + n + 1
  }

  /** A captured front is read alike for all ids that are printed behind it. */
  lemma CapturedIdIsFixed(front: string, id: string, space: Space)
    requires Sane(space) && Captured(front) && id != ""
    requires !space(front[|front| - 1]) && !IsAsciiWhitespace(front[|front| - 1]) && front[|front| - 1] != ':'
    ensures JsonObjectString(front + Tail(id), "id", space) == Decided(front + ", \"", CaptureStart(front), space)
  {
    var colon := CapturedColon(front, Tail(id));
    var k, rest := QuoteOpens(front, id);
    FieldIsStringAt(front + Tail(id), "id", colon, space);
    StringIsDecided(front, k, colon, rest, space);
  }

  /** The object up to the quote that opens the name of the id field, and the rest of it. */
  lemma QuoteOpens(front: string, id: string) returns (k: string, rest: string)
    requires id != ""
    ensures k == front + ", \"" && front + Tail(id) == k + rest
  {
    var value := ":" + (" " + (Quoted(Escape(id)) + "}"));
    k := front + ", \"";
    rest := IdQuote(value);
    SplitQuote(front, rest);
  }

  lemma IdQuote(value: string) returns (rest: string)
    ensures ID + value == "\"" + rest
  {
    rest := "id\"" + value;
    assert ID == "\"" + "id\"";
    Associate("\"", "id\"", value);
  }

  lemma SplitQuote(front: string, rest: string)
    ensures front + (", " + ("\"" + rest)) == front + ", \"" + rest
  {
  }

  // ---------- Exactly when ids survive ----------

  /** The call comes back with the id it is given. */
  ghost predicate KeepsId(call: ToolCall, id: string, space: Space)
  {
    ReadId(PrintObject(call.(id := id), space), space) == id
  }

  lemma CapturedIdIsLost(call: ToolCall, v: Value, space: Space) returns (id: string)
    requires Spaced(space) && Sendable(call, v, space) && Captured(Front(call, space))
    ensures !KeepsId(call, id, space)
  {
    var front := Front(call, space);
    FrontEnds(call, v, space);
    ObjectIsFrontAndTail(call.(id := "a"), space);
    ObjectIsFrontAndTail(call.(id := "b"), space);
    CapturedIdIsFixed(front, "a", space);
    CapturedIdIsFixed(front, "b", space);
    id := if KeepsId(call, "a", space) then "b" else "a";
  }

  /** A call comes back with whatever id it is given exactly if nothing in front of the id is taken for it. */
  lemma IdSurvivesIff(call: ToolCall, v: Value, space: Space)
    requires Spaced(space) && Sendable(call, v, space)
    ensures (forall id :: KeepsId(call, id, space)) <==> !Captured(Front(call, space))
  {
    if Captured(Front(call, space)) {
      var id := CapturedIdIsLost(call, v, space);
      assert !KeepsId(call, id, space);
    } else {
      forall id
        ensures KeepsId(call, id, space)
      {
        UncapturedIdIsRead(call.(id := id), v, space);
      }
    }
  }

  // ---------- The round trip ----------

  /** What should come back of a call. */
  function Returned(call: ToolCall, space: Space): ToolCall
  {
    call.(arguments := NormalizedArguments(call.arguments, space))
  }

  function AllReturned(calls: seq<ToolCall>, space: Space): (returned: seq<ToolCall>)
    ensures |returned| == |calls| && forall i :: 0 <= i < |calls| ==> returned[i] == Returned(calls[i], space)
  {
    seq(|calls|, i requires 0 <= i < |calls| => Returned(calls[i], space))
  }

  /** Printing prose and calls and parsing them again gives the trimmed prose and the same calls. */
  ghost predicate RoundTrips(prose: string, calls: seq<ToolCall>, space: Space)
  {
    Parse(prose + (MARKER + PrintArray(calls, space)), space) == (Trim(prose, space), AllReturned(calls, space))
  }

  lemma RoundTripsIffIdsAreRead(prose: string, calls: seq<ToolCall>, values: seq<Value>, space: Space)
    requires Spaced(space) && calls != [] && AllSendable(calls, values, space) && Find(prose, MARKER).None?
    ensures RoundTrips(prose, calls, space) <==> forall i :: 0 <= i < |calls| ==> KeepsId(calls[i], calls[i].id, space)
  {
    ArrayIsReadBack(prose, calls, values, space);
    SameIffIdsAre(calls, space);
  }

  lemma SameIffIdsAre(calls: seq<ToolCall>, space: Space)
    ensures AllReadBack(calls, space) == AllReturned(calls, space)
       <==> forall i :: 0 <= i < |calls| ==> KeepsId(calls[i], calls[i].id, space)
  {
    forall i | 0 <= i < |calls|
      ensures AllReadBack(calls, space)[i] == AllReturned(calls, space)[i] <==> KeepsId(calls[i], calls[i].id, space)
    {
      assert calls[i].(id := calls[i].id) == calls[i];
    }
  }

  function WithIds(calls: seq<ToolCall>, ids: seq<string>): (given: seq<ToolCall>)
    requires |ids| == |calls|
    ensures |given| == |calls| && forall i :: 0 <= i < |calls| ==> given[i] == calls[i].(id := ids[i])
  {
    seq(|calls|, i requires 0 <= i < |calls| => calls[i].(id := ids[i]))
  }

  lemma SendableWithIds(calls: seq<ToolCall>, values: seq<Value>, ids: seq<string>, space: Space)
    requires AllSendable(calls, values, space) && |ids| == |calls|
    ensures AllSendable(WithIds(calls, ids), values, space)
  {
    forall i | 0 <= i < |calls|
      ensures Sendable(WithIds(calls, ids)[i], values[i], space)
    {
      assert Sendable(calls[i], values[i], space);
    }
  }

  /**
   Exactly when an array of calls comes back from text, in order and with every name, arguments
   and whatever ids it is given: nothing printed before an id may be taken for one.
   */
  lemma JsonArrayRoundTripIff(prose: string, calls: seq<ToolCall>, values: seq<Value>, space: Space)
    requires Spaced(space) && calls != [] && AllSendable(calls, values, space) && Find(prose, MARKER).None?
    ensures (forall ids: seq<string> :: |ids| == |calls| ==> RoundTrips(prose, WithIds(calls, ids), space))
       <==> forall i :: 0 <= i < |calls| ==> !Captured(Front(calls[i], space))
  {
    if i :| 0 <= i < |calls| && Captured(Front(calls[i], space)) {
      var ids := CapturedIdsAreLost(calls, values, i, space);
      LossInArray(prose, calls, values, i, ids, space);
    } else {
      forall ids: seq<string> | |ids| == |calls|
        ensures RoundTrips(prose, WithIds(calls, ids), space)
      {
        UncapturedCallsReturn(prose, calls, values, ids, space);
      }
    }
  }

  lemma CapturedIdsAreLost(calls: seq<ToolCall>, values: seq<Value>, i: nat, space: Space) returns (ids: seq<string>)
    requires Spaced(space) && AllSendable(calls, values, space)
    requires i < |calls| && Captured(Front(calls[i], space))
    ensures |ids| == |calls| && !KeepsId(calls[i], ids[i], space)
  {
    assert Sendable(calls[i], values[i], space);
    var id := CapturedIdIsLost(calls[i], values[i], space);
    ids := seq(|calls|, _ => id);
  }

  lemma LossInArray(prose: string, calls: seq<ToolCall>, values: seq<Value>, i: nat, ids: seq<string>, space: Space)
    requires Spaced(space) && AllSendable(calls, values, space) && Find(prose, MARKER).None?
    requires i < |calls| == |ids| && !KeepsId(calls[i], ids[i], space)
    ensures !RoundTrips(prose, WithIds(calls, ids), space)
  {
    SendableWithIds(calls, values, ids, space);
    SameLoss(calls[i], WithIds(calls, ids)[i], ids[i], space);
    LossIsSeen(prose, WithIds(calls, ids), values, i, space);
  }

  lemma SameLoss(call: ToolCall, given: ToolCall, id: string, space: Space)
    requires given == call.(id := id)
    ensures KeepsId(given, given.id, space) == KeepsId(call, id, space)
  {
    assert given.(id := given.id) == call.(id := id);
  }

  lemma LossIsSeen(prose: string, given: seq<ToolCall>, values: seq<Value>, i: nat, space: Space)
    requires Spaced(space) && AllSendable(given, values, space) && Find(prose, MARKER).None?
    requires i < |given| && !KeepsId(given[i], given[i].id, space)
    ensures !RoundTrips(prose, given, space)
  {
    RoundTripsIffIdsAreRead(prose, given, values, space);
  }

  /** Calls of which nothing is captured come back with the ids they have. */
  lemma JsonArrayRoundTrip(prose: string, calls: seq<ToolCall>, values: seq<Value>, space: Space)
    requires Spaced(space) && calls != [] && AllSendable(calls, values, space) && Find(prose, MARKER).None?
    requires forall i :: 0 <= i < |calls| ==> !Captured(Front(calls[i], space))
    ensures RoundTrips(prose, calls, space)
  {
    RoundTripsIffIdsAreRead(prose, calls, values, space);
    forall i | 0 <= i < |calls|
      ensures KeepsId(calls[i], calls[i].id, space)
    {
      assert Sendable(calls[i], values[i], space) && calls[i].(id := calls[i].id) == calls[i];
      UncapturedIdIsRead(calls[i], values[i], space);
    }
  }

  lemma UncapturedCallsReturn(prose: string, calls: seq<ToolCall>, values: seq<Value>, ids: seq<string>, space: Space)
    requires Spaced(space) && calls != [] && AllSendable(calls, values, space) && Find(prose, MARKER).None?
    requires |ids| == |calls| && forall i :: 0 <= i < |calls| ==> !Captured(Front(calls[i], space))
    ensures RoundTrips(prose, WithIds(calls, ids), space)
  {
    SendableWithIds(calls, values, ids, space);
    forall i | 0 <= i < |calls|
      ensures !Captured(Front(WithIds(calls, ids)[i], space))
    {
      assert Front(WithIds(calls, ids)[i], space) == Front(calls[i], space);
    }
    JsonArrayRoundTrip(prose, WithIds(calls, ids), values, space);
  }

  // ---------- Two calls that are read wrong ----------

  /** A call named `id` comes back without its id, because its arguments are read for it. */
  lemma NamedIdLosesItsId(call: ToolCall, v: Value, text: string, space: Space)
    requires Spaced(space) && Sendable(call, v, space) && call.name == "id" && IsContainer(v)
    requires text == PrintObject(call, space)
    ensures JsonObjectString(text, "id", space) == None
  {
    EscapeOfId();
    AtArguments(call, Print(v), space);
    var (before, rest) := (BeforeArguments("id"), IdPart(call.id) + "}");
    var value := " " + (Print(v) + rest);
    ArgumentsAreFoundForId(before, value);
    SkipThree(before, ARGUMENTS, ":", value);
    RawIsValue(text, "id", |before| + 12, v, rest, space);
    DelimitedText(v, space);
    NotAString(text, "id", Print(v), space);
  }

  lemma ArgumentsAreFoundForId(before: string, value: string)
    requires before == BeforeArguments("id")
    ensures ValueOfKey(before + (ARGUMENTS + (":" + value)), "id") == Some(|before| + 12)
  {
    var text := before + (ARGUMENTS + (":" + value));
    FirstIdIsTheName(before, ARGUMENTS + (":" + value));
    NoColon("id", before, ":" + value);
    assert text[|before| + 11] == (ARGUMENTS + (":" + value))[11] == ':';
    ValueBehindColon(text, "id", 9, |before| + 11);
  }

  lemma NotAString(text: string, key: string, raw: string, space: Space)
    requires JsonObjectRaw(text, key, space) == Some(raw) && raw != "" && raw[0] != '"'
    ensures JsonObjectString(text, key, space) == None
  {
  }

  lemma EscapeOfId()
    ensures Escape("id") == "id"
  {
    assert "id"[1..] == "d" && "d"[1..] == "";
    assert Escape("d") == "d";
  }

  lemma FirstIdIsTheName(before: string, rest: string)
    requires before == BeforeArguments("id")
    ensures Find(before + rest, "\"" + "id" + "\"") == Some(9)
  {
    var text := before + rest;
    assert "\"" + "id" + "\"" == ID && before[9..13] == ID && text[9..13] == before[9..13];
    forall i | 0 <= i < 9
      ensures !OccursAt(text, ID, i)
    {
      if OccursAt(text, ID, i) {
        OccurrenceHas(text, ID, i, 0);
        OccurrenceHas(text, ID, i, 1);
        assert false;
      }
    }
    FindIs(text, ID, 9);
  }

  const USER := "{\"id\":\"u1\"}"

  /** What is printed of a call named `f` with these arguments before their id. */
  function BeforeUser(): string
  {
    NAME_FIELD + "\"f\"" + ARGUMENTS_FIELD + "{"
  }

  /** A call whose arguments have an id comes back with that for its own, whatever that was. */
  lemma ArgumentsIdIsTaken(call: ToolCall, space: Space)
    requires Spaced(space) && call.name == "f" && call.arguments == USER
    ensures NormalizedArguments(call.arguments, space) == USER
    ensures ReadId(PrintObject(call, space), space) == "u1"
  {
    TrimNothing(USER, space);
    UserObject(call, space);
    UserIdIsRead(BeforeUser(), "}" + Tail(call.id), space);
  }

  lemma UserObject(call: ToolCall, space: Space)
    requires call.name == "f" && NormalizedArguments(call.arguments, space) == USER
    ensures PrintObject(call, space) == BeforeUser() + (ID + (":" + ("\"u1\"" + ("}" + Tail(call.id)))))
  {
    EscapeOfF();
    ObjectIsFrontAndTail(call, space);
    assert USER == "{" + (ID + (":" + ("\"u1\"" + "}")));
    UserText(NAME_FIELD + "\"f\"" + ARGUMENTS_FIELD, Tail(call.id));
  }

  lemma UserIdIsRead(before: string, tail: string, space: Space)
    requires Spaced(space) && before == BeforeUser()
    ensures JsonObjectString(before + (ID + (":" + ("\"u1\"" + tail))), "id", space) == Some("u1")
  {
    var text := before + (ID + (":" + ("\"u1\"" + tail)));
    UserIdIsFound(before, "\"u1\"" + tail);
    SkipThree(before, ID, ":", "\"u1\"" + tail);
    UserIdIsString(text, |before| + 5, tail, space);
    FieldIsStringAt(text, "id", |before| + 5, space);
  }

  lemma UserText(start: string, tail: string)
    ensures start + ("{" + (ID + (":" + ("\"u1\"" + "}")))) + tail
         == start + "{" + (ID + (":" + ("\"u1\"" + ("}" + tail))))
  {
  }

  lemma EscapeOfF()
    ensures Quoted(Escape("f")) == "\"f\""
  {
    assert "f"[1..] == "";
  }

  lemma UserIdIsFound(before: string, rest: string)
    requires before == BeforeUser()
    ensures ValueOfKey(before + (ID + (":" + rest)), "id") == Some(|before| + 5)
  {
    var text := before + (ID + (":" + rest));
    assert "\"" + "id" + "\"" == ID && text[|before|..|before| + 4] == ID;
    assert forall j :: 0 <= j < |before| ==> before[j] != 'd';
    assert text[|before|] == '"' && text[|before| + 1] == 'i';
    forall i | 0 <= i < |before|
      ensures !OccursAt(text, ID, i)
    {
      if OccursAt(text, ID, i) {
        OccurrenceHas(text, ID, i, 2);
        assert false;
      }
    }
    FindIs(text, ID, |before|);
    assert text[|before| + 4] == ':';
    ValueBehindColon(text, "id", |before|, |before| + 4);
  }

  lemma UserIdIsString(text: string, start: nat, tail: string, space: Space)
    requires Spaced(space) && start <= |text| && text[start..] == "\"u1\"" + tail
    ensures StringAt(text, start, space) == Some("u1")
  {
    PlainIsBody("u1");
    var v := Str("u1");
    assert Print(v) == "\"u1\"" && text == text[..start] + Print(v) + tail;
    ValueEndsBehindPrint(text[..start], v, tail);
    assert text[start..start + 4] == "\"u1\"";
    TrimNothing("\"u1\"", space);
    assert "\"u1\""[1..3] == "u1";
    UnescapedUser();
    assert StringOf("\"u1\"") == Some("u1");
  }

  lemma UnescapedUser()
    ensures Unescape("u1") == "u1"
  {
    assert "u1"[1..] == "1" && "1"[1..] == "";
    assert Unescape("1") == "1";
  }
}
