/**
 Finding the end of a JSON value without parsing it: only braces, brackets and string escapes
 are looked at. Values follow RFC 8259, sections 4, 5 and 7.
 */
module JsonScan {
  import opened Wrappers

  // ---------- The scanner ----------

  /** Nesting depth, and whether the scanner stands inside a string or behind a backslash. */
  datatype State = State(depth: nat, inString: bool, escaped: bool)

  /** Reading one character goes on, or ends the value before or behind it. */
  datatype Step = Go(next: State) | Before | Behind

  const OUTSIDE := State(0, false, false)

  function Advance(bracketed: bool, st: State, c: char): Step
  {
    if st.inString then
      if st.escaped then Go(st.(escaped := false))
      else if c == '\\' then Go(st.(escaped := true))
      else if c == '"' then (if bracketed then Go(st.(inString := false)) else Behind)
      else Go(st)
    else if c == '"' then Go(st.(inString := true))
    else if c == '{' || c == '[' then Go(st.(depth := st.depth + 1))
    else if c == '}' || c == ']' then
      if st.depth == 0 then Before
      else if st.depth == 1 then Behind
      else Go(st.(depth := st.depth - 1))
    else if c == ',' && st.depth == 0 then Before
    else Go(st)
  }

  /** How many characters of `s` belong to the value, reading on from `st`. */
  function EndFrom(bracketed: bool, st: State, s: string): (end: Option<nat>)
    ensures end.Some? ==> end.value <= |s|
    decreases |s|
  {
    if s == [] then None
    else
      match Advance(bracketed, st, s[0])
      case Before => Some(0)
      case Behind => Some(1)
      case Go(next) =>
        match EndFrom(bracketed, next, s[1..])
        case None => None
        case Some(end) => Some(end + 1)
  }

  predicate IsAsciiWhitespace(c: char)
  {
    c == ' ' || c == '\t' || c == '\n' || c == '\r' || c as int == 0x0C
  }

  predicate IsOpening(c: char)
  {
    c == '{' || c == '['
  }

  /** Skips white space, then scans one value. */
  function ValueEnd(text: string, start: nat): (end: Option<nat>)
    requires start <= |text|
    ensures end.Some? ==> start <= end.value <= |text|
    decreases |text| - start
  {
    if start == |text| then None
    else if IsAsciiWhitespace(text[start]) then ValueEnd(text, start + 1)
    else
      match EndFrom(IsOpening(text[start]), OUTSIDE, text[start..])
      case None => None
      case Some(n) => Some(start + n)
  }

  /** The end of the value, `i` characters into which the scanner is in state `st`. */
  function EndAt(text: string, i: nat, bracketed: bool, st: State): (end: Option<nat>)
    requires i <= |text|
  {
    match EndFrom(bracketed, st, text[i..])
    case None => None
    case Some(n) => Some(i + n)
  }

  lemma EndAtStep(text: string, i: nat, bracketed: bool, st: State)
    requires i < |text|
    ensures EndAt(text, i, bracketed, st)
         == match Advance(bracketed, st, text[i])
            case Before => Some(i)
            case Behind => Some(i + 1)
            case Go(next) => EndAt(text, i + 1, bracketed, next)
  {
    assert text[i..][0] == text[i] && text[i..][1..] == text[i + 1..];
  }

  /** Skips white space and scans one value, from `start` on. */
  method JsonValueEnd(text: string, start: nat) returns (end: Option<nat>)
    requires start <= |text|
    ensures end == ValueEnd(text, start)
  {
    var i := start;
    while i < |text| && IsAsciiWhitespace(text[i])
      invariant start <= i <= |text| && ValueEnd(text, i) == ValueEnd(text, start)
    {
      i := i + 1;
    }
    if i >= |text| {
      return None;
    }
    end := ScanValue(text, i, IsOpening(text[i]));
  }

  method ScanValue(text: string, start: nat, bracketed: bool) returns (end: Option<nat>)
    requires start <= |text|
    ensures end == EndAt(text, start, bracketed, OUTSIDE)
  {
    var i := start;
    var depth: nat, inString, escaped := 0, false, false;
    while i < |text|
      invariant start <= i <= |text|
      invariant EndAt(text, i, bracketed, State(depth, inString, escaped)) == EndAt(text, start, bracketed, OUTSIDE)
    {
      EndAtStep(text, i, bracketed, State(depth, inString, escaped));
      var c := text[i];
      if inString {
        if escaped {
          escaped := false;
        } else if c == '\\' {
          escaped := true;
        } else if c == '"' {
          if !bracketed {
            return Some(i + 1);
          }
          inString := false;
        }
      } else if c == '"' {
        inString := true;
      } else if c == '{' || c == '[' {
        depth := depth + 1;
      } else if c == '}' || c == ']' {
        if depth == 0 {
          return Some(i);
        }
        depth := depth - 1;
        if depth == 0 {
          return Some(i + 1);
        }
      } else if c == ',' && depth == 0 {
        return Some(i);
      }
      i := i + 1;
    }
    return None;
  }

  // ---------- JSON values ----------

  predicate IsJsonSpace(c: char)
  {
    c == ' ' || c == '\t' || c == '\n' || c == '\r'
  }

  predicate IsSpace(s: string)
  {
    forall i :: 0 <= i < |s| ==> IsJsonSpace(s[i])
  }

  predicate IsHex(c: char)
  {
    '0' <= c <= '9' || 'a' <= c <= 'f' || 'A' <= c <= 'F'
  }

  /** What may stand between the quotes of a string. */
  predicate IsStringBody(s: string)
  {
    s == [] ||
    if s[0] == '\\' then
      |s| >= 2 &&
      if s[1] == 'u' then |s| >= 6 && IsHex(s[2]) && IsHex(s[3]) && IsHex(s[4]) && IsHex(s[5]) && IsStringBody(s[6..])
      else s[1] in "\"\\/bfnrt" && IsStringBody(s[2..])
    else s[0] != '"' && s[0] as int >= 0x20 && IsStringBody(s[1..])
  }

  /** Numbers and the three names consist of these characters only. */
  predicate IsLiteralChar(c: char)
  {
    '0' <= c <= '9' || 'a' <= c <= 'z' || 'A' <= c <= 'Z' || c == '+' || c == '-' || c == '.'
  }

  predicate IsLiteral(s: string)
  {
    s != [] && forall i :: 0 <= i < |s| ==> IsLiteralChar(s[i])
  }

  /** A value with all its white space; `pad` stands between the brackets of an empty container. */
  datatype Value =
    | Str(body: string)
    | Literal(text: string)
    | Arr(pad: string, elements: seq<Element>)
    | Obj(pad: string, members: seq<Member>)

  datatype Element = Element(before: string, value: Value, after: string)

  datatype Member = Member(before: string, key: string, afterKey: string, item: Element)

  predicate Valid(v: Value)
    decreases v
  {
    match v
    case Str(body) => IsStringBody(body)
    case Literal(text) => IsLiteral(text)
    case Arr(pad, elements) => IsSpace(pad) && forall e :: e in elements ==> ValidElement(e)
    case Obj(pad, members) =>
      IsSpace(pad) && forall m :: m in members ==>
        IsSpace(m.before) && IsStringBody(m.key) && IsSpace(m.afterKey) && ValidElement(m.item)
  }

  predicate ValidElement(e: Element)
    decreases e
  {
    IsSpace(e.before) && Valid(e.value) && IsSpace(e.after)
  }

  function Quoted(body: string): string
  {
    "\"" + body + "\""
  }

  function Print(v: Value): string
    decreases v
  {
    match v
    case Str(body) => Quoted(body)
    case Literal(text) => text
    case Arr(pad, elements) => "[" + pad + PrintElements(elements) + "]"
    case Obj(pad, members) => "{" + pad + PrintMembers(members) + "}"
  }

  function PrintElement(e: Element): string
    decreases e
  {
    e.before + Print(e.value) + e.after
  }

  function PrintElements(elements: seq<Element>): string
    decreases elements
  {
    if elements == [] then []
    else if |elements| == 1 then PrintElement(elements[0])
    else PrintElement(elements[0]) + "," + PrintElements(elements[1..])
  }

  function PrintMember(m: Member): string
    decreases m
  {
    m.before + Quoted(m.key) + m.afterKey + ":" + PrintElement(m.item)
  }

  function PrintMembers(members: seq<Member>): string
    decreases members
  {
    if members == [] then []
    else if |members| == 1 then PrintMember(members[0])
    else PrintMember(members[0]) + "," + PrintMembers(members[1..])
  }

  // ---------- Scanning values ----------

  /** The state behind `s`, if reading it does not end the value. */
  function Consume(bracketed: bool, st: State, s: string): (end: Option<State>)
    decreases |s|
  {
    if s == [] then Some(st)
    else
      match Advance(bracketed, st, s[0])
      case Go(next) => Consume(bracketed, next, s[1..])
      case _ => None
  }

  lemma {:induction false} ConsumeConcat(bracketed: bool, st: State, a: string, b: string)
    ensures Consume(bracketed, st, a + b)
         == match Consume(bracketed, st, a)
            case None => None
            case Some(mid) => Consume(bracketed, mid, b)
    decreases |a|
  {
    if a == [] {
      assert a + b == b;
    } else {
      assert (a + b)[1..] == a[1..] + b;
      match Advance(bracketed, st, a[0])
      case Go(next) => ConsumeConcat(bracketed, next, a[1..], b);
      case _ =>
    }
  }

  /** Text that is consumed contributes its length, whatever follows. */
  lemma {:induction false} EndBehindConsumed(bracketed: bool, st: State, a: string, b: string)
    requires Consume(bracketed, st, a).Some?
    ensures EndFrom(bracketed, st, a + b)
         == match EndFrom(bracketed, Consume(bracketed, st, a).value, b)
            case None => None
            case Some(n) => Some(|a| + n)
    decreases |a|
  {
    if a == [] {
      assert a + b == b;
    } else {
      assert (a + b)[1..] == a[1..] + b;
      EndBehindConsumed(bracketed, Advance(bracketed, st, a[0]).next, a[1..], b);
    }
  }

  /** Inside a container: `s` is read over without leaving it, at any depth. */
  ghost predicate Passes(s: string)
  {
    forall d: nat :: d > 0 ==> PassesAt(s, d)
  }

  ghost predicate PassesAt(s: string, d: nat)
  {
    Consume(true, State(d, false, false), s) == Some(State(d, false, false))
  }

  lemma PassesConcat(a: string, b: string)
    requires Passes(a) && Passes(b)
    ensures Passes(a + b)
  {
    forall d: nat | d > 0
      ensures PassesAt(a + b, d)
    {
      assert PassesAt(a, d) && PassesAt(b, d);
      ConsumeConcat(true, State(d, false, false), a, b);
    }
  }

  predicate IsInert(c: char)
  {
    c != '"' && c != '{' && c != '[' && c != '}' && c != ']'
  }

  lemma {:induction false} InertPasses(s: string)
    requires forall i :: 0 <= i < |s| ==> IsInert(s[i])
    ensures Passes(s)
    decreases |s|
  {
    if s == [] {
      assert forall d: nat :: PassesAt(s, d);
    } else {
      InertPasses(s[1..]);
      forall d: nat | d > 0
        ensures PassesAt(s, d)
      {
        assert PassesAt(s[1..], d);
      }
    }
  }

  /** A string body never ends its string, in or outside of a container. */
  lemma {:induction false} BodyStaysInside(bracketed: bool, d: nat, body: string)
    requires IsStringBody(body)
    ensures Consume(bracketed, State(d, true, false), body) == Some(State(d, true, false))
    decreases |body|
  {
    var st := State(d, true, false);
    if body != [] {
      if body[0] == '\\' {
        var n := if body[1] == 'u' then 6 else 2;
        BodyStaysInside(bracketed, d, body[n..]);
        assert body == body[..n] + body[n..];
        ConsumeConcat(bracketed, st, body[..n], body[n..]);
        EscapeStaysInside(bracketed, d, body[..n]);
      } else {
        BodyStaysInside(bracketed, d, body[1..]);
      }
    }
  }

  lemma EscapeStaysInside(bracketed: bool, d: nat, e: string)
    requires |e| == 2 || (|e| == 6 && forall i :: 2 <= i < 6 ==> IsHex(e[i]))
    requires e[0] == '\\'
    ensures Consume(bracketed, State(d, true, false), e) == Some(State(d, true, false))
  {
    assert e[1..][0] == e[1];
    HexStaysInside(bracketed, d, e[2..]);
    assert e[1..][1..] == e[2..];
  }

  lemma {:induction false} HexStaysInside(bracketed: bool, d: nat, s: string)
    requires forall i :: 0 <= i < |s| ==> IsHex(s[i])
    ensures Consume(bracketed, State(d, true, false), s) == Some(State(d, true, false))
    decreases |s|
  {
    if s != [] {
      HexStaysInside(bracketed, d, s[1..]);
    }
  }

  lemma QuotedPasses(body: string)
    requires IsStringBody(body)
    ensures Passes(Quoted(body))
  {
    forall d: nat | d > 0
      ensures PassesAt(Quoted(body), d)
    {
      BodyStaysInside(true, d, body);
      var st := State(d, false, false);
      assert Quoted(body) == "\"" + (body + "\"");
      ConsumeConcat(true, st, "\"", body + "\"");
      ConsumeConcat(true, State(d, true, false), body, "\"");
      ConsumeOne(true, st, '"');
      ConsumeOne(true, State(d, true, false), '"');
    }
  }

  lemma ConsumeOne(bracketed: bool, st: State, c: char)
    ensures Consume(bracketed, st, [c]) == match Advance(bracketed, st, c) case Go(next) => Some(next) case _ => None
  {
    assert [c][1..] == [];
  }

  /** A bracketed text passes if its content does. */
  lemma BracketsPass(left: char, inner: string, right: char)
    requires IsOpening(left) && (right == '}' || right == ']') && Passes(inner)
    ensures Passes([left] + inner + [right])
  {
    forall d: nat | d > 0
      ensures PassesAt([left] + inner + [right], d)
    {
      var st, deeper := State(d, false, false), State(d + 1, false, false);
      assert PassesAt(inner, d + 1);
      ConsumeConcat(true, st, [left] + inner, [right]);
      ConsumeConcat(true, st, [left], inner);
      ConsumeOne(true, st, left);
      ConsumeOne(true, deeper, right);
    }
  }

  lemma SpacePasses(s: string)
    requires IsSpace(s)
    ensures Passes(s)
  {
    InertPasses(s);
  }

  lemma {:induction false} ValuePasses(v: Value)
    requires Valid(v)
    ensures Passes(Print(v))
    decreases v, 1
  {
    match v
    case Str(body) => QuotedPasses(body);
    case Literal(text) => InertPasses(text);
    case Arr(pad, elements) =>
      InnerPasses(v);
      BracketsPass('[', pad + PrintElements(elements), ']');
      assert Print(v) == ['['] + (pad + PrintElements(elements)) + [']'];
    case Obj(pad, members) =>
      InnerPasses(v);
      BracketsPass('{', pad + PrintMembers(members), '}');
      assert Print(v) == ['{'] + (pad + PrintMembers(members)) + ['}'];
  }

  /** What stands between the brackets of a container. */
  function Inner(v: Value): string
    requires v.Arr? || v.Obj?
  {
    if v.Arr? then v.pad + PrintElements(v.elements) else v.pad + PrintMembers(v.members)
  }

  lemma {:induction false} InnerPasses(v: Value)
    requires Valid(v) && (v.Arr? || v.Obj?)
    ensures Passes(Inner(v))
    decreases v, 0
  {
    SpacePasses(v.pad);
    if v.Arr? {
      ElementsPass(v.elements);
      PassesConcat(v.pad, PrintElements(v.elements));
    } else {
      MembersPass(v.members);
      PassesConcat(v.pad, PrintMembers(v.members));
    }
  }

  lemma {:induction false} ElementPasses(e: Element)
    requires ValidElement(e)
    ensures Passes(PrintElement(e))
    decreases e, 0
  {
    SpacePasses(e.before);
    ValuePasses(e.value);
    SpacePasses(e.after);
    PassesConcat(e.before, Print(e.value));
    PassesConcat(e.before + Print(e.value), e.after);
  }

  lemma {:induction false} ElementsPass(elements: seq<Element>)
    requires forall e :: e in elements ==> ValidElement(e)
    ensures Passes(PrintElements(elements))
    decreases elements, 0
  {
    if elements == [] {
      InertPasses([]);
    } else {
      ElementPasses(elements[0]);
      if |elements| > 1 {
        InertPasses(",");
        ElementsPass(elements[1..]);
        PassesConcat(PrintElement(elements[0]), ",");
        PassesConcat(PrintElement(elements[0]) + ",", PrintElements(elements[1..]));
      }
    }
  }

  lemma {:induction false} MemberPasses(m: Member)
    requires IsSpace(m.before) && IsStringBody(m.key) && IsSpace(m.afterKey) && ValidElement(m.item)
    ensures Passes(PrintMember(m))
    decreases m, 0
  {
    SpacePasses(m.before);
    QuotedPasses(m.key);
    SpacePasses(m.afterKey);
    InertPasses(":");
    ElementPasses(m.item);
    PassesConcat(m.before, Quoted(m.key));
    PassesConcat(m.before + Quoted(m.key), m.afterKey);
    PassesConcat(m.before + Quoted(m.key) + m.afterKey, ":");
    PassesConcat(m.before + Quoted(m.key) + m.afterKey + ":", PrintElement(m.item));
  }

  lemma {:induction false} MembersPass(members: seq<Member>)
    requires forall m :: m in members ==>
               IsSpace(m.before) && IsStringBody(m.key) && IsSpace(m.afterKey) && ValidElement(m.item)
    ensures Passes(PrintMembers(members))
    decreases members, 0
  {
    if members == [] {
      InertPasses([]);
    } else {
      MemberPasses(members[0]);
      if |members| > 1 {
        InertPasses(",");
        MembersPass(members[1..]);
        PassesConcat(PrintMember(members[0]), ",");
        PassesConcat(PrintMember(members[0]) + ",", PrintMembers(members[1..]));
      }
    }
  }

  lemma StringEnds(body: string)
    requires IsStringBody(body)
    ensures Consume(false, OUTSIDE, Quoted(body)[..|body| + 1]) == Some(State(0, true, false))
  {
    BodyStaysInside(false, 0, body);
    assert Quoted(body)[..|body| + 1] == "\"" + body;
    ConsumeConcat(false, OUTSIDE, "\"", body);
    ConsumeOne(false, OUTSIDE, '"');
  }

  lemma ContainerEnds(left: char, inner: string, right: char)
    requires IsOpening(left) && Passes(inner)
    ensures Consume(true, OUTSIDE, ([left] + inner + [right])[..|inner| + 1]) == Some(State(1, false, false))
  {
    assert PassesAt(inner, 1);
    assert ([left] + inner + [right])[..|inner| + 1] == [left] + inner;
    ConsumeConcat(true, OUTSIDE, [left], inner);
    ConsumeOne(true, OUTSIDE, left);
  }

  /** All but the last character of a delimited value is consumed; the last one ends it. */
  lemma DelimitedEnds(v: Value)
    requires Valid(v) && !v.Literal?
    ensures |Print(v)| >= 2
    ensures
      var (s, bracketed) := (Print(v), IsOpening(Print(v)[0]));
      var mid := Consume(bracketed, OUTSIDE, s[..|s| - 1]);
      mid.Some? && Advance(bracketed, mid.value, s[|s| - 1]) == Behind
  {
    var s := Print(v);
    if v.Str? {
      StringEnds(v.body);
    } else {
      InnerPasses(v);
      var (left, right) := if v.Arr? then ('[', ']') else ('{', '}');
      assert s == [left] + Inner(v) + [right];
      ContainerEnds(left, Inner(v), right);
    }
  }

  /** Whatever follows a delimited value, the scanner stops exactly behind it. */
  lemma ScanEndsBehindValue(v: Value, rest: string)
    requires Valid(v) && !v.Literal?
    ensures Print(v) != []
    ensures EndFrom(IsOpening(Print(v)[0]), OUTSIDE, Print(v) + rest) == Some(|Print(v)|)
  {
    DelimitedEnds(v);
    var (s, bracketed) := (Print(v), IsOpening(Print(v)[0]));
    var (front, last) := (s[..|s| - 1], s[|s| - 1]);
    assert s + rest == front + ([last] + rest);
    EndBehindConsumed(bracketed, OUTSIDE, front, [last] + rest);
  }

  /** A value that was cut off has no end: every proper prefix with its delimiter scans to nothing. */
  lemma CutOffValueHasNoEnd(v: Value, n: nat)
    requires Valid(v) && !v.Literal? && 0 < n < |Print(v)|
    ensures EndFrom(IsOpening(Print(v)[0]), OUTSIDE, Print(v)[..n]) == None
  {
    DelimitedEnds(v);
    var (s, bracketed) := (Print(v), IsOpening(Print(v)[0]));
    assert s[..|s| - 1] == s[..n] + s[n..|s| - 1];
    ConsumeConcat(bracketed, OUTSIDE, s[..n], s[n..|s| - 1]);
    EndBehindConsumed(bracketed, OUTSIDE, s[..n], []);
    assert s[..n] + [] == s[..n];
  }

  lemma {:induction false} SkipSpace(text: string, start: nat, value: nat)
    requires start <= value <= |text| && forall i :: start <= i < value ==> IsAsciiWhitespace(text[i])
    ensures ValueEnd(text, start) == ValueEnd(text, value)
    decreases value - start
  {
    if start < value {
      SkipSpace(text, start + 1, value);
    }
  }

  lemma PrintBegins(v: Value)
    requires Valid(v) && !v.Literal?
    ensures Print(v) != [] && !IsAsciiWhitespace(Print(v)[0])
  {
    DelimitedEnds(v);
  }

  /**
   The index reported for a value in its text: behind the white space and the value, no matter
   what precedes or follows them.
   */
  lemma ValueEndIsExact(before: string, space: string, v: Value, rest: string)
    requires Valid(v) && !v.Literal?
    requires forall i :: 0 <= i < |space| ==> space[i] in " \t\n\r" || space[i] == '\U{000C}'
    ensures ValueEnd(before + space + Print(v) + rest, |before|) == Some(|before| + |space| + |Print(v)|)
  {
    var (text, at) := (before + space + Print(v) + rest, |before| + |space|);
    PrintBegins(v);
    SkipSpace(text, |before|, at);
    assert text[at..] == Print(v) + rest;
    ScanEndsBehindValue(v, rest);
  }

  /** What a bare value is made of, as far as the scanner tells. */
  predicate IsBare(c: char)
  {
    c != '"' && c != '{' && c != '[' && c != '}' && c != ']' && c != ','
  }

  lemma {:induction false} BareEnds(bracketed: bool, s: string, rest: string)
    requires forall i :: 0 <= i < |s| ==> IsBare(s[i])
    ensures rest == [] ==> EndFrom(bracketed, OUTSIDE, s + rest).None?
    ensures rest != [] && (rest[0] == '}' || rest[0] == ']' || rest[0] == ',') ==>
              EndFrom(bracketed, OUTSIDE, s + rest) == Some(|s|)
    decreases |s|
  {
    if s == [] {
      assert s + rest == rest;
    } else {
      assert (s + rest)[0] == s[0] && (s + rest)[1..] == s[1..] + rest;
      BareEnds(bracketed, s[1..], rest);
    }
  }

  /**
   A number or name ends in front of the comma or closing bracket that comes next, with the white
   space before that; at the end of the text it has no end to report.
   */
  lemma BareValueEnds(text: string, start: nat, at: nat, end: nat)
    requires start <= at < end <= |text|
    requires (forall i :: start <= i < at ==> IsAsciiWhitespace(text[i])) && !IsAsciiWhitespace(text[at])
    requires forall i :: at <= i < end ==> IsBare(text[i])
    ensures end == |text| ==> ValueEnd(text, start) == None
    ensures end < |text| && (text[end] == '}' || text[end] == ']' || text[end] == ',') ==> ValueEnd(text, start) == Some(end)
  {
    SkipSpace(text, start, at);
    BareEnds(false, text[at..end], text[end..]);
    assert text[at..end] + text[end..] == text[at..];
  }

  /** A text that ends inside the value has no end to report. */
  lemma CutOffTextHasNoEnd(before: string, space: string, v: Value, n: nat)
    requires Valid(v) && !v.Literal? && 0 < n < |Print(v)|
    requires forall i :: 0 <= i < |space| ==> IsAsciiWhitespace(space[i])
    ensures ValueEnd(before + space + Print(v)[..n], |before|) == None
  {
    var (text, at) := (before + space + Print(v)[..n], |before| + |space|);
    PrintBegins(v);
    SkipSpace(text, |before|, at);
    assert text[at..] == Print(v)[..n];
    CutOffValueHasNoEnd(v, n);
  }
}
