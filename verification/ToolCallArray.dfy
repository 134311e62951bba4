/**
 The older layout of tool calls in text: one JSON array behind a single marker. Fields are read
 by looking for the first textual occurrence of their quoted name.
 */
module ToolCallArray {
  import opened Wrappers
  import opened Sequences
  import opened Search
  import opened JsonScan
  import opened JsonText
  import opened ToolCalls

  // ---------- Printing ----------

  const NAME_FIELD := "{\"name\": "
  const ARGUMENTS_FIELD := ", \"arguments\": "
  const ID_FIELD := ", \"id\": "

  function IdPart(id: string): string
  {
    if id == "" then "" else ID_FIELD + Quoted(Escape(id))
  }

  function PrintObject(call: ToolCall, space: Space): string
  {
    NAME_FIELD + Quoted(Escape(call.name)) + ARGUMENTS_FIELD + NormalizedArguments(call.arguments, space) + IdPart(call.id) + "}"
  }

  function Objects(calls: seq<ToolCall>, space: Space): (objects: seq<string>)
    ensures |objects| == |calls| && forall i :: 0 <= i < |calls| ==> objects[i] == PrintObject(calls[i], space)
  {
    seq(|calls|, i requires 0 <= i < |calls| => PrintObject(calls[i], space))
  }

  /** The parts with a comma between any two. */
  function Commas(parts: seq<string>): string
  {
    if parts == [] then "" else Commas(parts[..|parts| - 1]) + Comma(|parts| - 1) + parts[|parts| - 1]
  }

  /** Behind the first part a comma precedes each. */
  function Comma(printed: nat): string
  {
    if printed == 0 then "" else ","
  }

  function PrintArray(calls: seq<ToolCall>, space: Space): string
  {
    "[" + Commas(Objects(calls, space)) + "]"
  }

  lemma OneMorePart(parts: seq<string>, i: nat)
    requires i < |parts|
    ensures Commas(parts[..i + 1]) == Commas(parts[..i]) + Comma(i) + parts[i]
  {
    assert parts[..i + 1][..i] == parts[..i];
  }

  method PushObject(call: ToolCall, space: Space) returns (json: string)
    ensures json == PrintObject(call, space)
  {
    json := NAME_FIELD + Quoted(Escape(call.name));
    json := json + ARGUMENTS_FIELD;
    json := json + NormalizedArguments(call.arguments, space);
    if call.id != "" {
      json := json + (ID_FIELD + Quoted(Escape(call.id)));
    }
    assert json == NAME_FIELD + Quoted(Escape(call.name)) + ARGUMENTS_FIELD
                   + NormalizedArguments(call.arguments, space) + IdPart(call.id);
    json := json + "}";
  }

  lemma Regroup(a: string, b: string, c: string, d: string)
    ensures a + b + c + d == a + (b + c + d)
  {
  }

  /** Prints all calls as one array. */
  method PushJsonToolCalls(calls: seq<ToolCall>, space: Space) returns (json: string)
    ensures json == PrintArray(calls, space)
  {
    json := PushParts(calls, space, Objects(calls, space));
    json := json + "]";
  }

  method PushParts(calls: seq<ToolCall>, space: Space, ghost parts: seq<string>) returns (json: string)
    requires parts == Objects(calls, space)
    ensures json == "[" + Commas(parts)
  {
    json := "[";
    for i := 0 to |calls|
      invariant json == "[" + Commas(parts[..i])
    {
      var printed := PushObject(calls[i], space);
      OneMorePart(parts, i);
      Regroup("[", Commas(parts[..i]), Comma(i), parts[i]);
      if i > 0 {
        json := json + ",";
      }
      json := json + printed;
    }
    assert parts[..|calls|] == parts;
  }

  // ---------- What is printed is a JSON value ----------

  function Field(before: string, key: string, v: Value): Member
  {
    Member(before, key, "", Element(" ", v, ""))
  }

  function ObjectValue(call: ToolCall, v: Value): Value
  {
    Obj("", [Field("", "name", Str(Escape(call.name))), Field(" ", "arguments", v)]
            + if call.id == "" then [] else [Field(" ", "id", Str(Escape(call.id)))])
  }

  /** A call that can be printed: its arguments go on the wire as the value `v`. */
  ghost predicate Sendable(call: ToolCall, v: Value, space: Space)
  {
    IsDelimited(v) && NormalizedArguments(call.arguments, space) == Print(v)
  }

  lemma KeysAreBodies()
    ensures IsStringBody("name") && IsStringBody("arguments") && IsStringBody("id")
  {
    PlainIsBody("name");
    PlainIsBody("arguments");
    PlainIsBody("id");
  }

  lemma {:induction false} PlainIsBody(s: string)
    requires forall i :: 0 <= i < |s| ==> s[i] != '"' && s[i] != '\\' && s[i] as int >= 0x20
    ensures IsStringBody(s)
    decreases |s|
  {
    if s != [] {
      PlainIsBody(s[1..]);
    }
  }

  lemma ObjectIsValid(call: ToolCall, v: Value)
    requires IsDelimited(v)
    ensures Valid(ObjectValue(call, v))
  {
    KeysAreBodies();
    EscapedIsBody(call.name);
    EscapedIsBody(call.id);
    FieldIsValid("", "name", Str(Escape(call.name)));
    FieldIsValid(" ", "arguments", v);
    FieldIsValid(" ", "id", Str(Escape(call.id)));
  }

  lemma FieldIsValid(before: string, key: string, v: Value)
    requires IsSpace(before) && IsStringBody(key) && Valid(v)
    ensures
      var m := Field(before, key, v);
      IsSpace(m.before) && IsStringBody(m.key) && IsSpace(m.afterKey) && ValidElement(m.item)
  {
  }

  lemma FieldText(before: string, key: string, v: Value)
    ensures PrintMember(Field(before, key, v)) == before + Quoted(key) + ": " + Print(v)
  {
    var p := Print(v);
    assert PrintElement(Element(" ", v, "")) == " " + p + "" == " " + p;
    assert before + Quoted(key) + "" + ":" + (" " + p) == before + Quoted(key) + ": " + p;
  }

  lemma TwoMembers(a: Member, b: Member)
    ensures PrintMembers([a, b]) == PrintMember(a) + "," + PrintMember(b)
  {
    assert [a, b][1..] == [b];
  }

  lemma ThreeMembers(a: Member, b: Member, c: Member)
    ensures PrintMembers([a, b, c]) == PrintMember(a) + "," + (PrintMember(b) + "," + PrintMember(c))
  {
    assert [a, b, c][1..] == [b, c];
    TwoMembers(b, c);
  }

  lemma ObjectIsPrinted(call: ToolCall, v: Value, space: Space)
    requires Sendable(call, v, space)
    ensures Print(ObjectValue(call, v)) == PrintObject(call, space)
  {
    var (q, p, r) := (Quoted(Escape(call.name)), Print(v), Quoted(Escape(call.id)));
    var (name, arguments, id) :=
      (Field("", "name", Str(Escape(call.name))), Field(" ", "arguments", v), Field(" ", "id", Str(Escape(call.id))));
    FieldText("", "name", Str(Escape(call.name)));
    FieldText(" ", "arguments", v);
    FieldText(" ", "id", Str(Escape(call.id)));
    FieldConstants();
    if call.id == "" {
      TwoMembers(name, arguments);
      assert ObjectValue(call, v).members == [name, arguments];
      GlueTwo("{", "" + Quoted("name") + ": ", q, ",", " " + Quoted("arguments") + ": ", p, "}");
    } else {
      ThreeMembers(name, arguments, id);
      assert ObjectValue(call, v).members == [name, arguments, id];
      GlueThree("{", "" + Quoted("name") + ": ", q, ",", " " + Quoted("arguments") + ": ", p, " " + Quoted("id") + ": ", r, "}");
    }
  }

  lemma FieldConstants()
    ensures NAME_FIELD == "{" + ("" + Quoted("name") + ": ")
    ensures ARGUMENTS_FIELD == "," + (" " + Quoted("arguments") + ": ")
    ensures ID_FIELD == "," + (" " + Quoted("id") + ": ")
  {
  }

  lemma GlueTwo(left: string, a: string, q: string, comma: string, b: string, p: string, right: string)
    ensures left + "" + (a + q + comma + (b + p)) + right == (left + a) + q + (comma + b) + p + "" + right
  {
  }

  lemma GlueThree(
    left: string, a: string, q: string, comma: string, b: string, p: string, c: string, r: string, right: string)
    ensures left + "" + (a + q + comma + (b + p + comma + (c + r))) + right
         == (left + a) + q + (comma + b) + p + ((comma + c) + r) + right
  {
  }

  // ---------- Where fields are found ----------

  const NAME := "\"name\""
  const ARGUMENTS := "\"arguments\""
  const ID := "\"id\""

  /** Every quote has a backslash before it. */
  ghost predicate NoBareQuote(body: string)
  {
    forall j :: 0 <= j < |body| && body[j] == '"' ==> j > 0 && body[j - 1] == '\\'
  }

  lemma {:induction false} EscapedHasNoBareQuote(text: string)
    ensures NoBareQuote(Escape(text))
    decreases |text|
  {
    if text != [] {
      var (e, rest) := (EscapeChar(text[0]), Escape(text[1..]));
      EscapedHasNoBareQuote(text[1..]);
      QuotesAcross(e, rest);
    }
  }

  lemma QuotesAcross(a: string, b: string)
    requires NoBareQuote(a) && NoBareQuote(b)
    ensures NoBareQuote(a + b)
  {
    forall j | 0 <= j < |a + b| && (a + b)[j] == '"'
      ensures j > 0 && (a + b)[j - 1] == '\\'
    {
      assert j >= |a| ==> b[j - |a|] == '"';
    }
  }

  lemma FirstColon(s: string, k: nat)
    requires k < |s| && s[k] == ':' && forall j :: 0 <= j < k ==> s[j] != ':'
    ensures Find(s, ":") == Some(k)
  {
    forall j | 0 <= j < k
      ensures !OccursAt(s, ":", j)
    {
      assert s[j..j + 1][0] == s[j];
    }
    assert s[k..k + 1] == ":";
    FindIs(s, ":", k);
  }

  /** Once the key is found, its value begins behind the next colon. */
  lemma ValueBehindColon(text: string, key: string, at: nat, colon: nat)
    requires Find(text, "\"" + key + "\"") == Some(at) && at + |key| + 2 <= colon < |text|
    requires text[colon] == ':' && forall j :: at + |key| + 2 <= j < colon ==> text[j] != ':'
    ensures ValueOfKey(text, key) == Some(colon + 1)
  {
    var from := at + |key| + 2;
    FirstColon(text[from..], colon - from);
  }

  /** The first field is found at once: nothing precedes it but the brace. */
  lemma NameIsFound(rest: string)
    ensures ValueOfKey(NAME_FIELD + rest, "name") == Some(8)
  {
    var text := NAME_FIELD + rest;
    assert "\"" + "name" + "\"" == NAME && text[1..7] == NAME && text[7] == ':';
    assert text[0..6][0] == '{';
    FindIs(text, NAME, 1);
    ValueBehindColon(text, "name", 1, 7);
  }

  /** What precedes the second field name. */
  function BeforeArguments(body: string): (before: string)
    ensures |before| == |body| + 13
    ensures forall k :: 0 <= k < |body| ==> before[10 + k] == body[k]
    ensures before[|body| + 10..] == "\", "
  {
    NAME_FIELD + Quoted(body) + ", "
  }

  /** In front of the second field name, only the closing quote of the first value has a letter before it. */
  lemma QuotePlaces(body: string, before: string, rest: string, at: nat)
    requires NoBareQuote(body) && before == BeforeArguments(body) && 10 <= at < |before| + 10
    ensures
      var text := before + (ARGUMENTS + rest);
      text[at] == '"' && at != |body| + 10 ==> text[at - 1] == '\\' || text[at - 1] == ' '
  {
    var (text, last) := (before + (ARGUMENTS + rest), |body| + 10);
    assert text[last + 1] == before[last..][1] && text[last + 2] == before[last..][2];
    if at >= |before| {
      assert text[at] == ARGUMENTS[at - |before|];
    } else if at < last {
      assert text[at] == body[at - 10];
      assert at > 10 ==> text[at - 1] == before[10 + (at - 11)] == body[at - 11];
    }
  }

  /** An earlier occurrence of the second field name can only end at the closing quote of the first value. */
  lemma ArgumentsOccursLate(body: string, before: string, rest: string, i: nat)
    requires NoBareQuote(body) && before == BeforeArguments(body)
    requires OccursAt(before + (ARGUMENTS + rest), ARGUMENTS, i) && i < |before|
    ensures i + |ARGUMENTS| == |before| - 2
  {
    OccurrenceHas(before + (ARGUMENTS + rest), ARGUMENTS, i, 10);
    OccurrenceHas(before + (ARGUMENTS + rest), ARGUMENTS, i, 9);
    QuotePlaces(body, before, rest, i + 10);
  }

  /** The second field is found: the next colon is its own even if the first value holds its name. */
  lemma ArgumentsAreFound(body: string, before: string, rest: string)
    requires NoBareQuote(body) && before == BeforeArguments(body)
    ensures ValueOfKey(before + (ARGUMENTS + (":" + rest)), "arguments") == Some(|before| + 12)
  {
    var text := before + (ARGUMENTS + (":" + rest));
    assert "\"" + "arguments" + "\"" == ARGUMENTS;
    assert text[|before|..|before| + 11] == ARGUMENTS && OccursAt(text, ARGUMENTS, |before|);
    var at := Find(text, ARGUMENTS).value;
    if at < |before| {
      ArgumentsOccursLate(body, before, ":" + rest, at);
    }
    NoColon(body, before, ":" + rest);
    ValueBehindColon(text, "arguments", at, |before| + 11);
  }

  lemma NoColon(body: string, before: string, rest: string)
    requires before == BeforeArguments(body)
    ensures
      var text := before + (ARGUMENTS + rest);
      forall j :: |before| - 2 <= j < |before| + 11 ==> text[j] != ':'
  {
    var text := before + (ARGUMENTS + rest);
    forall j | |before| - 2 <= j < |before| + 11
      ensures text[j] != ':'
    {
      if j < |before| {
        assert text[j] == before[|body| + 10..][j - |body| - 10];
      } else {
        assert text[j] == ARGUMENTS[j - |before|];
      }
    }
  }

  /** The array layout has a space between a colon and its value. */
  ghost predicate Spaced(space: Space)
  {
    Sane(space) && space(' ')
  }

  lemma TrimmedValue(text: string, colon: nat, p: string, rest: string, space: Space)
    requires colon <= |text| && text[colon..] == " " + (p + rest) && p != ""
    requires space(' ') && !space(p[0]) && !space(p[|p| - 1])
    ensures colon + 1 + |p| <= |text| && Trim(text[colon..colon + 1 + |p|], space) == p
  {
    assert text[colon..colon + 1 + |p|] == text[colon..][..1 + |p|] == " " + p + "";
    TrimPadding(" ", p, "", space);
  }

  lemma ValueEndsBehind(text: string, colon: nat, v: Value, rest: string)
    requires IsDelimited(v) && colon <= |text| && text[colon..] == " " + (Print(v) + rest)
    ensures ValueEnd(text, colon) == Some(colon + 1 + |Print(v)|)
  {
    ValueEndIsExact(text[..colon], " ", v, rest);
    assert text == text[..colon] + " " + Print(v) + rest;
  }

  /** A field's text is the value behind its colon, without the space. */
  lemma RawIsValue(text: string, key: string, colon: nat, v: Value, rest: string, space: Space)
    requires Spaced(space) && IsDelimited(v)
    requires ValueOfKey(text, key) == Some(colon) && text[colon..] == " " + (Print(v) + rest)
    ensures JsonObjectRaw(text, key, space) == Some(Print(v))
  {
    ValueEndsBehind(text, colon, v, rest);
    DelimitedText(v, space);
    TrimmedValue(text, colon, Print(v), rest, space);
  }

  /** A string field gives back what was escaped into it. */
  lemma StringIsText(text: string, key: string, colon: nat, s: string, rest: string, space: Space)
    requires Spaced(space)
    requires ValueOfKey(text, key) == Some(colon) && text[colon..] == " " + (Quoted(Escape(s)) + rest)
    ensures JsonObjectString(text, key, space) == Some(s)
  {
    EscapedIsBody(s);
    RawIsValue(text, key, colon, Str(Escape(s)), rest, space);
    var raw := Quoted(Escape(s));
    assert raw[1..|raw| - 1] == Escape(s);
    EscapeRoundTrip(s);
  }

  // ---------- Reading one object ----------

  lemma Behind(a: string, b: string, n: nat)
    requires n <= |a|
    ensures (a + b)[n..] == a[n..] + b
  {
  }

  lemma NameIsRead(call: ToolCall, text: string, rest: string, space: Space)
    requires Spaced(space) && text == NAME_FIELD + (Quoted(Escape(call.name)) + rest)
    ensures JsonObjectString(text, "name", space) == Some(call.name)
  {
    NameIsFound(Quoted(Escape(call.name)) + rest);
    Behind(NAME_FIELD, Quoted(Escape(call.name)) + rest, 8);
    assert NAME_FIELD[8..] == " ";
    StringIsText(text, "name", 8, call.name, rest, space);
  }

  lemma ArgumentsAreRead(body: string, before: string, v: Value, text: string, rest: string, space: Space)
    requires Spaced(space) && IsDelimited(v) && NoBareQuote(body) && before == BeforeArguments(body)
    requires text == before + (ARGUMENTS + (":" + (" " + (Print(v) + rest))))
    ensures JsonObjectRaw(text, "arguments", space) == Some(Print(v))
  {
    var value := " " + (Print(v) + rest);
    ArgumentsAreFound(body, before, value);
    SkipThree(before, ARGUMENTS, ":", value);
    RawIsValue(text, "arguments", |before| + 12, v, rest, space);
  }

  lemma SkipThree(a: string, b: string, c: string, d: string)
    ensures (a + (b + (c + d)))[|a| + |b| + |c|..] == d
  {
  }

  /** The printed object, split behind the colon of its first field. */
  lemma AtName(call: ToolCall, p: string, space: Space)
    requires NormalizedArguments(call.arguments, space) == p
    ensures PrintObject(call, space)
         == NAME_FIELD + (Quoted(Escape(call.name)) + (ARGUMENTS_FIELD + p + IdPart(call.id) + "}"))
  {
    AssociateFive(NAME_FIELD, Quoted(Escape(call.name)), ARGUMENTS_FIELD, p, IdPart(call.id), "}");
  }

  /** The same at its second field. */
  lemma AtArguments(call: ToolCall, p: string, space: Space)
    requires NormalizedArguments(call.arguments, space) == p
    ensures PrintObject(call, space)
         == BeforeArguments(Escape(call.name)) + (ARGUMENTS + (":" + (" " + (p + (IdPart(call.id) + "}")))))
  {
    var start := NAME_FIELD + Quoted(Escape(call.name));
    assert ARGUMENTS_FIELD == ", " + ARGUMENTS + ":" + " ";
    SplitField(start, ", ", ARGUMENTS, p, IdPart(call.id) + "}");
    Associate(start + ARGUMENTS_FIELD + p, IdPart(call.id), "}");
  }

  /** The same at its third field. */
  lemma AtId(call: ToolCall, p: string, space: Space)
    requires NormalizedArguments(call.arguments, space) == p && call.id != ""
    ensures PrintObject(call, space)
         == NAME_FIELD + Quoted(Escape(call.name)) + ARGUMENTS_FIELD + p + ", "
            + (ID + (":" + (" " + (Quoted(Escape(call.id)) + "}"))))
  {
    var (start, r) := (NAME_FIELD + Quoted(Escape(call.name)) + ARGUMENTS_FIELD + p, Quoted(Escape(call.id)));
    assert ID_FIELD == ", " + ID + ":" + " ";
    SplitField(start, ", ", ID, r, "}");
    Associate(start, ID_FIELD, r);
  }

  lemma AssociateFive(a: string, b: string, c: string, d: string, e: string, f: string)
    ensures a + b + c + d + e + f == a + (b + (c + d + e + f))
  {
  }

  lemma SplitField(a: string, comma: string, key: string, p: string, rest: string)
    ensures a + (comma + key + ":" + " ") + p + rest == a + comma + (key + (":" + (" " + (p + rest))))
  {
  }

  lemma PartsAreRead(call: ToolCall, v: Value, text: string, space: Space)
    requires Spaced(space) && Sendable(call, v, space) && text == PrintObject(call, space)
    ensures JsonObjectString(text, "name", space) == Some(call.name)
    ensures JsonObjectRaw(text, "arguments", space) == Some(Print(v))
  {
    AtName(call, Print(v), space);
    NameIsRead(call, text, ARGUMENTS_FIELD + Print(v) + IdPart(call.id) + "}", space);
    AtArguments(call, Print(v), space);
    EscapedHasNoBareQuote(call.name);
    ArgumentsAreRead(Escape(call.name), BeforeArguments(Escape(call.name)), v, text, IdPart(call.id) + "}", space);
  }

  /** The id that is read from an object. */
  function ReadId(text: string, space: Space): string
  {
    Or(JsonObjectString(text, "id", space), "")
  }

  /** What comes back of a call, whatever is taken for its id. */
  function ReadBack(call: ToolCall, space: Space): ToolCall
  {
    ToolCall(ReadId(PrintObject(call, space), space), call.name, NormalizedArguments(call.arguments, space))
  }

  /** A printed object is read as one call, with its name and arguments. */
  lemma ObjectIsRead(call: ToolCall, v: Value, text: string, space: Space)
    requires Spaced(space) && Sendable(call, v, space) && text == PrintObject(call, space)
    ensures ReadObject(text, space) == [ReadBack(call, space)]
  {
    PartsAreRead(call, v, text, space);
  }

  // ---------- Reading the array ----------

  function AllReadBack(calls: seq<ToolCall>, space: Space): (back: seq<ToolCall>)
    ensures |back| == |calls| && forall i :: 0 <= i < |calls| ==> back[i] == ReadBack(calls[i], space)
  {
    seq(|calls|, i requires 0 <= i < |calls| => ReadBack(calls[i], space))
  }

  ghost predicate AllSendable(calls: seq<ToolCall>, values: seq<Value>, space: Space)
  {
    |values| == |calls| && forall i :: 0 <= i < |calls| ==> Sendable(calls[i], values[i], space)
  }

  /** Where a printed object ends, whatever follows it. */
  lemma ObjectStands(json: string, start: nat, call: ToolCall, v: Value, text: string, rest: string, space: Space)
    requires Sendable(call, v, space) && text == PrintObject(call, space)
    requires start <= |json| && json[start..] == text + rest
    ensures start + |text| <= |json| && json[start..start + |text|] == text
    ensures text != "" && json[start] == '{' && ValueEnd(json, start) == Some(start + |text|)
  {
    ObjectIsPrinted(call, v, space);
    ObjectIsValid(call, v);
    ValueStands(json, start, ObjectValue(call, v), text, rest);
    assert text[0] == '{' && json[start..][0] == text[0];
  }

  lemma ValueStands(json: string, start: nat, v: Value, text: string, rest: string)
    requires IsDelimited(v) && text == Print(v) && start <= |json| && json[start..] == text + rest
    ensures start + |text| <= |json| && json[start..start + |text|] == text
    ensures ValueEnd(json, start) == Some(start + |text|)
  {
    assert json == json[..start] + text + rest;
    ValueEndsBehindPrint(json[..start], v, rest);
    assert json[start..start + |text|] == json[start..][..|text|];
  }

  /** One object of the array is found, whatever follows it. */
  lemma ObjectIsFound(
    json: string, cursor: nat, next: nat, start: nat, call: ToolCall, v: Value, text: string, rest: string, space: Space)
    requires Sendable(call, v, space) && text == PrintObject(call, space)
    requires LocatedAt(json, text, cursor, next, start, rest)
    ensures ObjectTexts(json, cursor) == [text] + ObjectTexts(json, next)
  {
    ObjectStands(json, start, call, v, text, rest, space);
    TextIsFound(json, cursor, start, next, text);
  }

  lemma TextIsFound(json: string, cursor: nat, start: nat, next: nat, text: string)
    requires cursor <= start < next <= |json| && json[start..next] == text
    requires json[start] == '{' && ValueEnd(json, start) == Some(next)
    requires forall i :: cursor <= i < start ==> json[i] != '{'
    ensures ObjectTexts(json, cursor) == [text] + ObjectTexts(json, next)
  {
    BraceIsFound(json, cursor, start);
    NextObjectIs(json, cursor, start, next);
    ObjectTextsStep(json, cursor, start, next);
  }

  lemma NextObjectIs(json: string, cursor: nat, start: nat, end: nat)
    requires cursor <= start <= end <= |json|
    requires Find(json[cursor..], "{") == Some(start - cursor) && ValueEnd(json, start) == Some(end)
    ensures NextObject(json, cursor) == Some((start, end))
  {
  }

  lemma BraceIsFound(json: string, cursor: nat, start: nat)
    requires cursor <= start < |json| && json[start] == '{'
    requires forall i :: cursor <= i < start ==> json[i] != '{'
    ensures Find(json[cursor..], "{") == Some(start - cursor)
  {
    var s := json[cursor..];
    forall j | 0 <= j < start - cursor
      ensures !OccursAt(s, "{", j)
    {
      assert s[j..j + 1][0] == s[j];
    }
    assert s[start - cursor..start - cursor + 1] == "{";
    FindIs(s, "{", start - cursor);
  }

  /** The array up to its `i`-th object. */
  function UpTo(parts: seq<string>, i: nat): string
    requires i <= |parts|
  {
    "[" + Commas(parts[..i])
  }

  /** Where the search for the `i`-th object starts. */
  function CursorAt(parts: seq<string>, i: nat): nat
    requires i <= |parts|
  {
    if i == 0 then 0 else |UpTo(parts, i)|
  }

  lemma {:induction false} CommasExtend(parts: seq<string>, i: nat)
    requires i <= |parts|
    ensures |Commas(parts[..i])| <= |Commas(parts)| && Commas(parts)[..|Commas(parts[..i])|] == Commas(parts[..i])
    decreases |parts| - i
  {
    if i == |parts| {
      assert parts[..i] == parts;
    } else {
      CommasExtend(parts, i + 1);
      OneMorePart(parts, i);
    }
  }

  /** The array, split around its `i`-th object. */
  lemma PartStands(parts: seq<string>, i: nat) returns (rest: string)
    requires i < |parts|
    ensures "[" + Commas(parts) + "]" == UpTo(parts, i) + Comma(i) + (parts[i] + rest)
    ensures |UpTo(parts, i + 1)| == |UpTo(parts, i) + Comma(i)| + |parts[i]|
  {
    CommasExtend(parts, i + 1);
    OneMorePart(parts, i);
    var all := Commas(parts);
    var done := Commas(parts[..i + 1]);
    assert all == done + all[|done|..];
    rest := all[|done|..] + "]";
    Rebracket("[", Commas(parts[..i]), Comma(i), parts[i], all[|done|..], "]");
  }

  lemma Rebracket(a: string, b: string, c: string, d: string, e: string, f: string)
    ensures a + (b + c + d + e) + f == a + b + c + (d + (e + f))
  {
  }

  /** A part stands behind where its search starts, and the next search starts behind it. */
  ghost predicate Located(json: string, part: string, cursor: nat, next: nat)
  {
    exists start: nat, rest: string :: LocatedAt(json, part, cursor, next, start, rest)
  }

  ghost predicate LocatedAt(json: string, part: string, cursor: nat, next: nat, start: nat, rest: string)
  {
    && cursor <= start <= |json| && json[start..] == part + rest && start + |part| == next <= |json|
    && forall j :: cursor <= j < start ==> json[j] != '{'
  }

  lemma PartIsLocated(parts: seq<string>, i: nat, json: string, cursor: nat, next: nat)
    requires i < |parts| && json == "[" + Commas(parts) + "]"
    requires cursor == CursorAt(parts, i) && next == CursorAt(parts, i + 1)
    ensures Located(json, parts[i], cursor, next)
  {
    var rest := PartStands(parts, i);
    var start := |UpTo(parts, i) + Comma(i)|;
    DropPrefix(UpTo(parts, i) + Comma(i), parts[i] + rest);
    BetweenObjects(parts, i, json, start);
    assert |json[start..]| == |parts[i]| + |rest|;
    assert LocatedAt(json, parts[i], cursor, next, start, rest);
  }

  /** Each part is the printed form of some call. */
  ghost predicate Printed(parts: seq<string>, calls: seq<ToolCall>, values: seq<Value>, space: Space)
  {
    && |parts| == |calls| == |values|
    && forall i :: 0 <= i < |parts| ==> PrintedAt(parts[i], calls[i], values[i], space)
  }

  ghost predicate PrintedAt(part: string, call: ToolCall, v: Value, space: Space)
  {
    part == PrintObject(call, space) && Sendable(call, v, space)
  }

  /** Where the searches start. */
  function Cursors(parts: seq<string>): (at: seq<nat>)
    ensures |at| == |parts| + 1
  {
    seq(|parts| + 1, i requires 0 <= i <= |parts| => CursorAt(parts, i))
  }

  lemma PartsAreLocated(parts: seq<string>, json: string, at: seq<nat>)
    requires json == "[" + Commas(parts) + "]" && at == Cursors(parts)
    ensures forall i :: 0 <= i < |parts| ==> Located(json, parts[i], at[i], at[i + 1])
  {
    forall i | 0 <= i < |parts|
      ensures Located(json, parts[i], at[i], at[i + 1])
    {
      PartIsLocated(parts, i, json, at[i], at[i + 1]);
    }
  }

  lemma PartIsFound(json: string, part: string, cursor: nat, next: nat, call: ToolCall, v: Value, space: Space)
    requires PrintedAt(part, call, v, space) && Located(json, part, cursor, next)
    ensures cursor <= |json| && next <= |json| && ObjectTexts(json, cursor) == [part] + ObjectTexts(json, next)
  {
    var start: nat, rest: string :| LocatedAt(json, part, cursor, next, start, rest);
    ObjectIsFound(json, cursor, next, start, call, v, part, rest, space);
  }

  /** A list that loses its first part at every step, until nothing is left, consists of these parts. */
  lemma {:induction false} PeeledOff(parts: seq<string>, left: seq<seq<string>>, i: nat)
    requires |left| == |parts| + 1 && left[|parts|] == [] && i <= |parts|
    requires forall j :: 0 <= j < |parts| ==> left[j] == [parts[j]] + left[j + 1]
    ensures left[i] == parts[i..]
    decreases |parts| - i
  {
    if i < |parts| {
      PeeledOff(parts, left, i + 1);
    }
  }

  /** The objects that remain to be found from the given place on. */
  function Remaining(json: string, cursor: nat): seq<string>
  {
    if cursor <= |json| then ObjectTexts(json, cursor) else []
  }

  /** The function says what remains, without its definition being in view. */
  ghost predicate Tells(remaining: nat -> seq<string>, json: string)
  {
    forall cursor: nat {:trigger Remaining(json, cursor)} :: remaining(cursor) == Remaining(json, cursor)
  }

  lemma OneIsFound(
    remaining: nat -> seq<string>, json: string, part: string, cursor: nat, next: nat, call: ToolCall, v: Value, space: Space)
    requires Tells(remaining, json) && PrintedAt(part, call, v, space) && Located(json, part, cursor, next)
    ensures remaining(cursor) == [part] + remaining(next)
  {
    PartIsFound(json, part, cursor, next, call, v, space);
    assert remaining(cursor) == Remaining(json, cursor) && remaining(next) == Remaining(json, next);
  }

  /** From the first place on, the objects that remain are those printed. */
  lemma AllAreFound(
    remaining: nat -> seq<string>, parts: seq<string>, calls: seq<ToolCall>, values: seq<Value>, json: string,
    at: seq<nat>, space: Space)
    requires Tells(remaining, json) && Printed(parts, calls, values, space) && |at| == |parts| + 1
    requires forall i :: 0 <= i < |parts| ==> Located(json, parts[i], at[i], at[i + 1])
    requires remaining(at[|parts|]) == []
    ensures remaining(at[0]) == parts
  {
    var left := seq(|at|, i requires 0 <= i < |at| => remaining(at[i]));
    forall i | 0 <= i < |parts|
      ensures left[i] == [parts[i]] + left[i + 1]
    {
      assert PrintedAt(parts[i], calls[i], values[i], space) && Located(json, parts[i], at[i], at[i + 1]);
      OneIsFound(remaining, json, parts[i], at[i], at[i + 1], calls[i], values[i], space);
    }
    PeeledOff(parts, left, 0);
  }

  /** The objects found are those printed. */
  lemma ObjectsAreFound(parts: seq<string>, calls: seq<ToolCall>, values: seq<Value>, json: string, space: Space)
    requires Printed(parts, calls, values, space) && parts != []
    requires json == "[" + Commas(parts) + "]"
    ensures ObjectTexts(json, 0) == parts
  {
    var at := Cursors(parts);
    PartsAreLocated(parts, json, at);
    LastSearch(parts, json);
    AllAreFound((cursor: nat) => Remaining(json, cursor), parts, calls, values, json, at, space);
    assert Remaining(json, 0) == ObjectTexts(json, 0);
  }

  lemma LastSearch(parts: seq<string>, json: string)
    requires parts != [] && json == "[" + Commas(parts) + "]"
    ensures Remaining(json, CursorAt(parts, |parts|)) == []
  {
    assert parts[..|parts|] == parts;
    DropPrefix("[" + Commas(parts), "]");
    LastBracket(json, |json| - 1);
  }

  lemma LastBracket(json: string, at: nat)
    requires at < |json| && json[at..] == "]"
    ensures ObjectTexts(json, at) == []
  {
    assert Find("]", "{").None?;
  }

  /** Between two objects stands a comma, before the first one the bracket. */
  lemma BetweenObjects(parts: seq<string>, i: nat, json: string, start: nat)
    requires i < |parts| && start == |UpTo(parts, i) + Comma(i)| <= |json|
    requires json[..start] == UpTo(parts, i) + Comma(i)
    ensures CursorAt(parts, i) <= start && forall j :: CursorAt(parts, i) <= j < start ==> json[j] != '{'
  {
    assert parts[..0] == [];
    forall j | CursorAt(parts, i) <= j < start
      ensures json[j] != '{'
    {
      assert json[j] == json[..start][j];
    }
  }

  lemma PartIsRead(part: string, call: ToolCall, v: Value, space: Space)
    requires Spaced(space) && PrintedAt(part, call, v, space)
    ensures Reader(space)(part) == [ReadBack(call, space)]
  {
    ObjectIsRead(call, v, part, space);
  }

  lemma ObjectsAreRead(parts: seq<string>, calls: seq<ToolCall>, values: seq<Value>, space: Space)
    requires Spaced(space) && Printed(parts, calls, values, space)
    ensures Gather(parts, Reader(space)) == AllReadBack(calls, space)
  {
    forall i | 0 <= i < |parts|
      ensures Reader(space)(parts[i]) == [AllReadBack(calls, space)[i]]
    {
      assert PrintedAt(parts[i], calls[i], values[i], space);
      PartIsRead(parts[i], calls[i], values[i], space);
    }
    GatherEach(parts, Reader(space), AllReadBack(calls, space));
  }

  // ---------- The round trip ----------

  lemma {:induction false} PartsPass(parts: seq<string>)
    requires forall i :: 0 <= i < |parts| ==> Passes(parts[i])
    ensures Passes(Commas(parts))
    decreases |parts|
  {
    if parts == [] {
      InertPasses("");
    } else {
      var front := parts[..|parts| - 1];
      PartsPass(front);
      InertPasses(Comma(|parts| - 1));
      PassesConcat(Commas(front), Comma(|parts| - 1));
      PassesConcat(Commas(front) + Comma(|parts| - 1), parts[|parts| - 1]);
    }
  }

  lemma ObjectPasses(call: ToolCall, v: Value, space: Space)
    requires Sendable(call, v, space)
    ensures Passes(PrintObject(call, space))
  {
    ObjectIsValid(call, v);
    ObjectIsPrinted(call, v, space);
    ValuePasses(ObjectValue(call, v));
  }

  /** A bracketed text ends behind its bracket. */
  lemma BracketsEnd(inner: string, rest: string)
    requires Passes(inner)
    ensures ValueEnd("[" + inner + "]" + rest, 0) == Some(|inner| + 2)
  {
    var (text, front) := ("[" + inner + "]" + rest, "[" + inner);
    ContainerEnds('[', inner, ']');
    assert (['['] + inner + [']'])[..|inner| + 1] == front;
    EndBehindConsumed(true, OUTSIDE, front, "]" + rest);
    assert text[0..] == front + ("]" + rest);
  }

  lemma ArrayEnds(parts: seq<string>, calls: seq<ToolCall>, values: seq<Value>, rest: string, space: Space)
    requires Printed(parts, calls, values, space)
    ensures
      var json := "[" + Commas(parts) + "]";
      ValueEnd(json + rest, 0) == Some(|json|)
  {
    forall i | 0 <= i < |parts|
      ensures Passes(parts[i])
    {
      assert PrintedAt(parts[i], calls[i], values[i], space);
      ObjectPasses(calls[i], values[i], space);
    }
    PartsPass(parts);
    BracketsEnd(Commas(parts), rest);
  }

  /** Text that begins with a bracket is read as an array. */
  lemma ReadAsArray(after: string, end: nat, space: Space)
    requires Sane(space) && after != "" && after[0] == '[' && ValueEnd(after, 0) == Some(end)
    ensures ReadCall(after, space) == Found(CollectCalls(after[..end], space), end)
  {
    assert TrimStart(after, space) == after && after[0..end] == after[..end];
  }

  lemma ArrayIsRead(
    parts: seq<string>, calls: seq<ToolCall>, values: seq<Value>, json: string, rest: string, space: Space)
    requires Spaced(space) && calls != [] && Printed(parts, calls, values, space)
    requires json == "[" + Commas(parts) + "]"
    ensures ReadCall(json + rest, space) == Found(AllReadBack(calls, space), |json|)
  {
    ArrayEnds(parts, calls, values, rest, space);
    ReadAsArray(json + rest, |json|, space);
    assert (json + rest)[..|json|] == json;
    ObjectsAreFound(parts, calls, values, json, space);
    ObjectsAreRead(parts, calls, values, space);
  }

  lemma ObjectsArePrinted(calls: seq<ToolCall>, values: seq<Value>, space: Space)
    requires AllSendable(calls, values, space)
    ensures Printed(Objects(calls, space), calls, values, space)
  {
  }

  /**
   Printing prose without the marker and one or more calls as an array, then parsing, gives the
   trimmed prose and as many calls in order, with their names and arguments.
   */
  lemma ArrayIsReadBack(prose: string, calls: seq<ToolCall>, values: seq<Value>, space: Space)
    requires Spaced(space) && calls != [] && AllSendable(calls, values, space) && Find(prose, MARKER).None?
    ensures Parse(prose + (MARKER + PrintArray(calls, space)), space) == (Trim(prose, space), AllReadBack(calls, space))
  {
    var json := PrintArray(calls, space);
    ObjectsArePrinted(calls, values, space);
    ArrayIsRead(Objects(calls, space), calls, values, json, "", space);
    assert json + "" == json;
    ReadNextAtMarker(json, Found(AllReadBack(calls, space), |json|), space);
    assert json[|json|..] == "";
    ReadCallsStep(MARKER + json, AllReadBack(calls, space), "", space);
    assert Find("", MARKER).None?;
    ParseAtMarker(prose, json, AllReadBack(calls, space), space);
  }
}
