/**
 Mistral tool calls in text: printing them in the layouts that spell name, id and arguments
 between markers, and reading calls back out of generated text.
 */
module ToolCalls {
  import opened Wrappers
  import opened Sequences
  import opened Search
  import opened JsonScan
  import opened JsonText

  datatype ToolCall = ToolCall(id: string, name: string, arguments: string)

  const MARKER := "[TOOL_CALLS]"
  const CALL_ID := "[CALL_ID]"
  const ARGS := "[ARGS]"

  /** White space as the string library trims it, left abstract. */
  type Space = char -> bool

  function SkipLeading(s: string, space: Space, i: nat): (k: nat)
    requires i <= |s|
    ensures i <= k <= |s| && (k < |s| ==> !space(s[k]))
    decreases |s| - i
  {
    if i < |s| && space(s[i]) then SkipLeading(s, space, i + 1) else i
  }

  function SkipTrailing(s: string, space: Space, from: nat, j: nat): (k: nat)
    requires from <= j <= |s|
    ensures from <= k <= j && (k > from ==> !space(s[k - 1]))
  {
    if j > from && space(s[j - 1]) then SkipTrailing(s, space, from, j - 1) else j
  }

  function TrimStart(s: string, space: Space): string
  {
    s[SkipLeading(s, space, 0)..]
  }

  function Trim(s: string, space: Space): string
  {
    var from := SkipLeading(s, space, 0);
    s[from..SkipTrailing(s, space, from, |s|)]
  }

  lemma TrimNothing(s: string, space: Space)
    requires s == [] || (!space(s[0]) && !space(s[|s| - 1]))
    ensures Trim(s, space) == s && TrimStart(s, space) == s
  {
  }

  // ---------- Reading ----------

  /** Position behind the colon that follows the first textual occurrence of a quoted key. */
  function ValueOfKey(objectText: string, key: string): (colon: Option<nat>)
    ensures colon.Some? ==> colon.value <= |objectText|
  {
    var needle := "\"" + key + "\"";
    match Find(objectText, needle)
    case None => None
    case Some(at) =>
      match Find(objectText[at + |needle|..], ":")
      case None => None
      case Some(n) => Some(at + |needle| + n + 1)
  }

  /** The raw text of a key's value. */
  function JsonObjectRaw(objectText: string, key: string, space: Space): Option<string>
  {
    match ValueOfKey(objectText, key)
    case None => None
    case Some(colon) =>
      match ValueEnd(objectText, colon)
      case None => None
      case Some(end) => Some(Trim(objectText[colon..end], space))
  }

  /** The text of a key's value, if that is a string. */
  function JsonObjectString(objectText: string, key: string, space: Space): Option<string>
  {
    match JsonObjectRaw(objectText, key, space)
    case None => None
    case Some(raw) =>
      if |raw| >= 2 && raw[0] == '"' && raw[|raw| - 1] == '"' then Some(Unescape(raw[1..|raw| - 1])) else None
  }

  function Or<T>(a: Option<T>, b: T): T
  {
    if a.Some? then a.value else b
  }

  /** Where the next brace-delimited object begins and ends. */
  function NextObject(json: string, cursor: nat): (next: Option<(nat, nat)>)
    requires cursor <= |json|
    ensures next.Some? ==> cursor <= next.value.0 < next.value.1 <= |json|
  {
    match Find(json[cursor..], "{")
    case None => None
    case Some(n) =>
      var start := cursor + n;
      assert json[cursor..][n..n + 1] == "{" && json[start] == json[cursor..][n];
      match ValueEnd(json, start)
      case None => None
      case Some(end) =>
        ObjectIsNotEmpty(json, start);
        Some((start, end))
  }

  /** The brace-delimited objects of a JSON text, from `cursor` on. */
  function ObjectTexts(json: string, cursor: nat): seq<string>
    requires cursor <= |json|
    decreases |json| - cursor
  {
    match NextObject(json, cursor)
    case None => []
    case Some((start, end)) => [json[start..end]] + ObjectTexts(json, end)
  }

  /** The call that one object spells, if it has a name. */
  function ReadObject(objectText: string, space: Space): seq<ToolCall>
  {
    match JsonObjectString(objectText, "name", space)
    case None => []
    case Some(name) =>
      [ToolCall(Or(JsonObjectString(objectText, "id", space), ""), name, Or(JsonObjectRaw(objectText, "arguments", space), "{}"))]
  }

  /** What is read from each object, in order. */
  function Gather<T>(objects: seq<string>, read: string -> seq<T>): seq<T>
  {
    if objects == [] then [] else read(objects[0]) + Gather(objects[1..], read)
  }

  lemma {:induction false} GatherEach<T>(objects: seq<string>, read: string -> seq<T>, results: seq<T>)
    requires |objects| == |results| && forall i :: 0 <= i < |objects| ==> read(objects[i]) == [results[i]]
    ensures Gather(objects, read) == results
    decreases |objects|
  {
    if objects != [] {
      GatherEach(objects[1..], read, results[1..]);
    }
  }

  function Reader(space: Space): string -> seq<ToolCall>
  {
    objectText => ReadObject(objectText, space)
  }

  /** The calls of a JSON array or object, one for every brace-delimited object with a name. */
  function CollectCalls(json: string, space: Space): seq<ToolCall>
  {
    Gather(ObjectTexts(json, 0), Reader(space))
  }

  lemma ObjectTextsStep(json: string, cursor: nat, start: nat, end: nat)
    requires cursor <= |json| && NextObject(json, cursor) == Some((start, end))
    ensures ObjectTexts(json, cursor) == [json[start..end]] + ObjectTexts(json, end)
  {
  }

  lemma GatherFirst<T>(objects: seq<string>, first: string, rest: seq<string>, read: string -> seq<T>)
    requires objects == [first] + rest
    ensures Gather(objects, read) == read(first) + Gather(rest, read)
  {
    assert objects[1..] == rest;
  }

  /** The collecting loop. */
  method CollectJsonToolCalls(json: string, space: Space, before: seq<ToolCall>) returns (calls: seq<ToolCall>)
    ensures calls == before + CollectCalls(json, space)
  {
    calls := before;
    var cursor := 0;
    ghost var left := ObjectTexts(json, 0);
    while true
      invariant cursor <= |json| && left == ObjectTexts(json, cursor)
      invariant calls + Gather(left, Reader(space)) == before + CollectCalls(json, space)
      decreases |json| - cursor
    {
      var next := NextObject(json, cursor);
      if next.None? {
        return;
      }
      var (start, end) := next.value;
      var found := ReadObject(json[start..end], space);
      ObjectTextsStep(json, cursor, start, end);
      GatherFirst(left, json[start..end], ObjectTexts(json, end), Reader(space));
      Associate(calls, found, Gather(ObjectTexts(json, end), Reader(space)));
      left := ObjectTexts(json, end);
      calls := calls + found;
      cursor := end;
    }
  }

  lemma ObjectIsNotEmpty(json: string, start: nat)
    requires start < |json| && json[start] == '{'
    ensures ValueEnd(json, start).Some? ==> ValueEnd(json, start).value > start
  {
    EndAtStep(json, start, true, OUTSIDE);
  }

  /** What is found behind one marker: the calls, and where reading goes on. */
  datatype Found = Broken | Found(calls: seq<ToolCall>, end: nat)

  function ReadCall(after: string, space: Space): (found: Found)
    ensures found.Found? ==> found.end <= |after|
  {
    var trimmed := TrimStart(after, space);
    if trimmed != [] && IsOpening(trimmed[0]) then
      var offset := |after| - |trimmed|;
      match ValueEnd(after, offset)
      case None => Broken
      case Some(end) => Found(CollectCalls(after[offset..end], space), end)
    else
      match Find(after, ARGS)
      case None => Broken
      case Some(argsAt) => ReadMarked(after, argsAt, space)
  }

  /** A call whose name and id stand before the arguments. */
  function ReadMarked(after: string, argsAt: nat, space: Space): (found: Found)
    requires argsAt + |ARGS| <= |after|
    ensures found.Found? ==> found.end <= |after|
  {
    var (name, id) := SplitHead(after[..argsAt], space);
    var argsStart := argsAt + |ARGS|;
    match ValueEnd(after, argsStart)
    case None => Broken
    case Some(end) =>
      Found(if name == "" then [] else [ToolCall(id, name, Trim(after[argsStart..end], space))], end)
  }

  /** Name and id, the latter only in the layout that marks it. */
  function SplitHead(head: string, space: Space): (string, string)
  {
    match Find(head, CALL_ID)
    case Some(idAt) => (Trim(head[..idAt], space), Trim(head[idAt + |CALL_ID|..], space))
    case None => (Trim(head, space), "")
  }

  /** One round of reading: nothing more to read, or some calls and the text behind them. */
  datatype Next = Done | More(calls: seq<ToolCall>, rest: string)

  function ReadNext(rest: string, space: Space): (next: Next)
    ensures next.More? ==> |next.rest| < |rest|
  {
    match Find(rest, MARKER)
    case None => Done
    case Some(at) =>
      var after := rest[at + |MARKER|..];
      match ReadCall(after, space)
      case Broken => Done
      case Found(calls, end) => More(calls, after[end..])
  }

  /** All calls from the first marker of `rest` on. A call that was cut off ends the reading. */
  function ReadCalls(rest: string, space: Space): seq<ToolCall>
    decreases |rest|
  {
    match ReadNext(rest, space)
    case Done => []
    case More(calls, behind) => calls + ReadCalls(behind, space)
  }

  /** The prose before the first marker, trimmed, and the calls behind it. */
  function Parse(text: string, space: Space): (string, seq<ToolCall>)
  {
    match Find(text, MARKER)
    case None => (text, [])
    case Some(first) => (Trim(text[..first], space), ReadCalls(text[first..], space))
  }

  /** The reading loop. */
  method ParseMistralToolCalls(text: string, space: Space) returns (prose: string, calls: seq<ToolCall>)
    ensures (prose, calls) == Parse(text, space)
    ensures (forall i :: !OccursAt(text, MARKER, i)) ==> prose == text && calls == []
  {
    var first := Find(text, MARKER);
    calls := [];
    if first.None? {
      prose := text;
      return;
    }
    prose := Trim(text[..first.value], space);
    calls := ReadAll(text[first.value..], space);
  }

  method ReadAll(text: string, space: Space) returns (calls: seq<ToolCall>)
    ensures calls == ReadCalls(text, space)
  {
    calls := [];
    var rest := text;
    while true
      invariant calls + ReadCalls(rest, space) == ReadCalls(text, space)
      decreases |rest|
    {
      var next := ReadNext(rest, space);
      if next.Done? {
        return;
      }
      Associate(calls, next.calls, ReadCalls(next.rest, space));
      calls := calls + next.calls;
      rest := next.rest;
    }
  }

  // ---------- Printing ----------

  /** The two layouts that repeat the marker for every call; only one of them spells ids. */
  datatype Layout = V11 | V13

  /** Arguments as a JSON value: an object or array is spliced in, other text is quoted. */
  function NormalizedArguments(arguments: string, space: Space): string
  {
    var trimmed := Trim(arguments, space);
    if trimmed == [] then "{}"
    else if IsOpening(trimmed[0]) then trimmed
    else Quoted(Escape(trimmed))
  }

  /** Name and optional id, as they stand before the arguments. */
  function Head(name: string, id: string): string
  {
    name + if id == "" then "" else CALL_ID + id
  }

  /** The newer layout has no place for an id. */
  function KeptId(layout: Layout, id: string): string
  {
    if layout.V11? then id else ""
  }

  function PrintMarked(layout: Layout, call: ToolCall, space: Space): string
  {
    Head(call.name, KeptId(layout, call.id)) + ARGS + NormalizedArguments(call.arguments, space)
  }

  function PrintCall(layout: Layout, call: ToolCall, space: Space): string
  {
    MARKER + PrintMarked(layout, call, space)
  }

  function PrintCalls(layout: Layout, calls: seq<ToolCall>, space: Space): string
  {
    if calls == [] then "" else PrintCall(layout, calls[0], space) + PrintCalls(layout, calls[1..], space)
  }

  method PushMistralToolCalls(layout: Layout, calls: seq<ToolCall>, space: Space, before: string) returns (out: string)
    ensures out == before + PrintCalls(layout, calls, space)
  {
    out := before;
    for i := 0 to |calls|
      invariant out + PrintCalls(layout, calls[i..], space) == before + PrintCalls(layout, calls, space)
    {
      assert calls[i..][1..] == calls[i + 1..];
      Associate(out, PrintCall(layout, calls[i], space), PrintCalls(layout, calls[i + 1..], space));
      out := PushCall(layout, calls[i], space, out);
    }
    assert calls[|calls|..] == [];
  }

  method PushCall(layout: Layout, call: ToolCall, space: Space, before: string) returns (out: string)
    ensures out == before + PrintCall(layout, call, space)
  {
    out := before + MARKER;
    out := out + call.name;
    if layout.V11? && call.id != "" {
      out := out + CALL_ID;
      out := out + call.id;
    }
    ghost var head := Head(call.name, KeptId(layout, call.id));
    assert out == before + MARKER + head;
    out := out + ARGS;
    out := out + NormalizedArguments(call.arguments, space);
    AssociateFour(before, MARKER, head, ARGS, NormalizedArguments(call.arguments, space));
  }

  lemma AssociateFour(a: string, b: string, c: string, d: string, e: string)
    ensures a + b + c + d + e == a + (b + (c + d + e))
  {
  }

  // ---------- Round trip ----------

  predicate IsIdentifierChar(c: char)
  {
    'a' <= c <= 'z' || 'A' <= c <= 'Z' || '0' <= c <= '9' || c == '_' || c == '-'
  }

  predicate IsIdentifier(s: string)
  {
    s != "" && forall i :: 0 <= i < |s| ==> IsIdentifierChar(s[i])
  }

  /** Neither identifier characters nor brackets nor quotes are white space. */
  ghost predicate Sane(space: Space)
  {
    && (forall c :: IsIdentifierChar(c) ==> !space(c))
    && !space('{') && !space('}') && !space('[') && !space(']') && !space('"')
  }

  ghost predicate IsContainer(v: Value)
  {
    Valid(v) && (v.Arr? || v.Obj?)
  }

  ghost predicate IsDelimited(v: Value)
  {
    Valid(v) && !v.Literal?
  }

  ghost predicate HasNames(call: ToolCall)
  {
    IsIdentifier(call.name) && (call.id == "" || IsIdentifier(call.id))
  }

  /** A call that can be printed: its arguments go on the wire as the value `v`. */
  ghost predicate Printable(call: ToolCall, v: Value, space: Space)
  {
    HasNames(call) && IsDelimited(v) && NormalizedArguments(call.arguments, space) == Print(v)
  }

  /** A call that stands on the wire, or has come back from it. */
  ghost predicate Readable(call: ToolCall, v: Value)
  {
    HasNames(call) && IsDelimited(v) && call.arguments == Print(v)
  }

  ghost predicate AllPrintable(calls: seq<ToolCall>, values: seq<Value>, space: Space)
  {
    |values| == |calls| && forall i :: 0 <= i < |calls| ==> Printable(calls[i], values[i], space)
  }

  /** What comes back of a call. */
  function Survives(layout: Layout, call: ToolCall, space: Space): ToolCall
  {
    ToolCall(KeptId(layout, call.id), call.name, NormalizedArguments(call.arguments, space))
  }

  function AllSurvive(layout: Layout, calls: seq<ToolCall>, space: Space): seq<ToolCall>
  {
    if calls == [] then [] else [Survives(layout, calls[0], space)] + AllSurvive(layout, calls[1..], space)
  }

  /** What comes back of `calls`: the ids in the layout that spells them, the names, and the arguments on the wire. */
  ghost predicate AreReadBack(layout: Layout, calls: seq<ToolCall>, values: seq<Value>, back: seq<ToolCall>)
    requires |values| == |calls|
  {
    && |back| == |calls|
    && forall i :: 0 <= i < |calls| ==>
         back[i] == ToolCall(if layout == V11 then calls[i].id else "", calls[i].name, Print(values[i]))
  }

  lemma {:induction false} SurvivorsAreReadBack(layout: Layout, calls: seq<ToolCall>, values: seq<Value>, space: Space)
    requires AllPrintable(calls, values, space)
    ensures AreReadBack(layout, calls, values, AllSurvive(layout, calls, space))
    decreases |calls|
  {
    if calls != [] {
      SurvivorsAreReadBack(layout, calls[1..], values[1..], space);
      assert Printable(calls[0], values[0], space);
    }
  }

  lemma DelimitedText(v: Value, space: Space)
    requires IsDelimited(v) && Sane(space)
    ensures |Print(v)| >= 2 && Trim(Print(v), space) == Print(v)
    ensures !space(Print(v)[0]) && !space(Print(v)[|Print(v)| - 1])
    ensures IsOpening(Print(v)[0]) <==> IsContainer(v)
  {
    var s := Print(v);
    if v.Str? {
      assert s[0] == '"' && s[|s| - 1] == '"';
    } else {
      assert s == [s[0]] + Inner(v) + [s[|s| - 1]];
    }
    TrimNothing(s, space);
  }

  /** White space around a text that neither begins nor ends with any is trimmed, and nothing else. */
  lemma {:induction false} TrimPadding(before: string, s: string, after: string, space: Space)
    requires s != "" && !space(s[0]) && !space(s[|s| - 1])
    requires forall i :: 0 <= i < |before| ==> space(before[i])
    requires forall i :: 0 <= i < |after| ==> space(after[i])
    ensures Trim(before + s + after, space) == s
  {
    var text := before + s + after;
    SkipsTo(text, space, 0, |before|);
    SkipsBackTo(text, space, |before|, |text|, |before| + |s|);
    assert text[|before|..|before| + |s|] == s;
  }

  lemma {:induction false} SkipsTo(s: string, space: Space, i: nat, k: nat)
    requires i <= k < |s| && !space(s[k]) && forall j :: i <= j < k ==> space(s[j])
    ensures SkipLeading(s, space, i) == k
    decreases k - i
  {
    if i < k {
      SkipsTo(s, space, i + 1, k);
    }
  }

  lemma {:induction false} SkipsBackTo(s: string, space: Space, from: nat, j: nat, k: nat)
    requires from < k <= j <= |s| && !space(s[k - 1]) && forall i :: k <= i < j ==> space(s[i])
    ensures SkipTrailing(s, space, from, j) == k
    decreases j - k
  {
    if k < j {
      SkipsBackTo(s, space, from, j - 1, k);
    }
  }

  /** A value comes through normalization with its white space trimmed. */
  lemma PaddedContainerIsTrimmed(before: string, v: Value, after: string, space: Space)
    requires IsContainer(v) && Sane(space)
    requires forall i :: 0 <= i < |before| ==> space(before[i])
    requires forall i :: 0 <= i < |after| ==> space(after[i])
    ensures NormalizedArguments(before + Print(v) + after, space) == Print(v)
  {
    DelimitedText(v, space);
    TrimPadding(before, Print(v), after, space);
  }

  /**
   When do arguments go on the wire as a JSON value? Always, unless they begin like an object or
   array without being one: what else is not empty becomes a string.
   */
  lemma ArgumentsAreJsonIff(arguments: string, space: Space)
    requires Sane(space)
    ensures
      var trimmed := Trim(arguments, space);
      (exists v :: IsDelimited(v) && Print(v) == NormalizedArguments(arguments, space)) <==>
        trimmed == "" || !IsOpening(trimmed[0]) || exists v :: IsContainer(v) && Print(v) == trimmed
  {
    var trimmed := Trim(arguments, space);
    if trimmed == "" {
      var v := Obj("", []);
      assert IsDelimited(v) && Print(v) == "{}";
    } else if !IsOpening(trimmed[0]) {
      EscapedIsBody(trimmed);
      var v := Str(Escape(trimmed));
      assert IsDelimited(v) && Print(v) == NormalizedArguments(arguments, space);
    } else if v :| IsDelimited(v) && Print(v) == trimmed {
      DelimitedText(v, space);
      assert IsContainer(v);
    }
  }

  lemma IdentifierText(s: string, space: Space)
    requires IsIdentifier(s) && Sane(space)
    ensures Trim(s, space) == s
  {
    TrimNothing(s, space);
  }

  lemma OccurrenceHas(text: string, pattern: string, i: nat, k: nat)
    requires OccursAt(text, pattern, i) && k < |pattern|
    ensures text[i + k] == pattern[k]
  {
    assert text[i..i + |pattern|][k] == text[i + k];
  }

  lemma BracketsInHead(name: string, id: string, i: nat)
    requires IsIdentifier(name) && (id == "" || IsIdentifier(id)) && i < |Head(name, id)|
    requires Head(name, id)[i] == '['
    ensures id != "" && i == |name|
  {
  }

  lemma FindArgs(name: string, id: string, rest: string)
    requires IsIdentifier(name) && (id == "" || IsIdentifier(id))
    ensures Find(Head(name, id) + ARGS + rest, ARGS) == Some(|Head(name, id)|)
  {
    var (head, text) := (Head(name, id), Head(name, id) + ARGS + rest);
    forall i | 0 <= i < |head|
      ensures !OccursAt(text, ARGS, i)
    {
      if OccursAt(text, ARGS, i) {
        OccurrenceHas(text, ARGS, i, 0);
        OccurrenceHas(text, ARGS, i, 1);
        BracketsInHead(name, id, i);
        assert false;
      }
    }
    assert text[|head|..|head| + |ARGS|] == ARGS;
    FindIs(text, ARGS, |head|);
  }

  lemma FindCallId(name: string, id: string)
    requires IsIdentifier(name) && (id == "" || IsIdentifier(id))
    ensures Find(Head(name, id), CALL_ID) == if id == "" then None else Some(|name|)
  {
    var head := Head(name, id);
    forall i | 0 <= i < |head| && (id == "" || i < |name|)
      ensures !OccursAt(head, CALL_ID, i)
    {
      if OccursAt(head, CALL_ID, i) {
        OccurrenceHas(head, CALL_ID, i, 0);
        BracketsInHead(name, id, i);
        assert false;
      }
    }
    if id != "" {
      assert head[|name|..|name| + |CALL_ID|] == CALL_ID;
      FindIs(head, CALL_ID, |name|);
    }
  }

  lemma HeadSplits(name: string, id: string, space: Space)
    requires IsIdentifier(name) && (id == "" || IsIdentifier(id)) && Sane(space)
    ensures SplitHead(Head(name, id), space) == (name, id)
  {
    FindCallId(name, id);
    IdentifierText(name, space);
    if id != "" {
      IdentifierText(id, space);
      assert Head(name, id)[..|name|] == name && Head(name, id)[|name| + |CALL_ID|..] == id;
    }
  }

  /** The parts of a printed call, as slices of the text it begins. */
  lemma Slices(head: string, args: string, rest: string)
    ensures
      var (after, start) := (head + ARGS + args + rest, |head| + |ARGS|);
      after[..|head|] == head && after[start..start + |args|] == args && after[start + |args|..] == rest
  {
  }

  /** Reading a call whose parts have been located. */
  lemma ReadLocated(after: string, head: string, end: nat, call: ToolCall, space: Space)
    requires |head| + |ARGS| <= end <= |after| && after[..|head|] == head
    requires SplitHead(head, space) == (call.name, call.id) && call.name != ""
    requires ValueEnd(after, |head| + |ARGS|) == Some(end)
    requires Trim(after[|head| + |ARGS|..end], space) == call.arguments
    ensures ReadMarked(after, |head|, space) == Found([call], end)
  {
  }

  /** Text that begins neither with white space nor with a bracket is read as name, id and arguments. */
  lemma ReadAsMarked(after: string, argsAt: nat, space: Space)
    requires after != "" && !space(after[0]) && !IsOpening(after[0])
    requires Find(after, ARGS) == Some(argsAt)
    ensures ReadCall(after, space) == ReadMarked(after, argsAt, space)
  {
  }

  /** Reading back one printed call, whatever follows it. */
  lemma ReadPrintedCall(call: ToolCall, v: Value, after: string, rest: string, space: Space)
    requires Readable(call, v) && Sane(space)
    requires after == Head(call.name, call.id) + ARGS + Print(v) + rest
    ensures ReadCall(after, space) == Found([call], |after| - |rest|)
  {
    PrintedIsLaidOut(call, v, after, rest, space);
    ReadPrintedText(call, Head(call.name, call.id), after, rest, space);
  }

  /** A call stands at the front of a text, and its parts are found where they are. */
  ghost predicate LaidOut(call: ToolCall, head: string, after: string, rest: string, space: Space)
  {
    && after == head + ARGS + call.arguments + rest
    && after != "" && !space(after[0]) && !IsOpening(after[0])
    && Find(after, ARGS) == Some(|head|) && SplitHead(head, space) == (call.name, call.id) && call.name != ""
    && Trim(call.arguments, space) == call.arguments
    && ValueEnd(after, |head| + |ARGS|) == Some(|after| - |rest|)
  }

  lemma PrintedIsLaidOut(call: ToolCall, v: Value, after: string, rest: string, space: Space)
    requires Readable(call, v) && Sane(space)
    requires after == Head(call.name, call.id) + ARGS + Print(v) + rest
    ensures LaidOut(call, Head(call.name, call.id), after, rest, space)
  {
    PrintedValue(Head(call.name, call.id) + ARGS, v, call.arguments, rest, space);
    TextIsLaidOut(call, Head(call.name, call.id), after, rest, space);
  }

  lemma TextIsLaidOut(call: ToolCall, head: string, after: string, rest: string, space: Space)
    requires HasNames(call) && Sane(space) && head == Head(call.name, call.id)
    requires after == head + ARGS + call.arguments + rest && Trim(call.arguments, space) == call.arguments
    requires ValueEnd(after, |head + ARGS|) == Some(|head + ARGS| + |call.arguments|)
    ensures LaidOut(call, head, after, rest, space)
  {
    Associate(head + ARGS, call.arguments, rest);
    PartsAreFound(call, head, call.arguments + rest, after, space);
  }

  lemma PrintedValue(before: string, v: Value, args: string, rest: string, space: Space)
    requires IsDelimited(v) && args == Print(v) && Sane(space)
    ensures Trim(args, space) == args && ValueEnd(before + args + rest, |before|) == Some(|before| + |args|)
  {
    DelimitedText(v, space);
    ValueEndsBehindPrint(before, v, rest);
  }

  /** Where the parts of a printed call are found. */
  lemma PartsAreFound(call: ToolCall, head: string, behind: string, after: string, space: Space)
    requires IsIdentifier(call.name) && (call.id == "" || IsIdentifier(call.id)) && Sane(space)
    requires head == Head(call.name, call.id) && after == head + ARGS + behind
    ensures
      && after != "" && !space(after[0]) && !IsOpening(after[0])
      && Find(after, ARGS) == Some(|head|) && SplitHead(head, space) == (call.name, call.id)
  {
    Associate(head, ARGS, behind);
    BeginsWithName(call, ARGS + behind, space);
    FindArgs(call.name, call.id, behind);
    HeadSplits(call.name, call.id, space);
  }

  lemma ValueEndsBehindPrint(before: string, v: Value, rest: string)
    requires Valid(v) && !v.Literal?
    ensures ValueEnd(before + Print(v) + rest, |before|) == Some(|before| + |Print(v)|)
  {
    ValueEndIsExact(before, "", v, rest);
    assert before + "" == before;
  }

  lemma ReadAsCall(after: string, head: string, end: nat, call: ToolCall, space: Space)
    requires after != "" && !space(after[0]) && !IsOpening(after[0])
    requires Find(after, ARGS) == Some(|head|)
    requires |head| + |ARGS| <= end <= |after| && after[..|head|] == head
    requires SplitHead(head, space) == (call.name, call.id) && call.name != ""
    requires ValueEnd(after, |head| + |ARGS|) == Some(end)
    requires Trim(after[|head| + |ARGS|..end], space) == call.arguments
    ensures ReadCall(after, space) == Found([call], end)
  {
    ReadLocated(after, head, end, call, space);
    ReadAsMarked(after, |head|, space);
  }

  lemma BeginsWithName(call: ToolCall, rest: string, space: Space)
    requires IsIdentifier(call.name) && Sane(space)
    ensures
      var text := Head(call.name, call.id) + rest;
      text != "" && !space(text[0]) && !IsOpening(text[0])
  {
    assert (Head(call.name, call.id) + rest)[0] == call.name[0];
  }

  lemma ReadPrintedText(call: ToolCall, head: string, after: string, rest: string, space: Space)
    requires LaidOut(call, head, after, rest, space)
    ensures ReadCall(after, space) == Found([call], |after| - |rest|)
  {
    Slices(head, call.arguments, rest);
    ReadAsCall(after, head, |after| - |rest|, call, space);
  }

  /** The marker is found where it is printed: it cannot begin inside text that lacks it. */
  lemma FindMarker(prose: string, rest: string)
    requires Find(prose, MARKER).None?
    ensures Find(prose + (MARKER + rest), MARKER) == Some(|prose|)
  {
    var text := prose + (MARKER + rest);
    forall i | 0 <= i < |prose|
      ensures !OccursAt(text, MARKER, i)
    {
      if OccursAt(text, MARKER, i) {
        if i + |MARKER| <= |prose| {
          OccursInPrefix(prose, MARKER + rest, MARKER, i);
          assert false;
        } else {
          OccurrenceHas(text, MARKER, i, |prose| - i);
          assert false;
        }
      }
    }
    assert text[|prose|..|prose| + |MARKER|] == MARKER;
    FindIs(text, MARKER, |prose|);
  }

  /** One round of reading, at a marker. */
  lemma ReadNextAtMarker(after: string, found: Found, space: Space)
    requires ReadCall(after, space) == found && found.Found?
    ensures ReadNext(MARKER + after, space) == More(found.calls, after[found.end..])
  {
    FindMarker("", after);
    assert "" + (MARKER + after) == MARKER + after;
    DropPrefix(MARKER, after);
  }

  lemma DropPrefix(a: string, b: string)
    ensures (a + b)[|a|..] == b && (a + b)[..|a|] == a
  {
  }

  lemma ReadCallsStep(text: string, calls: seq<ToolCall>, rest: string, space: Space)
    requires ReadNext(text, space) == More(calls, rest)
    ensures ReadCalls(text, space) == calls + ReadCalls(rest, space)
  {
  }

  /** Reading undoes printing, call by call, and goes on behind the last one. */
  lemma {:induction false} ReadPrintedCalls(layout: Layout, calls: seq<ToolCall>, values: seq<Value>, tail: string, space: Space)
    requires AllPrintable(calls, values, space) && Sane(space)
    ensures ReadCalls(PrintCalls(layout, calls, space) + tail, space) == AllSurvive(layout, calls, space) + ReadCalls(tail, space)
    decreases |calls|
  {
    if calls == [] {
      assert PrintCalls(layout, calls, space) + tail == tail;
    } else {
      var printed := PrintCalls(layout, calls[1..], space);
      ReadPrintedCalls(layout, calls[1..], values[1..], tail, space);
      ReadFirstPrinted(layout, calls[0], values[0], printed + tail, space);
      Associate(PrintCall(layout, calls[0], space), printed, tail);
      Associate([Survives(layout, calls[0], space)], AllSurvive(layout, calls[1..], space), ReadCalls(tail, space));
    }
  }

  lemma MarkedText(layout: Layout, call: ToolCall, v: Value, space: Space)
    requires Printable(call, v, space) && Sane(space)
    ensures
      var survives := Survives(layout, call, space);
      Readable(survives, v) && PrintMarked(layout, call, space) == Head(survives.name, survives.id) + ARGS + Print(v)
  {
  }

  lemma ReadFirstPrinted(layout: Layout, call: ToolCall, v: Value, rest: string, space: Space)
    requires Printable(call, v, space) && Sane(space)
    ensures ReadCalls(PrintCall(layout, call, space) + rest, space)
         == [Survives(layout, call, space)] + ReadCalls(rest, space)
  {
    MarkedText(layout, call, v, space);
    var survives := Survives(layout, call, space);
    var after := PrintMarked(layout, call, space) + rest;
    ReadPrintedCall(survives, v, after, rest, space);
    ReadNextAtMarker(after, Found([survives], |after| - |rest|), space);
    DropPrefix(PrintMarked(layout, call, space), rest);
    Associate(MARKER, PrintMarked(layout, call, space), rest);
    ReadCallsStep(PrintCall(layout, call, space) + rest, [survives], rest, space);
  }

  // ---------- Calls that were cut off ----------

  /** Nothing is read from a printed call whose arguments have not begun. */
  lemma CutOffHeadIsBroken(call: ToolCall, n: nat, space: Space)
    requires IsIdentifier(call.name) && (call.id == "" || IsIdentifier(call.id)) && Sane(space)
    requires n < |Head(call.name, call.id) + ARGS|
    ensures ReadCall((Head(call.name, call.id) + ARGS)[..n], space).Broken?
  {
    var text := Head(call.name, call.id) + ARGS;
    assert text + "" == text;
    FindArgs(call.name, call.id, "");
    ShorterHasNone(text, ARGS, n);
    BeginsWithName(call, ARGS, space);
    NotReadAsMarked(text[..n], space);
  }

  /** A prefix that ends before the first occurrence does holds none. */
  lemma ShorterHasNone(text: string, pattern: string, n: nat)
    requires n <= |text| && (Find(text, pattern).None? || n < Find(text, pattern).value + |pattern|)
    ensures Find(text[..n], pattern).None?
  {
    if Find(text[..n], pattern).Some? {
      var i := Find(text[..n], pattern).value;
      assert text[..n] + text[n..] == text;
      OccursInPrefix(text[..n], text[n..], pattern, i);
      assert false;
    }
  }

  lemma NotReadAsMarked(after: string, space: Space)
    requires after != "" ==> !space(after[0]) && !IsOpening(after[0])
    requires Find(after, ARGS).None?
    ensures ReadCall(after, space).Broken?
  {
  }

  /** Nor if the arguments have begun and not ended. */
  lemma CutOffArgumentsAreBroken(call: ToolCall, v: Value, n: nat, space: Space)
    requires Readable(call, v) && Sane(space) && n < |Print(v)|
    ensures ReadCall(Head(call.name, call.id) + ARGS + Print(v)[..n], space).Broken?
  {
    var (head, args) := (Head(call.name, call.id), Print(v)[..n]);
    Associate(head, ARGS, args);
    FindArgs(call.name, call.id, args);
    BeginsWithName(call, ARGS + args, space);
    NoEndWithin(head + ARGS, v, n);
    ReadAsMarked(head + ARGS + args, |head|, space);
    ReadUnended(head + ARGS + args, |head|, space);
  }

  lemma NoEndWithin(before: string, v: Value, n: nat)
    requires Valid(v) && !v.Literal? && n < |Print(v)|
    ensures ValueEnd(before + Print(v)[..n], |before|).None?
  {
    if n > 0 {
      CutOffTextHasNoEnd(before, "", v, n);
      assert before + "" == before;
    }
  }

  lemma ReadUnended(after: string, argsAt: nat, space: Space)
    requires argsAt + |ARGS| <= |after| && ValueEnd(after, argsAt + |ARGS|).None?
    ensures ReadMarked(after, argsAt, space).Broken?
  {
  }

  lemma CutOffMarkedIsBroken(call: ToolCall, v: Value, marked: string, n: nat, space: Space)
    requires Readable(call, v) && Sane(space)
    requires marked == Head(call.name, call.id) + ARGS + Print(v) && n < |marked|
    ensures ReadCall(marked[..n], space).Broken?
  {
    var before := Head(call.name, call.id) + ARGS;
    TakeOfConcat(before, Print(v), n);
    if n < |before| {
      CutOffHeadIsBroken(call, n, space);
    } else {
      CutOffArgumentsAreBroken(call, v, n - |before|, space);
    }
  }

  lemma TakeOfConcat(a: string, b: string, n: nat)
    requires n <= |a + b|
    ensures (a + b)[..n] == if n < |a| then a[..n] else a + b[..n - |a|]
  {
  }

  lemma NoMarkerYet(text: string, space: Space)
    requires |text| < |MARKER|
    ensures ReadCalls(text, space) == []
  {
    assert Find(text, MARKER).None?;
  }

  lemma CutOffCallIsNotRead(layout: Layout, call: ToolCall, v: Value, n: nat, space: Space)
    requires Printable(call, v, space) && Sane(space) && n < |PrintCall(layout, call, space)|
    ensures ReadCalls(PrintCall(layout, call, space)[..n], space) == []
  {
    var marked := PrintMarked(layout, call, space);
    MarkedText(layout, call, v, space);
    if n >= |MARKER| {
      CutOffMarkedIsBroken(Survives(layout, call, space), v, marked, n - |MARKER|, space);
    }
    CutOffTextIsNotRead(marked, n, space);
  }

  lemma CutOffTextIsNotRead(marked: string, n: nat, space: Space)
    requires n < |MARKER + marked|
    requires n >= |MARKER| ==> ReadCall(marked[..n - |MARKER|], space).Broken?
    ensures ReadCalls((MARKER + marked)[..n], space) == []
  {
    TakeOfConcat(MARKER, marked, n);
    if n < |MARKER| {
      NoMarkerYet(MARKER[..n], space);
    } else {
      ReadNextBroken(marked[..n - |MARKER|], space);
    }
  }

  lemma ReadNextBroken(after: string, space: Space)
    requires ReadCall(after, space).Broken?
    ensures ReadCalls(MARKER + after, space) == []
  {
    FindMarker("", after);
    assert "" + (MARKER + after) == MARKER + after;
    DropPrefix(MARKER, after);
  }

  // ---------- The round trip ----------

  lemma ParseAtMarker(prose: string, behind: string, read: seq<ToolCall>, space: Space)
    requires Find(prose, MARKER).None?
    requires ReadCalls(MARKER + behind, space) == read
    ensures Parse(prose + (MARKER + behind), space) == (Trim(prose, space), read)
  {
    FindMarker(prose, behind);
    DropPrefix(prose, MARKER + behind);
  }

  lemma PrintedBeginsWithMarker(layout: Layout, calls: seq<ToolCall>, tail: string, space: Space) returns (behind: string)
    requires calls != []
    ensures PrintCalls(layout, calls, space) + tail == MARKER + behind
  {
    var (marked, others) := (PrintMarked(layout, calls[0], space), PrintCalls(layout, calls[1..], space));
    behind := marked + others + tail;
    Associate(MARKER, marked, others);
    Associate(MARKER, marked + others, tail);
  }

  /**
   Printing prose without the marker and any calls, then parsing, gives the prose, which is trimmed
   if there are calls, and the same calls in order, whatever their argument strings contain.
   */
  lemma ToolCallRoundTrip(layout: Layout, prose: string, calls: seq<ToolCall>, values: seq<Value>, space: Space)
    requires AllPrintable(calls, values, space) && Sane(space) && Find(prose, MARKER).None?
    ensures
      var (shown, back) := Parse(prose + PrintCalls(layout, calls, space), space);
      shown == (if calls == [] then prose else Trim(prose, space)) && AreReadBack(layout, calls, values, back)
  {
    if calls == [] {
      assert prose + PrintCalls(layout, calls, space) == prose;
    } else {
      assert Find("", MARKER).None?;
      PrintedWithTail(layout, prose, calls, values, "", space);
      assert PrintCalls(layout, calls, space) + "" == PrintCalls(layout, calls, space);
    }
  }

  lemma PrintedWithTail(layout: Layout, prose: string, calls: seq<ToolCall>, values: seq<Value>, tail: string, space: Space)
    requires calls != [] && AllPrintable(calls, values, space) && Sane(space) && Find(prose, MARKER).None?
    requires ReadCalls(tail, space) == []
    ensures
      var (shown, back) := Parse(prose + (PrintCalls(layout, calls, space) + tail), space);
      shown == Trim(prose, space) && AreReadBack(layout, calls, values, back)
  {
    var back := AllSurvive(layout, calls, space);
    ReadPrintedCalls(layout, calls, values, tail, space);
    assert back + [] == back;
    var behind := PrintedBeginsWithMarker(layout, calls, tail, space);
    ParseAtMarker(prose, behind, back, space);
    SurvivorsAreReadBack(layout, calls, values, space);
  }

  /** A further call that was cut off, anywhere, is dropped, and costs none of the others. */
  lemma CutOffCallIsDropped(
    layout: Layout, prose: string, calls: seq<ToolCall>, values: seq<Value>, last: ToolCall, v: Value, n: nat, space: Space
  )
    requires calls != [] && AllPrintable(calls, values, space) && Sane(space) && Find(prose, MARKER).None?
    requires Printable(last, v, space) && n < |PrintCall(layout, last, space)|
    ensures
      var (shown, back) := Parse(prose + (PrintCalls(layout, calls, space) + PrintCall(layout, last, space)[..n]), space);
      shown == Trim(prose, space) && AreReadBack(layout, calls, values, back)
  {
    CutOffCallIsNotRead(layout, last, v, n, space);
    PrintedWithTail(layout, prose, calls, values, PrintCall(layout, last, space)[..n], space);
  }
}
