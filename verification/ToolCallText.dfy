/**
 What is printed and read around the markers of tool calls, spelled out: the text of a call, names
 and ids with white space around them, text between calls, and answers without any call.
 */
module ToolCallText {
  import opened Wrappers
  import opened Sequences
  import opened Search
  import opened JsonScan
  import opened JsonText
  import opened ToolCalls

  ghost predicate AllSpace(s: string, space: Space)
  {
    forall i :: 0 <= i < |s| ==> space(s[i])
  }

  /** `s` is white space up to `i` and from `j` on, and neither begins nor ends with any between. */
  ghost predicate IsMiddle(s: string, i: nat, j: nat, space: Space)
    requires i <= j <= |s|
  {
    && (forall k :: 0 <= k < i ==> space(s[k])) && (forall k :: j <= k < |s| ==> space(s[k]))
    && (i < j ==> !space(s[i]) && !space(s[j - 1]))
  }

  /** `t` is `s` without the white space at both ends. */
  ghost predicate IsTrimmed(s: string, t: string, space: Space)
  {
    exists i: nat, j: nat :: i <= j <= |s| && IsMiddle(s, i, j, space) && s[i..j] == t
  }

  lemma {:induction false} LeadingIsSpace(s: string, space: Space, i: nat)
    requires i <= |s|
    ensures forall k :: i <= k < SkipLeading(s, space, i) ==> space(s[k])
    decreases |s| - i
  {
    if i < |s| && space(s[i]) {
      LeadingIsSpace(s, space, i + 1);
    }
  }

  lemma {:induction false} TrailingIsSpace(s: string, space: Space, from: nat, j: nat)
    requires from <= j <= |s|
    ensures forall k :: SkipTrailing(s, space, from, j) <= k < j ==> space(s[k])
    decreases j
  {
    if j > from && space(s[j - 1]) {
      TrailingIsSpace(s, space, from, j - 1);
    }
  }

  lemma MiddleIsTrim(s: string, i: nat, j: nat, space: Space)
    requires i <= j <= |s| && IsMiddle(s, i, j, space)
    ensures Trim(s, space) == s[i..j]
  {
    var from := SkipLeading(s, space, 0);
    if i < j {
      SkipsTo(s, space, 0, i);
      SkipsBackTo(s, space, i, |s|, j);
    } else {
      assert forall k :: 0 <= k < |s| ==> space(s[k]);
    }
  }

  /** Trimming takes away the white space at both ends and nothing else. */
  lemma TrimIs(s: string, t: string, space: Space)
    ensures Trim(s, space) == t <==> IsTrimmed(s, t, space)
  {
    if IsTrimmed(s, t, space) {
      var i: nat, j: nat :| i <= j <= |s| && IsMiddle(s, i, j, space) && s[i..j] == t;
      MiddleIsTrim(s, i, j, space);
    }
    var i := SkipLeading(s, space, 0);
    var j := SkipTrailing(s, space, i, |s|);
    LeadingIsSpace(s, space, 0);
    TrailingIsSpace(s, space, i, |s|);
    assert IsMiddle(s, i, j, space);
  }

  // ---------- Printing ----------

  /** The text of one call, and of several: one behind the other. */
  lemma PrintedCall(layout: Layout, call: ToolCall, others: seq<ToolCall>, space: Space)
    ensures PrintCalls(layout, [call] + others, space)
         == "[TOOL_CALLS]" + call.name + (if layout == V11 && call.id != "" then "[CALL_ID]" + call.id else "")
            + "[ARGS]" + NormalizedArguments(call.arguments, space) + PrintCalls(layout, others, space)
  {
    var (head, args) := (Head(call.name, KeptId(layout, call.id)), NormalizedArguments(call.arguments, space));
    assert ([call] + others)[0] == call && ([call] + others)[1..] == others;
    Associate(MARKER, head + ARGS, args);
    Associate(MARKER, head, ARGS);
    assert MARKER + head == MARKER + call.name + if layout == V11 && call.id != "" then CALL_ID + call.id else "";
  }

  /** No arguments become an empty object. */
  lemma NoArguments(arguments: string, space: Space)
    requires AllSpace(arguments, space)
    ensures NormalizedArguments(arguments, space) == "{}"
  {
    MiddleIsTrim(arguments, 0, 0, space);
  }

  /** Arguments that are neither object nor array become a string, which means what they were. */
  lemma OtherArguments(arguments: string, t: string, space: Space) returns (body: string)
    requires IsTrimmed(arguments, t, space) && t != "" && t[0] != '{' && t[0] != '['
    ensures NormalizedArguments(arguments, space) == "\"" + body + "\""
    ensures Unescape(body) == t && IsStringBody(body)
  {
    TrimIs(arguments, t, space);
    body := Escape(t);
    EscapeRoundTrip(t);
    EscapedIsBody(t);
  }

  // ---------- Reading ----------

  /** Name and id as they stand before the arguments, with white space around either. */
  ghost predicate Spells(head: string, name: string, id: string, space: Space)
  {
    if forall i :: !OccursAt(head, "[CALL_ID]", i) then IsTrimmed(head, name, space) && id == ""
    else exists i: nat :: IsFirst(head, "[CALL_ID]", i)
           && IsTrimmed(head[..i], name, space) && IsTrimmed(head[i + 9..], id, space)
  }

  ghost predicate IsFirst(text: string, pattern: string, at: nat)
  {
    OccursAt(text, pattern, at) && forall i :: 0 <= i < at ==> !OccursAt(text, pattern, i)
  }

  lemma HeadSpells(head: string, name: string, id: string, space: Space)
    requires Spells(head, name, id, space)
    ensures SplitHead(head, space) == (name, id)
  {
    if forall i :: !OccursAt(head, CALL_ID, i) {
      TrimIs(head, name, space);
    } else {
      var i: nat :| IsFirst(head, CALL_ID, i)
        && IsTrimmed(head[..i], name, space) && IsTrimmed(head[i + |CALL_ID|..], id, space);
      SplitAtId(head, i, head[..i], head[i + |CALL_ID|..], space);
      TrimIs(head[..i], name, space);
      TrimIs(head[i + |CALL_ID|..], id, space);
    }
  }

  lemma SplitAtId(head: string, i: nat, before: string, behind: string, space: Space)
    requires IsFirst(head, CALL_ID, i) && before == head[..i] && behind == head[i + |CALL_ID|..]
    ensures SplitHead(head, space) == (Trim(before, space), Trim(behind, space))
  {
    FindIs(head, CALL_ID, i);
  }

  /** The text begins, behind white space, with something that is neither array nor object. */
  ghost predicate BeginsPlain(text: string, space: Space)
  {
    exists k: nat :: k < |text| && AllSpace(text[..k], space) && !space(text[k]) && text[k] != '[' && text[k] != '{'
  }

  lemma PlainIsMarked(after: string, argsAt: nat, space: Space)
    requires BeginsPlain(after, space) && Find(after, ARGS) == Some(argsAt)
    ensures ReadCall(after, space) == ReadMarked(after, argsAt, space)
  {
    var k: nat :| k < |after| && AllSpace(after[..k], space) && !space(after[k]) && after[k] != '[' && after[k] != '{';
    assert forall j :: 0 <= j < k ==> after[j] == after[..k][j];
    SkipsTo(after, space, 0, k);
  }

  /** The marked arguments are found where they stand: their marker cannot begin inside text that lacks it. */
  lemma FindArgsBehind(head: string, rest: string)
    requires Find(head, ARGS).None?
    ensures Find(head + (ARGS + rest), ARGS) == Some(|head|)
  {
    var text := head + (ARGS + rest);
    forall i | 0 <= i < |head|
      ensures !OccursAt(text, ARGS, i)
    {
      if OccursAt(text, ARGS, i) {
        if i + |ARGS| <= |head| {
          OccursInPrefix(head, ARGS + rest, ARGS, i);
          assert false;
        } else {
          OccurrenceHas(text, ARGS, i, |head| - i);
          assert false;
        }
      }
    }
    assert text[|head|..|head| + |ARGS|] == ARGS;
    FindIs(text, ARGS, |head|);
  }

  /** A call in the marked layouts, with white space wherever it is allowed, and what stands before and behind it. */
  lemma MarkedCallIsRead(
    junk: string, head: string, name: string, id: string, pad: string, v: Value, behind: string, space: Space)
    requires Sane(space) && IsDelimited(v) && BeginsPlain(head, space) && Spells(head, name, id, space) && name != ""
    requires forall i :: !OccursAt(junk, "[TOOL_CALLS]", i)
    requires forall i :: !OccursAt(head, "[ARGS]", i)
    requires AllSpace(pad, space) && forall i :: 0 <= i < |pad| ==> IsAsciiWhitespace(pad[i])
    ensures ReadCalls(junk + ("[TOOL_CALLS]" + (head + ("[ARGS]" + (pad + Print(v) + behind)))), space)
         == [ToolCall(id, name, Print(v))] + ReadCalls(behind, space)
  {
    var args := pad + Print(v);
    var after := head + (ARGS + (args + behind));
    var call := ToolCall(id, name, Print(v));
    var found := Found([call], |after| - |behind|);
    MarkedIsRead(head, call, pad, v, args, behind, args + behind, after, space);
    NextIsRead(junk, after, found, behind, space);
  }

  lemma MarkedIsRead(
    head: string, call: ToolCall, pad: string, v: Value, args: string, behind: string, rest: string, after: string,
    space: Space)
    requires Sane(space) && IsDelimited(v) && BeginsPlain(head, space)
    requires Spells(head, call.name, call.id, space) && call.name != "" && call.arguments == Print(v)
    requires Find(head, ARGS).None? && args == pad + Print(v) && rest == args + behind && after == head + (ARGS + rest)
    requires AllSpace(pad, space) && forall i :: 0 <= i < |pad| ==> IsAsciiWhitespace(pad[i])
    ensures ReadCall(after, space) == Found([call], |after| - |behind|) && after[|after| - |behind|..] == behind
  {
    MarkedPartIsRead(head, call, pad, v, args, behind, rest, after, space);
    PlainHead(head, rest, after, space);
  }

  lemma MarkedPartIsRead(
    head: string, call: ToolCall, pad: string, v: Value, args: string, behind: string, rest: string, after: string,
    space: Space)
    requires Sane(space) && IsDelimited(v)
    requires Spells(head, call.name, call.id, space) && call.name != "" && call.arguments == Print(v)
    requires args == pad + Print(v) && rest == args + behind && after == head + (ARGS + rest)
    requires AllSpace(pad, space) && forall i :: 0 <= i < |pad| ==> IsAsciiWhitespace(pad[i])
    ensures |behind| <= |after| && |head| + |ARGS| <= |after|
    ensures ReadMarked(after, |head|, space) == Found([call], |after| - |behind|) && after[|after| - |behind|..] == behind
  {
    var end := ArgumentsEnd(head, pad, v, args, behind, rest, after, space);
    LocatedIsRead(head, call, end, after, space);
  }

  /** Where the arguments end, and what they are without their white space. */
  lemma ArgumentsEnd(
    head: string, pad: string, v: Value, args: string, behind: string, rest: string, after: string, space: Space)
    returns (end: nat)
    requires Sane(space) && IsDelimited(v)
    requires args == pad + Print(v) && rest == args + behind && after == head + (ARGS + rest)
    requires AllSpace(pad, space) && forall i :: 0 <= i < |pad| ==> IsAsciiWhitespace(pad[i])
    ensures end == |after| - |behind| && |head| + |ARGS| <= end && after[..|head|] == head && after[end..] == behind
    ensures ValueEnd(after, |head| + |ARGS|) == Some(end)
    ensures Trim(after[|head| + |ARGS|..end], space) == Print(v)
  {
    var before, start, last := Parts(head, ARGS, args, behind, after);
    PaddedEnds(before, pad, v, behind, args, after);
    PaddedIsTrimmed(pad, v, space);
    end := last;
  }

  lemma LocatedIsRead(head: string, call: ToolCall, end: nat, after: string, space: Space)
    requires Spells(head, call.name, call.id, space) && call.name != ""
    requires |head| + |ARGS| <= end <= |after| && after[..|head|] == head
    requires ValueEnd(after, |head| + |ARGS|) == Some(end)
    requires Trim(after[|head| + |ARGS|..end], space) == call.arguments
    ensures ReadMarked(after, |head|, space) == Found([call], end)
  {
    HeadSpells(head, call.name, call.id, space);
    ReadLocated(after, head, end, call, space);
  }

  lemma PlainHead(head: string, rest: string, after: string, space: Space)
    requires BeginsPlain(head, space) && Find(head, ARGS).None? && after == head + (ARGS + rest)
    ensures ReadCall(after, space) == ReadMarked(after, |head|, space)
  {
    FindArgsBehind(head, rest);
    StillPlain(head, ARGS + rest, space);
    PlainIsMarked(after, |head|, space);
  }

  /** Where the parts of a text begin and end. */
  lemma Parts(a: string, b: string, c: string, d: string, text: string) returns (before: string, start: nat, end: nat)
    requires text == a + (b + (c + d))
    ensures before == a + b && text == before + c + d
    ensures start == |before| == |a| + |b| && end == start + |c| == |text| - |d|
    ensures text[..|a|] == a && text[start..end] == c && text[end..] == d
  {
    before, start, end := a + b, |a| + |b|, |a| + |b| + |c|;
    Associate(before, c, d);
    Associate(a, b, c + d);
  }

  lemma StillPlain(text: string, rest: string, space: Space)
    requires BeginsPlain(text, space)
    ensures BeginsPlain(text + rest, space)
  {
    var k: nat :| k < |text| && AllSpace(text[..k], space) && !space(text[k]) && text[k] != '[' && text[k] != '{';
    assert (text + rest)[..k] == text[..k] && (text + rest)[k] == text[k];
  }

  lemma PaddedEnds(before: string, pad: string, v: Value, behind: string, args: string, text: string)
    requires IsDelimited(v) && forall i :: 0 <= i < |pad| ==> IsAsciiWhitespace(pad[i])
    requires args == pad + Print(v) && text == before + args + behind
    ensures ValueEnd(text, |before|) == Some(|before| + |args|)
  {
    ValueEndIsExact(before, pad, v, behind);
    Associate(before, pad, Print(v));
  }

  lemma PaddedIsTrimmed(pad: string, v: Value, space: Space)
    requires Sane(space) && IsDelimited(v) && AllSpace(pad, space)
    ensures Trim(pad + Print(v), space) == Print(v)
  {
    DelimitedText(v, space);
    TrimPadding(pad, Print(v), "", space);
    assert pad + Print(v) + "" == pad + Print(v);
  }

  /** An array or a bare object behind a marker is read object by object, and reading goes on behind it. */
  lemma ArrayTextIsRead(junk: string, pad: string, v: Value, behind: string, space: Space)
    requires Sane(space) && IsContainer(v) && AllSpace(pad, space)
    requires forall i :: !OccursAt(junk, "[TOOL_CALLS]", i)
    ensures ReadCalls(junk + ("[TOOL_CALLS]" + (pad + Print(v) + behind)), space)
         == CollectCalls(Print(v), space) + ReadCalls(behind, space)
  {
    var after := pad + Print(v) + behind;
    ContainerIsRead(pad, v, Print(v), behind, after, space);
    NextIsRead(junk, after, Found(CollectCalls(Print(v), space), |after| - |behind|), behind, space);
  }

  lemma ContainerIsRead(pad: string, v: Value, s: string, behind: string, after: string, space: Space)
    requires Sane(space) && IsContainer(v) && AllSpace(pad, space) && s == Print(v) && after == pad + s + behind
    ensures ReadCall(after, space) == Found(CollectCalls(s, space), |after| - |behind|)
  {
    DelimitedText(v, space);
    ThreeParts(pad, s, behind, after);
    SkipsTo(after, space, 0, |pad|);
    ValueEndsBehindPrint(pad, v, behind);
    ReadAsContainer(after, |pad|, |pad| + |s|, space);
  }

  lemma ReadAsContainer(after: string, at: nat, end: nat, space: Space)
    requires SkipLeading(after, space, 0) == at < end <= |after| && IsOpening(after[at])
    requires ValueEnd(after, at) == Some(end)
    ensures ReadCall(after, space) == Found(CollectCalls(after[at..end], space), end)
  {
  }

  lemma ThreeParts(a: string, b: string, c: string, text: string)
    requires text == a + b + c
    ensures text[..|a|] == a && text[|a|..|a| + |b|] == b && text[|a| + |b|..] == c
    ensures (forall k :: 0 <= k < |a| ==> text[k] == a[k]) && (b != "" ==> text[|a|] == b[0])
  {
  }

  lemma NextIsRead(junk: string, after: string, found: Found, behind: string, space: Space)
    requires Find(junk, MARKER).None?
    requires found.Found? && ReadCall(after, space) == found && after[found.end..] == behind
    ensures ReadCalls(junk + (MARKER + after), space) == found.calls + ReadCalls(behind, space)
  {
    FindMarker(junk, after);
    DropPrefix(junk, MARKER + after);
    DropPrefix(MARKER, after);
    assert (junk + (MARKER + after))[|junk| + |MARKER|..] == after;
    ReadCallsStep(junk + (MARKER + after), found.calls, behind, space);
  }

  /** The text before the first marker is shown without the white space around it. */
  lemma ProseIsTrimmed(text: string, first: nat, space: Space)
    requires IsFirst(text, "[TOOL_CALLS]", first)
    ensures
      var (prose, calls) := Parse(text, space);
      IsTrimmed(text[..first], prose, space) && calls == ReadCalls(text[first..], space)
  {
    FindIs(text, MARKER, first);
    TrimIs(text[..first], Trim(text[..first], space), space);
  }

  /** Text without a marker holds no call. */
  lemma NoMarkerNoCall(text: string, space: Space)
    requires forall i :: !OccursAt(text, "[TOOL_CALLS]", i)
    ensures ReadCalls(text, space) == [] && Parse(text, space) == (text, [])
  {
  }

  /** What an object says nothing about: no name, no call; no id or no arguments, the empty ones. */
  lemma MissingFields(objectText: string, space: Space)
    ensures (forall i :: !OccursAt(objectText, "\"name\"", i)) ==> ReadObject(objectText, space) == []
    ensures forall call :: call in ReadObject(objectText, space) ==>
              && ReadObject(objectText, space) == [call]
              && ((forall i :: !OccursAt(objectText, "\"id\"", i)) ==> call.id == "")
              && ((forall i :: !OccursAt(objectText, "\"arguments\"", i)) ==> call.arguments == "{}")
  {
    assert "\"" + "name" + "\"" == "\"name\"";
    assert "\"" + "id" + "\"" == "\"id\"";
    assert "\"" + "arguments" + "\"" == "\"arguments\"";
  }
}
