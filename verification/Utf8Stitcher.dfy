/**
 Reassembling text from separately decoded tokens: a character may be cut anywhere, yet the
 text released must be the one that decoding all bytes at once would give.
 */
module Utf8Stitching {
  import opened Sequences
  import opened Utf8

  /** What feeding bytes releases, and what it holds back. */
  datatype Release = Release(text: Bytes, pending: Bytes)

  /** Decodes everything that later bytes cannot change; a trailing partial character is held back. */
  function Stitch(s: Bytes): (r: Release)
    ensures r.pending == [] || IsPartial(r.pending)
    decreases |s|
  {
    if s == [] || IsPartial(s) then Release([], s)
    else
      var n := if CharacterLength(s) > 0 then CharacterLength(s) else SubpartLength(s);
      var r := Stitch(s[n..]);
      Release((if CharacterLength(s) > 0 then s[..n] else REPLACEMENT) + r.text, r.pending)
  }

  /** What has been released is final: no later byte changes it. */
  lemma {:induction false} StitchIsFinal(s: Bytes, later: Bytes)
    ensures Lossy(s + later) == Stitch(s).text + Lossy(Stitch(s).pending + later)
    decreases |s|, 1
  {
    if s == [] || IsPartial(s) {
      assert [] + Lossy(s + later) == Lossy(s + later);
    } else if CharacterLength(s) > 0 {
      var (c, rest) := (s[..CharacterLength(s)], s[CharacterLength(s)..]);
      assert s == c + rest;
      FinalAfterCharacter(c, rest, later);
    } else {
      FinalAfterBad(s, later);
    }
  }

  lemma FinalAfterCharacter(c: Bytes, rest: Bytes, later: Bytes)
    requires IsCharacter(c)
    ensures Lossy(c + rest + later) == Stitch(c + rest).text + Lossy(Stitch(c + rest).pending + later)
    decreases |c + rest|, 0
  {
    StitchIsFinal(rest, later);
    StitchCharacter(c, rest);
    Associate(c, rest, later);
    LossyCharacter(c, rest + later);
    Associate(c, Stitch(rest).text, Lossy(Stitch(rest).pending + later));
  }

  lemma FinalAfterBad(s: Bytes, later: Bytes)
    requires s != [] && !IsPartial(s) && CharacterLength(s) == 0
    ensures Lossy(s + later) == Stitch(s).text + Lossy(Stitch(s).pending + later)
    decreases |s|, 0
  {
    var m := SubpartLength(s);
    BadSubpartIsFinal(s, later);
    DropOfConcat(s, later, m);
    LossyBad(s + later);
    StitchBad(s);
    FinalAfterReplacement(s[m..], later);
  }

  lemma FinalAfterReplacement(rest: Bytes, later: Bytes)
    ensures REPLACEMENT + Lossy(rest + later)
         == REPLACEMENT + Stitch(rest).text + Lossy(Stitch(rest).pending + later)
    decreases |rest|, 2
  {
    StitchIsFinal(rest, later);
    Associate(REPLACEMENT, Stitch(rest).text, Lossy(Stitch(rest).pending + later));
  }

  lemma StitchCharacter(c: Bytes, rest: Bytes)
    requires IsCharacter(c)
    ensures Stitch(c + rest) == Release(c + Stitch(rest).text, Stitch(rest).pending)
  {
    CharacterThenRest(c, rest);
    assert !IsPartial(c + rest) by {
      assert (c + rest)[0] == c[0];
    }
  }

  lemma StitchBad(s: Bytes)
    requires s != [] && !IsPartial(s) && CharacterLength(s) == 0
    ensures
      var next := Stitch(s[SubpartLength(s)..]);
      Stitch(s) == Release(REPLACEMENT + next.text, next.pending)
  {
  }

  lemma LossyBad(s: Bytes)
    requires s != [] && CharacterLength(s) == 0
    ensures Lossy(s) == REPLACEMENT + Lossy(s[SubpartLength(s)..])
  {
  }

  /** Bytes that can no longer become a character stay bad, over the same extent. */
  lemma BadSubpartIsFinal(s: Bytes, later: Bytes)
    requires s != [] && !IsPartial(s) && CharacterLength(s) == 0
    ensures CharacterLength(s + later) == 0
    ensures SubpartLength(s + later) == SubpartLength(s)
  {
    var whole := s + later;
    assert forall i :: 0 <= i < |s| ==> whole[i] == s[i];
    if |s| >= 2 {
      assert whole[..2] == s[..2];
    }
    if |s| >= 3 {
      assert whole[..3] == s[..3];
    }
    if Width(s[0]) <= |whole| && Width(s[0]) <= |s| {
      assert whole[..Width(s[0])] == s[..Width(s[0])];
    }
    assert |s| == 1 ==> Width(s[0]) == 0;
  }

  /** A held-back character surfaces as a single U+FFFD. */
  lemma PartialDecodesToReplacement(s: Bytes)
    requires IsPartial(s)
    ensures Lossy(s) == REPLACEMENT
  {
    assert s[..|s|] == s;
    assert SubpartLength(s) == |s|;
  }

  /** The three outcomes of one validation, each of them a step of the specification. */
  lemma AllValid(out: Bytes, held: Bytes)
    requires Utf8.Valid(held)
    ensures Release(out + held, []) == Release(out + Stitch(held).text, Stitch(held).pending)
  {
    StitchAfterValid(held, []);
    assert held + [] == held;
  }

  lemma EndsInside(out: Bytes, held: Bytes, valid: nat)
    requires valid <= |held| && Utf8.Valid(held[..valid]) && IsPartial(held[valid..])
    ensures Release(out + held[..valid], held[valid..])
         == Release(out + Stitch(held).text, Stitch(held).pending)
  {
    StitchAfterValid(held[..valid], held[valid..]);
    assert held[..valid] + held[valid..] == held;
    assert held[..valid] + [] == held[..valid];
  }

  lemma SkipsBad(out: Bytes, held: Bytes, valid: nat, bad: nat)
    requires valid < |held| && Utf8.Valid(held[..valid]) && bad == SubpartLength(held[valid..])
    requires CharacterLength(held[valid..]) == 0 && !IsPartial(held[valid..])
    ensures
      var next := Stitch(held[valid + bad..]);
      Release(out + held[..valid] + REPLACEMENT + next.text, next.pending)
        == Release(out + Stitch(held).text, Stitch(held).pending)
  {
    var (text, rest) := (held[..valid], held[valid..]);
    assert text + rest == held && rest[bad..] == held[valid + bad..];
    StitchAfterValid(text, rest);
    StitchBad(rest);
    Associate(out, text, REPLACEMENT + Stitch(rest[bad..]).text);
    Associate(out + text, REPLACEMENT, Stitch(rest[bad..]).text);
  }

  class Utf8Stitcher {
    var pending: Bytes

    ghost predicate Valid()
      reads this
    {
      pending == [] || IsPartial(pending)
    }

    constructor ()
      ensures Valid() && pending == []
    {
      pending := [];
    }

    /** Takes the next chunk and releases whatever it decides; an unfinished character waits. */
    method Push(bytes: Bytes) returns (out: Bytes)
      requires Valid()
      modifies this
      ensures Valid()
      ensures Release(out, pending) == Stitch(old(pending) + bytes)
    {
      pending := pending + bytes;
      ghost var fed := pending;
      out := [];
      while true
        invariant Release(out + Stitch(pending).text, Stitch(pending).pending) == Stitch(fed)
        decreases |pending|
      {
        ghost var (released, held) := (out, pending);
        match Validate(pending)
        case Ok =>
          AllValid(released, held);
          out := out + pending;
          pending := [];
          return;
        case Err(valid, errorLen) =>
          out := out + pending[..valid];
          match errorLen {
            case None =>
              EndsInside(released, held, valid);
              pending := pending[valid..];
              return;
            case Some(bad) =>
              SkipsBad(released, held, valid, bad);
              out := out + REPLACEMENT;
              pending := pending[valid + bad..];
          }
      }
    }

    /** Releases whatever is held back when generation stops. */
    method Flush() returns (out: Bytes)
      requires Valid()
      modifies this
      ensures Valid() && pending == []
      ensures out == Lossy(old(pending))
      ensures old(pending) != [] ==> out == REPLACEMENT
    {
      if pending == [] {
        return [];
      }
      PartialDecodesToReplacement(pending);
      out := Lossy(pending);
      pending := [];
    }
  }

  /** Stitching passes valid text through and continues behind it. */
  lemma {:induction false} StitchAfterValid(text: Bytes, rest: Bytes)
    requires Utf8.Valid(text)
    ensures Stitch(text + rest) == Release(text + Stitch(rest).text, Stitch(rest).pending)
    decreases |text|
  {
    if text == [] {
      assert text + rest == rest && text + Stitch(rest).text == Stitch(rest).text;
    } else {
      var n := CharacterLength(text);
      var (c, tail) := (text[..n], text[n..]);
      assert text + rest == c + (tail + rest) && c + tail == text;
      StitchCharacter(c, tail + rest);
      StitchAfterValid(tail, rest);
      Associate(c, tail, Stitch(rest).text);
    }
  }

  /** The concatenated output of feeding the chunks one by one and then flushing. */
  function StreamText(pending: Bytes, chunks: seq<Bytes>): (text: Bytes)
    decreases |chunks|
  {
    if chunks == [] then Lossy(pending)
    else
      var r := Stitch(pending + chunks[0]);
      r.text + StreamText(r.pending, chunks[1..])
  }

  /** However the bytes are cut, the released text is the one-shot decoding of all of them. */
  lemma {:induction false} ChunkingIndependent(pending: Bytes, chunks: seq<Bytes>)
    ensures StreamText(pending, chunks) == Lossy(pending + Join(chunks))
    decreases |chunks|
  {
    if chunks == [] {
      assert pending + [] == pending;
    } else {
      var (fed, later) := (pending + chunks[0], Join(chunks[1..]));
      ChunkingIndependent(Stitch(fed).pending, chunks[1..]);
      StitchIsFinal(fed, later);
      Associate(pending, chunks[0], later);
    }
  }

  lemma StreamStep(text: Bytes, pending: Bytes, chunks: seq<Bytes>, i: nat)
    requires i < |chunks|
    ensures
      var r := Stitch(pending + chunks[i]);
      text + StreamText(pending, chunks[i..]) == text + r.text + StreamText(r.pending, chunks[i + 1..])
  {
    var r := Stitch(pending + chunks[i]);
    assert chunks[i..][1..] == chunks[i + 1..];
    Associate(text, r.text, StreamText(r.pending, chunks[i + 1..]));
  }

  /** A whole generation through one stitcher: every token pushed, then the tail flushed. */
  method DecodeStream(chunks: seq<Bytes>) returns (text: Bytes)
    ensures text == Lossy(Join(chunks))
  {
    var stitcher := new Utf8Stitcher();
    text := [];
    ChunkingIndependent([], chunks);
    assert [] + Join(chunks) == Join(chunks);
    for i := 0 to |chunks|
      invariant stitcher.Valid() && fresh(stitcher)
      invariant text + StreamText(stitcher.pending, chunks[i..]) == StreamText([], chunks)
    {
      StreamStep(text, stitcher.pending, chunks, i);
      var out := stitcher.Push(chunks[i]);
      text := text + out;
    }
    var tail := stitcher.Flush();
    text := text + tail;
  }
}
