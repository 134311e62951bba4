/**
 UTF-8 as far as the tokenizer depends on it: the well-formed byte sequences of the Unicode
 Standard, Table 3-7, validation with the position and extent of the first error, and the
 lossy decoding that substitutes U+FFFD for each maximal subpart (Unicode Standard, section
 3.9, "U+FFFD Substitution of Maximal Subparts"; RFC 3629, section 4).

 Text is kept in its encoded form: a string is a sequence of bytes that is well formed.
 */
module Utf8 {
  import opened Wrappers
  import opened Sequences

  type Byte = b: int | 0 <= b < 256
  type Bytes = seq<Byte>

  const REPLACEMENT: Bytes := [0xEF, 0xBF, 0xBD]

  predicate IsContinuation(b: Byte)
  {
    0x80 <= b <= 0xBF
  }

  /** Length announced by a leading byte; 0 for a byte that begins no sequence. */
  function Width(lead: Byte): nat
  {
    if lead <= 0x7F then 1
    else if 0xC2 <= lead <= 0xDF then 2
    else if 0xE0 <= lead <= 0xEF then 3
    else if 0xF0 <= lead <= 0xF4 then 4
    else 0
  }

  /** The second byte's range depends on the first; later bytes are plain continuations. */
  predicate SecondFits(lead: Byte, second: Byte)
  {
    if lead == 0xE0 then 0xA0 <= second <= 0xBF
    else if lead == 0xED then 0x80 <= second <= 0x9F
    else if lead == 0xF0 then 0x90 <= second <= 0xBF
    else if lead == 0xF4 then 0x80 <= second <= 0x8F
    else IsContinuation(second)
  }

  /** The bytes of `s` after the first, up to the fourth, are in the ranges the table allows there. */
  predicate Fits(s: Bytes)
  {
    && (|s| >= 2 ==> SecondFits(s[0], s[1]))
    && (|s| >= 3 ==> IsContinuation(s[2]))
    && (|s| >= 4 ==> IsContinuation(s[3]))
  }

  /** `s` encodes exactly one scalar value. */
  predicate IsCharacter(s: Bytes)
  {
    s != [] && |s| == Width(s[0]) && Fits(s)
  }

  /** `s` is non-empty and stops inside a character. */
  predicate IsPartial(s: Bytes)
  {
    s != [] && |s| < Width(s[0]) && Fits(s)
  }

  /** A partial sequence is a proper prefix of some character, and nothing else is. */
  lemma PartialIsProperPrefix(s: Bytes)
    ensures IsPartial(s) <==> s != [] && exists t: Bytes :: t != [] && IsCharacter(s + t)
  {
    if IsPartial(s) {
      var second := if s[0] == 0xE0 || s[0] == 0xF0 then 0xA0 else 0x80;
      var padded := if |s| == 1 then [second, 0x80, 0x80] else [0x80, 0x80];
      var t: Bytes := padded[..Width(s[0]) - |s|];
      assert IsCharacter(s + t);
    }
    if s != [] {
      forall t: Bytes | t != [] && IsCharacter(s + t)
        ensures IsPartial(s)
      {
        assert forall i :: 0 <= i < |s| ==> s[i] == (s + t)[i];
      }
    }
  }

  /** Length of the character at the front of `s`, or 0. */
  function CharacterLength(s: Bytes): (n: nat)
    ensures n <= |s|
    ensures n > 0 ==> IsCharacter(s[..n])
  {
    if s != [] && Width(s[0]) <= |s| && IsCharacter(s[..Width(s[0])]) then Width(s[0]) else 0
  }

  /** A character at the front is the only one there is, and none is overlooked. */
  lemma CharacterLengthIsExact(s: Bytes, k: nat)
    requires k <= |s| && IsCharacter(s[..k])
    ensures CharacterLength(s) == k
  {
    assert s[..k][0] == s[0];
  }

  /**
   Length of the maximal subpart at the front of an ill-formed `s`: the longest prefix that
   could have begun a character, or a single byte.
   */
  function SubpartLength(s: Bytes): (n: nat)
    requires s != []
    ensures 1 <= n <= |s|
    ensures n == 1 || IsPartial(s[..n])
  {
    if |s| >= 3 && IsPartial(s[..3]) then 3
    else if |s| >= 2 && IsPartial(s[..2]) then 2
    else 1
  }

  lemma SubpartIsMaximal(s: Bytes, k: nat)
    requires s != [] && SubpartLength(s) < k <= |s|
    ensures !IsPartial(s[..k])
  {
    assert s[..k][0] == s[0];
  }

  /** One-shot decoding of arbitrary bytes. */
  function Lossy(s: Bytes): (text: Bytes)
    decreases |s|
  {
    if s == [] then []
    else if CharacterLength(s) > 0 then s[..CharacterLength(s)] + Lossy(s[CharacterLength(s)..])
    else REPLACEMENT + Lossy(s[SubpartLength(s)..])
  }

  /**
   What is read at the front of `s`: a character if there is one, and otherwise the longest
   beginning of one, or a single byte.
   */
  ghost predicate IsPiece(s: Bytes, p: Bytes)
  {
    && p != [] && p <= s
    && if exists k :: 0 <= k <= |s| && IsCharacter(s[..k]) then IsCharacter(p)
       else (|p| == 1 || IsPartial(p)) && forall k :: |p| < k <= |s| ==> !IsPartial(s[..k])
  }

  ghost predicate ArePieces(s: Bytes, pieces: seq<Bytes>)
  {
    if pieces == [] then s == []
    else IsPiece(s, pieces[0]) && ArePieces(s[|pieces[0]|..], pieces[1..])
  }

  /** Characters are shown as they are, everything else as one U+FFFD. */
  function Shown(pieces: seq<Bytes>): Bytes
  {
    if pieces == [] then [] else (if IsCharacter(pieces[0]) then pieces[0] else REPLACEMENT) + Shown(pieces[1..])
  }

  lemma PieceLength(s: Bytes, p: Bytes)
    requires IsPiece(s, p)
    ensures |p| == if CharacterLength(s) > 0 then CharacterLength(s) else SubpartLength(s)
    ensures IsCharacter(p) <==> CharacterLength(s) > 0
  {
    assert p == s[..|p|];
    if IsCharacter(p) {
      CharacterLengthIsExact(s, |p|);
    } else {
      forall k | 0 <= k <= |s|
        ensures !IsCharacter(s[..k])
      {
      }
      assert CharacterLength(s) == 0;
      assert forall k :: |p| < k <= |s| ==> !IsPartial(s[..k]);
      if SubpartLength(s) < |p| {
        SubpartIsMaximal(s, |p|);
      }
    }
  }

  /** Decoding shows the pieces, and every byte sequence has one division into pieces. */
  lemma {:induction false} LossyShowsPieces(s: Bytes, pieces: seq<Bytes>)
    requires ArePieces(s, pieces)
    ensures Lossy(s) == Shown(pieces)
    decreases |s|
  {
    if pieces != [] {
      LossyShowsPiece(s, pieces[0]);
      LossyShowsPieces(s[|pieces[0]|..], pieces[1..]);
    }
  }

  lemma LossyShowsPiece(s: Bytes, p: Bytes)
    requires IsPiece(s, p)
    ensures Lossy(s) == (if IsCharacter(p) then p else REPLACEMENT) + Lossy(s[|p|..])
  {
    PieceLength(s, p);
    assert p == s[..|p|];
  }

  lemma {:induction false} PiecesExist(s: Bytes) returns (pieces: seq<Bytes>)
    ensures ArePieces(s, pieces)
    decreases |s|
  {
    if s == [] {
      pieces := [];
    } else {
      var n := if CharacterLength(s) > 0 then CharacterLength(s) else SubpartLength(s);
      forall k | 0 <= k <= |s| && IsCharacter(s[..k])
        ensures CharacterLength(s) == k
      {
        CharacterLengthIsExact(s, k);
      }
      forall k | SubpartLength(s) < k <= |s|
        ensures !IsPartial(s[..k])
      {
        SubpartIsMaximal(s, k);
      }
      var rest := PiecesExist(s[n..]);
      pieces := [s[..n]] + rest;
    }
  }

  predicate Valid(s: Bytes)
    decreases |s|
  {
    s == [] || (CharacterLength(s) > 0 && Valid(s[CharacterLength(s)..]))
  }

  /** Where validation first fails, and how many bytes are at fault; none if input merely ends. */
  datatype Validity = Ok | Err(validUpTo: nat, errorLen: Option<nat>)

  /** The validation result reported by the standard library. */
  function Validate(s: Bytes): (v: Validity)
    ensures v.Ok? <==> Valid(s)
    ensures v.Err? ==> v.validUpTo <= |s| && Valid(s[..v.validUpTo])
    ensures v.Err? && v.errorLen.None? ==> IsPartial(s[v.validUpTo..])
    ensures v.Err? && v.errorLen.Some? ==>
              && 1 <= v.errorLen.value <= |s| - v.validUpTo
              && v.errorLen.value == SubpartLength(s[v.validUpTo..])
              && CharacterLength(s[v.validUpTo..]) == 0 && !IsPartial(s[v.validUpTo..])
    decreases |s|
  {
    var n := CharacterLength(s);
    if s == [] then Ok
    else if n > 0 then
      match Validate(s[n..])
      case Ok => Ok
      case Err(valid, len) =>
        CharacterBeforeText(s, n, valid);
        Err(n + valid, len)
    else if IsPartial(s) then Err(0, None)
    else Err(0, Some(SubpartLength(s)))
  }

  lemma CharacterBeforeText(s: Bytes, n: nat, valid: nat)
    requires n == CharacterLength(s) > 0 && n + valid <= |s| && Valid(s[n..][..valid])
    ensures Valid(s[..n + valid]) && s[n + valid..] == s[n..][valid..]
  {
    var t := s[..n + valid];
    assert t[..n] == s[..n];
    assert CharacterLength(t) == n;
    assert t[n..] == s[n..][..valid];
  }

  /** A character at the front is found whatever follows it. */
  lemma CharacterThenRest(c: Bytes, rest: Bytes)
    requires IsCharacter(c)
    ensures CharacterLength(c + rest) == |c|
    ensures (c + rest)[..|c|] == c && (c + rest)[|c|..] == rest
  {
    assert (c + rest)[..|c|] == c;
  }

  lemma LossyCharacter(c: Bytes, rest: Bytes)
    requires IsCharacter(c)
    ensures Lossy(c + rest) == c + Lossy(rest)
  {
    CharacterThenRest(c, rest);
  }

  /** Decoding consumes valid text unchanged. */
  lemma {:induction false} LossyAfterValid(text: Bytes, rest: Bytes)
    requires Valid(text)
    ensures Lossy(text + rest) == text + Lossy(rest)
    decreases |text|
  {
    if text == [] {
      assert text + rest == rest;
    } else {
      var n := CharacterLength(text);
      var (c, tail) := (text[..n], text[n..]);
      Associate(c, tail, rest);
      LossyCharacter(c, tail + rest);
      LossyAfterValid(tail, rest);
      Associate(c, tail, Lossy(rest));
      assert c + tail == text;
    }
  }

  /** What decoding yields is always well formed, and well-formed text decodes to itself. */
  lemma LossyIsValid(s: Bytes)
    ensures Valid(Lossy(s))
    ensures Valid(s) ==> Lossy(s) == s
  {
    if Valid(s) {
      LossyAfterValid(s, []);
      assert s + [] == s;
    }
    LossyGivesValid(s);
  }

  lemma {:induction false} LossyGivesValid(s: Bytes)
    ensures Valid(Lossy(s))
    decreases |s|
  {
    if s != [] {
      var n := CharacterLength(s);
      if n > 0 {
        LossyGivesValid(s[n..]);
        CharacterThenRest(s[..n], Lossy(s[n..]));
      } else {
        LossyGivesValid(s[SubpartLength(s)..]);
        CharacterThenRest(REPLACEMENT, Lossy(s[SubpartLength(s)..]));
      }
    }
  }

  /** The encoding of one scalar value. */
  function EncodeChar(c: char): (s: Bytes)
    ensures IsCharacter(s)
  {
    var v := c as int;
    if v < 0x80 then [v]
    else if v < 0x800 then [0xC0 + v / 0x40, 0x80 + v % 0x40]
    else if v < 0x1_0000 then [0xE0 + v / 0x1000, 0x80 + v / 0x40 % 0x40, 0x80 + v % 0x40]
    else [0xF0 + v / 0x4_0000, 0x80 + v / 0x1000 % 0x40, 0x80 + v / 0x40 % 0x40, 0x80 + v % 0x40]
  }

  /** The scalar value that a character's bits spell (RFC 3629, section 3). */
  function CodeOf(s: Bytes): (code: int)
    requires IsCharacter(s)
    ensures 0 <= code < 0xD800 || 0xE000 <= code < 0x11_0000
  {
    if |s| == 1 then s[0]
    else if |s| == 2 then (s[0] as int - 0xC0) * 0x40 + (s[1] as int - 0x80)
    else if |s| == 3 then (s[0] as int - 0xE0) * 0x1000 + (s[1] as int - 0x80) * 0x40 + (s[2] as int - 0x80)
    else (s[0] as int - 0xF0) * 0x4_0000 + (s[1] as int - 0x80) * 0x1000 + (s[2] as int - 0x80) * 0x40 + (s[3] as int - 0x80)
  }

  function DecodeChar(s: Bytes): char
    requires IsCharacter(s)
  {
    CodeOf(s) as char
  }

  /** Groups of six bits are put together and taken apart again. */
  lemma SixBits(high: int, low: int)
    requires 0 <= low < 0x40
    ensures (high * 0x40 + low) / 0x40 == high && (high * 0x40 + low) % 0x40 == low
  {
  }

  lemma TwoSixBits(v: int)
    ensures v / 0x1000 == v / 0x40 / 0x40 && v / 0x4_0000 == v / 0x40 / 0x40 / 0x40
    ensures v / 0x1000 % 0x40 == v / 0x40 / 0x40 % 0x40
  {
  }

  /** Decoding undoes encoding. */
  lemma DecodeOfEncode(c: char)
    ensures DecodeChar(EncodeChar(c)) == c
  {
    var v := c as int;
    var (a, b, d) := (v / 0x40, v / 0x40 / 0x40, v / 0x40 / 0x40 / 0x40);
    TwoSixBits(v);
    assert v == a * 0x40 + v % 0x40 && a == b * 0x40 + a % 0x40 && b == d * 0x40 + b % 0x40;
    assert CodeOf(EncodeChar(c)) == v;
  }

  /** And encoding undoes decoding: a scalar value has one well-formed sequence and no longer one. */
  lemma EncodeOfDecode(s: Bytes)
    requires IsCharacter(s)
    ensures EncodeChar(DecodeChar(s)) == s
  {
    if |s| == 2 {
      SixBits(s[0] as int - 0xC0, s[1] as int - 0x80);
    } else if |s| == 3 {
      ThreeGroups(s[0] as int - 0xE0, s[1] as int - 0x80, s[2] as int - 0x80);
      TwoSixBits(CodeOf(s));
    } else if |s| == 4 {
      FourBytes(s);
    }
  }

  lemma FourBytes(s: Bytes)
    requires IsCharacter(s) && |s| == 4
    ensures EncodeChar(DecodeChar(s)) == s
  {
    var high := (s[0] as int - 0xF0) * 0x40 + (s[1] as int - 0x80);
    ThreeGroups(high, s[2] as int - 0x80, s[3] as int - 0x80);
    SixBits(s[0] as int - 0xF0, s[1] as int - 0x80);
    TwoSixBits(CodeOf(s));
  }

  lemma ThreeGroups(high: int, mid: int, low: int)
    requires 0 <= mid < 0x40 && 0 <= low < 0x40
    ensures
      var v := high * 0x1000 + mid * 0x40 + low;
      v / 0x40 / 0x40 == high && v / 0x40 % 0x40 == mid && v % 0x40 == low
  {
    SixBits(high * 0x40 + mid, low);
    SixBits(high, mid);
    assert high * 0x1000 + mid * 0x40 + low == (high * 0x40 + mid) * 0x40 + low;
  }

  /** The well-formed sequences of one character are the encodings of the scalar values. */
  lemma IsCharacterIff(s: Bytes)
    ensures IsCharacter(s) <==> exists c :: EncodeChar(c) == s
  {
    if IsCharacter(s) {
      EncodeOfDecode(s);
    }
  }

  /** What replaces ill-formed bytes is U+FFFD. */
  lemma ReplacementIsFFFD()
    ensures REPLACEMENT == EncodeChar('\U{FFFD}')
  {
  }

  function EncodeString(text: string): Bytes
  {
    if text == [] then [] else EncodeChar(text[0]) + EncodeString(text[1..])
  }

  lemma {:induction false} EncodedIsValid(text: string)
    ensures Valid(EncodeString(text))
    decreases |text|
  {
    if text != [] {
      CharacterThenRest(EncodeChar(text[0]), EncodeString(text[1..]));
      EncodedIsValid(text[1..]);
    }
  }

  lemma {:induction false} EncodeConcat(a: string, b: string)
    ensures EncodeString(a + b) == EncodeString(a) + EncodeString(b)
    decreases |a|
  {
    if a == [] {
      assert a + b == b;
    } else {
      assert (a + b)[1..] == a[1..] + b;
      EncodeConcat(a[1..], b);
      Associate(EncodeChar(a[0]), EncodeString(a[1..]), EncodeString(b));
    }
  }
}
