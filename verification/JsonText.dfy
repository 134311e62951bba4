/** Escaping text for JSON strings, and undoing it. */
module JsonText {
  import opened Wrappers
  import opened Sequences
  import opened JsonScan

  const REPLACEMENT_CHAR: char := '\U{FFFD}'

  function LowerHex(d: int): char
    requires 0 <= d < 16
  {
    if d < 10 then '0' + d as char else 'a' + (d - 10) as char
  }

  /** The escaped form of one character. */
  function EscapeChar(c: char): string
  {
    if c == '"' then "\\\""
    else if c == '\\' then "\\\\"
    else if c == '\n' then "\\n"
    else if c == '\r' then "\\r"
    else if c == '\t' then "\\t"
    else if c as int < 0x20 then "\\u00" + [LowerHex(c as int / 16), LowerHex(c as int % 16)]
    else [c]
  }

  function Escape(text: string): string
  {
    if text == [] then [] else EscapeChar(text[0]) + Escape(text[1..])
  }

  /** Appends a quoted, escaped JSON string. */
  method PushJsonString(value: string, before: string) returns (out: string)
    ensures out == before + Quoted(Escape(value))
  {
    out := before + "\"";
    ghost var start := out;
    for i := 0 to |value|
      invariant out + Escape(value[i..]) == start + Escape(value)
    {
      assert value[i..][1..] == value[i + 1..];
      Associate(out, EscapeChar(value[i]), Escape(value[i + 1..]));
      out := out + EscapeChar(value[i]);
    }
    assert value[|value|..] == [] && out == start + Escape(value);
    Associate(before, "\"", Escape(value));
    out := out + "\"";
    Associate(before, "\"" + Escape(value), "\"");
  }

  function HexValue(c: char): Option<nat>
  {
    if '0' <= c <= '9' then Some((c - '0') as nat)
    else if 'a' <= c <= 'f' then Some((c - 'a') as nat + 10)
    else if 'A' <= c <= 'F' then Some((c - 'A') as nat + 10)
    else None
  }

  function ParseDigits(s: string): Option<nat>
  {
    if s == [] then Some(0)
    else
      match (ParseDigits(s[..|s| - 1]), HexValue(s[|s| - 1]))
      case (Some(high), Some(low)) => Some(high * 16 + low)
      case _ => None
  }

  /** Parses a hexadecimal number; a leading plus sign is allowed, an empty number is not. */
  function ParseHex(s: string): Option<nat>
  {
    var digits := if s != [] && s[0] == '+' then s[1..] else s;
    if digits == [] then None else ParseDigits(digits)
  }

  /** The character of a scalar value; anything else becomes U+FFFD. */
  function Decoded(code: Option<nat>): char
  {
    if code.Some? && (code.value < 0xD800 || 0xE000 <= code.value < 0x11_0000) then code.value as char
    else REPLACEMENT_CHAR
  }

  /** How many characters one escape takes at most, and what it stands for. */
  function UnescapeOne(s: string): (r: (char, nat))
    requires |s| >= 2 && s[0] == '\\'
    ensures 2 <= r.1 <= |s|
  {
    if s[1] == 'n' then ('\n', 2)
    else if s[1] == 'r' then ('\r', 2)
    else if s[1] == 't' then ('\t', 2)
    else if s[1] == 'u' then
      var end := if |s| < 6 then |s| else 6;
      (Decoded(ParseHex(s[2..end])), end)
    else (s[1], 2)
  }

  /** Resolves the escapes of a string's contents; a lone final backslash is dropped. */
  function Unescape(s: string): string
    decreases |s|
  {
    if s == [] then []
    else if s[0] != '\\' then [s[0]] + Unescape(s[1..])
    else if |s| == 1 then []
    else [UnescapeOne(s).0] + Unescape(s[UnescapeOne(s).1..])
  }

  lemma UnescapeAt(value: string, at: nat)
    requires at < |value|
    ensures value[at] != '\\' ==> Unescape(value[at..]) == [value[at]] + Unescape(value[at + 1..])
    ensures value[at] == '\\' && at + 1 == |value| ==> Unescape(value[at..]) == []
    ensures value[at] == '\\' && at + 1 < |value| ==>
              var (ch, n) := UnescapeOne(value[at..]);
              Unescape(value[at..]) == [ch] + Unescape(value[at + n..])
  {
    var s := value[at..];
    assert s[1..] == value[at + 1..];
    if value[at] == '\\' && at + 1 < |value| {
      assert s[UnescapeOne(s).1..] == value[at + UnescapeOne(s).1..];
    }
  }

  /** The same with a cursor over the characters. */
  method UnescapeJsonString(value: string) returns (out: string)
    ensures out == Unescape(value)
  {
    out := [];
    var at := 0;
    assert value[0..] == value;
    while at < |value|
      invariant at <= |value| && out + Unescape(value[at..]) == Unescape(value)
    {
      UnescapeAt(value, at);
      var c := value[at];
      if c != '\\' {
        Associate(out, [c], Unescape(value[at + 1..]));
        out := out + [c];
        at := at + 1;
      } else if at + 1 == |value| {
        return;
      } else {
        var (ch, n) := UnescapeOne(value[at..]);
        Associate(out, [ch], Unescape(value[at + n..]));
        out := out + [ch];
        at := at + n;
      }
    }
    assert value[at..] == [];
  }

  /** Unescaping undoes the escape of one character, whatever follows. */
  lemma UnescapeAfterChar(c: char, rest: string)
    ensures Unescape(EscapeChar(c) + rest) == [c] + Unescape(rest)
  {
    var e := EscapeChar(c);
    assert (e + rest)[|e|..] == rest;
    if |e| > 1 {
      UnescapeOneUndoes(c, rest);
    }
  }

  lemma UnescapeOneUndoes(c: char, rest: string)
    requires |EscapeChar(c)| > 1
    ensures UnescapeOne(EscapeChar(c) + rest) == (c, |EscapeChar(c)|)
  {
    var e := EscapeChar(c);
    if |e| == 6 {
      ControlCodeParses(c);
      assert (e + rest)[2..6] == e[2..6] == ['0', '0', LowerHex(c as int / 16), LowerHex(c as int % 16)];
    }
  }

  lemma ParseMore(s: string, c: char)
    ensures ParseDigits(s + [c])
         == if ParseDigits(s).Some? && HexValue(c).Some? then Some(ParseDigits(s).value * 16 + HexValue(c).value) else None
  {
    assert (s + [c])[..|s|] == s;
  }

  lemma ControlCodeParses(c: char)
    requires c as int < 0x20
    ensures ParseHex(['0', '0', LowerHex(c as int / 16), LowerHex(c as int % 16)]) == Some(c as int)
  {
    var (h, l) := (LowerHex(c as int / 16), LowerHex(c as int % 16));
    ParseMore([], '0');
    ParseMore(['0'], '0');
    ParseMore(['0', '0'], h);
    ParseMore(['0', '0', h], l);
    assert [] + ['0'] == ['0'] && ['0'] + ['0'] == ['0', '0'];
    assert ['0', '0'] + [h] == ['0', '0', h] && ['0', '0', h] + [l] == ['0', '0', h, l];
  }

  /** Escaping and then unescaping is the identity on every string. */
  lemma {:induction false} EscapeRoundTrip(text: string)
    ensures Unescape(Escape(text)) == text
    decreases |text|
  {
    if text != [] {
      UnescapeAfterChar(text[0], Escape(text[1..]));
      EscapeRoundTrip(text[1..]);
    }
  }

  /** What escaping yields is a well-formed string body. */
  lemma {:induction false} EscapedIsBody(text: string)
    ensures IsStringBody(Escape(text))
    decreases |text|
  {
    if text != [] {
      var (e, rest) := (EscapeChar(text[0]), Escape(text[1..]));
      EscapedIsBody(text[1..]);
      assert (e + rest)[|e|..] == rest;
    }
  }

  /** The scanner stops exactly behind the closing quote of an escaped string. */
  lemma ScannerSkipsEscaped(text: string, rest: string)
    ensures ValueEnd(Quoted(Escape(text)) + rest, 0) == Some(|Quoted(Escape(text))|)
  {
    EscapedIsBody(text);
    var v := Str(Escape(text));
    ValueEndIsExact([], [], v, rest);
    assert [] + [] + Print(v) + rest == Print(v) + rest;
  }

  /** The length of the escape at the front of a well-formed body. */
  function EscapeLength(body: string): (n: nat)
    requires IsStringBody(body) && body != [] && body[0] == '\\'
    ensures n <= |body| && IsStringBody(body[n..])
  {
    if body[1] == 'u' then 6 else 2
  }

  function HexDigit(c: char): (d: nat)
    requires IsHex(c)
    ensures d < 16 && HexValue(c) == Some(d)
  {
    HexValue(c).value
  }

  function HexCode(s: string): (code: nat)
    requires |s| == 4 && IsHex(s[0]) && IsHex(s[1]) && IsHex(s[2]) && IsHex(s[3])
    ensures code < 0x1_0000
  {
    ((HexDigit(s[0]) * 16 + HexDigit(s[1])) * 16 + HexDigit(s[2])) * 16 + HexDigit(s[3])
  }

  predicate IsHigh(code: nat)
  {
    0xD800 <= code < 0xDC00
  }

  predicate IsLow(code: nat)
  {
    0xDC00 <= code < 0xE000
  }

  /** The body begins with two escapes that together denote one character above U+FFFF. */
  predicate BeginsWithPair(body: string)
    requires IsStringBody(body)
    ensures BeginsWithPair(body) ==> |body| >= 12 && IsStringBody(body[6..]) && IsStringBody(body[12..])
  {
    && |body| >= 12 && body[0] == '\\' && body[1] == 'u' && IsHigh(HexCode(body[2..6]))
    && assert IsStringBody(body[6..]); body[6] == '\\' && body[7] == 'u'
    && assert body[6..][2..6] == body[8..12] && body[6..][6..] == body[12..]; IsLow(HexCode(body[8..12]))
  }

  /** Every escaped surrogate is one half of a pair; for others RFC 8259, section 8.2, gives no meaning. */
  predicate WellPaired(body: string)
    requires IsStringBody(body)
    decreases |body|
  {
    body == [] ||
    if BeginsWithPair(body) then WellPaired(body[12..])
    else if body[0] == '\\' then
      (body[1] == 'u' ==> var code := HexCode(body[2..6]); !IsHigh(code) && !IsLow(code))
      && WellPaired(body[EscapeLength(body)..])
    else WellPaired(body[1..])
  }

  /** How many characters the body spells by surrogate pairs. */
  function Pairs(body: string): nat
    requires IsStringBody(body)
    decreases |body|
  {
    if body == [] then 0
    else if BeginsWithPair(body) then 1 + Pairs(body[12..])
    else if body[0] == '\\' then Pairs(body[EscapeLength(body)..])
    else Pairs(body[1..])
  }

  /** The character a pair denotes. */
  function PairMeaning(high: nat, low: nat): char
    requires IsHigh(high) && IsLow(low)
  {
    (0x1_0000 + (high - 0xD800) * 0x400 + (low - 0xDC00)) as char
  }

  /** The character an escape denotes by RFC 8259, section 7. */
  function StandardEscape(body: string): char
    requires IsStringBody(body) && body != [] && body[0] == '\\'
    requires body[1] == 'u' ==> var code := HexCode(body[2..6]); !IsHigh(code) && !IsLow(code)
  {
    match body[1]
    case 'b' => '\U{0008}'
    case 'f' => '\U{000C}'
    case 'n' => '\n'
    case 'r' => '\r'
    case 't' => '\t'
    case 'u' => HexCode(body[2..6]) as char
    case c => c
  }

  /** What a string body denotes. */
  function StandardMeaning(body: string): string
    requires IsStringBody(body) && WellPaired(body)
    decreases |body|
  {
    if body == [] then []
    else if BeginsWithPair(body) then [PairMeaning(HexCode(body[2..6]), HexCode(body[8..12]))] + StandardMeaning(body[12..])
    else if body[0] == '\\' then [StandardEscape(body)] + StandardMeaning(body[EscapeLength(body)..])
    else [body[0]] + StandardMeaning(body[1..])
  }

  /** The body uses the escape of backspace or form feed. */
  predicate UsesShortControl(body: string)
    requires IsStringBody(body)
    decreases |body|
  {
    body != [] &&
    if body[0] == '\\' then body[1] == 'b' || body[1] == 'f' || UsesShortControl(body[EscapeLength(body)..])
    else UsesShortControl(body[1..])
  }

  lemma FourDigitsParse(a: char, b: char, c: char, d: char)
    requires IsHex(a) && IsHex(b) && IsHex(c) && IsHex(d)
    ensures ParseHex([a, b, c, d]) == Some(HexCode([a, b, c, d]))
  {
    ParseMore([], a);
    ParseMore([a], b);
    ParseMore([a, b], c);
    ParseMore([a, b, c], d);
    assert [] + [a] == [a] && [a] + [b] == [a, b] && [a, b] + [c] == [a, b, c] && [a, b, c] + [d] == [a, b, c, d];
  }

  lemma EscapeAgreesIff(body: string)
    requires IsStringBody(body) && WellPaired(body) && body != [] && body[0] == '\\' && !BeginsWithPair(body)
    ensures UnescapeOne(body).1 == EscapeLength(body)
    ensures UnescapeOne(body).0 == StandardEscape(body) <==> body[1] != 'b' && body[1] != 'f'
  {
    if body[1] == 'u' {
      FourDigitsParse(body[2], body[3], body[4], body[5]);
      assert body[2..6] == [body[2], body[3], body[4], body[5]];
    }
  }

  /** Either half of a pair comes out as U+FFFD. */
  lemma HalfIsReplaced(body: string)
    requires IsStringBody(body) && |body| >= 6 && body[0] == '\\' && body[1] == 'u'
    requires IsHigh(HexCode(body[2..6])) || IsLow(HexCode(body[2..6]))
    ensures Unescape(body) == [REPLACEMENT_CHAR] + Unescape(body[6..])
  {
    FourDigitsParse(body[2], body[3], body[4], body[5]);
    assert body[2..6] == [body[2], body[3], body[4], body[5]];
  }

  lemma PairIsSplit(body: string)
    requires IsStringBody(body) && BeginsWithPair(body)
    ensures Unescape(body) == [REPLACEMENT_CHAR, REPLACEMENT_CHAR] + Unescape(body[12..])
  {
    HalfIsReplaced(body);
    assert body[6..][2..6] == body[8..12] && body[6..][6..] == body[12..];
    HalfIsReplaced(body[6..]);
  }

  /**
   The escapes of backspace and form feed are resolved to the letters themselves, and a surrogate
   pair to two replacement characters. A string comes out as the standard says exactly if it uses
   none of them.
   */
  lemma {:induction false} UnescapeIsStandardIff(body: string)
    requires IsStringBody(body) && WellPaired(body)
    ensures Unescape(body) == StandardMeaning(body) <==> Pairs(body) == 0 && !UsesShortControl(body)
    ensures |Unescape(body)| == |StandardMeaning(body)| + Pairs(body)
    decreases |body|
  {
    if body != [] {
      if BeginsWithPair(body) {
        PairIsSplit(body);
        UnescapeIsStandardIff(body[12..]);
      } else if body[0] == '\\' {
        EscapeAgreesIff(body);
        var n := EscapeLength(body);
        UnescapeIsStandardIff(body[n..]);
        SameHeadAndTail(UnescapeOne(body).0, Unescape(body[n..]), StandardEscape(body), StandardMeaning(body[n..]));
      } else {
        UnescapeIsStandardIff(body[1..]);
        SameHeadAndTail(body[0], Unescape(body[1..]), body[0], StandardMeaning(body[1..]));
      }
    }
  }

  /** Sixteen digits, the last six in either case, and no others. */
  lemma HexDigitsInOrder(c: char, i: nat)
    requires i < 16
    ensures HexValue("0123456789abcdef"[i]) == HexValue("0123456789ABCDEF"[i]) == Some(i)
    ensures !('0' <= c <= '9') && !('a' <= c <= 'f') && !('A' <= c <= 'F') ==> HexValue(c) == None
  {
  }

  /** An escaped control character is no half of a pair. */
  lemma NoPairInFront(c: char, rest: string)
    requires IsStringBody(rest) && IsStringBody(EscapeChar(c) + rest)
    ensures !BeginsWithPair(EscapeChar(c) + rest)
    ensures
      var body := EscapeChar(c) + rest;
      body[0] == '\\' ==>
        && EscapeLength(body) == |EscapeChar(c)| && body[1] != 'b' && body[1] != 'f'
        && (body[1] == 'u' ==> HexCode(body[2..6]) < 0x20)
  {
    var body := EscapeChar(c) + rest;
    assert forall k :: 0 <= k < |EscapeChar(c)| ==> body[k] == EscapeChar(c)[k];
    if |EscapeChar(c)| == 6 {
      var (h, l) := (LowerHex(c as int / 16), LowerHex(c as int % 16));
      assert body[2..6] == ['0', '0', h, l];
      assert c as int / 16 < 2;
    }
  }

  /** Escaping uses no pair and neither of the escapes that are misread. */
  lemma {:induction false} EscapeIsPlain(text: string)
    ensures IsStringBody(Escape(text)) && WellPaired(Escape(text))
    ensures Pairs(Escape(text)) == 0 && !UsesShortControl(Escape(text))
    decreases |text|
  {
    if text != [] {
      EscapedIsBody(text);
      EscapeIsPlain(text[1..]);
      NoPairInFront(text[0], Escape(text[1..]));
      var (e, rest) := (EscapeChar(text[0]), Escape(text[1..]));
      assert (e + rest)[|e|..] == rest && (e + rest)[0] == e[0];
    }
  }

  /** What escaping yields denotes the text by the standard, too. */
  lemma StandardUndoesEscape(text: string)
    ensures IsStringBody(Escape(text)) && WellPaired(Escape(text)) && StandardMeaning(Escape(text)) == text
  {
    EscapeIsPlain(text);
    UnescapeIsStandardIff(Escape(text));
    EscapeRoundTrip(text);
  }

  lemma SameHeadAndTail(a: char, s: string, b: char, t: string)
    ensures [a] + s == [b] + t <==> a == b && s == t
  {
    if [a] + s == [b] + t {
      assert ([a] + s)[0] == ([b] + t)[0] && ([a] + s)[1..] == s && ([b] + t)[1..] == t;
    }
  }

  /** The shortest string that is resolved wrongly. */
  lemma BackspaceIsMisread()
    ensures IsStringBody("\\b") && WellPaired("\\b")
    ensures Unescape("\\b") == "b" && StandardMeaning("\\b") == "\U{0008}"
  {
    var body := "\\b";
    assert body[2..] == "" && IsStringBody(body[2..]);
    assert EscapeLength(body) == 2;
  }

  /** An escaped emoji comes out as two replacement characters. */
  lemma EmojiIsMisread()
    ensures IsStringBody("\\ud83d\\ude00") && WellPaired("\\ud83d\\ude00")
    ensures Unescape("\\ud83d\\ude00") == [REPLACEMENT_CHAR, REPLACEMENT_CHAR]
    ensures StandardMeaning("\\ud83d\\ude00") == "\U{1F600}"
  {
    var body := "\\ud83d\\ude00";
    assert body[6..] == "\\ude00" && body[12..] == "" && IsStringBody(body[12..]);
    assert body[6..][6..] == "" && IsStringBody(body[6..]);
    assert body[2..6] == "d83d" && body[8..12] == "de00";
    assert HexCode("d83d") == 0xD83D && HexCode("de00") == 0xDE00;
    PairIsSplit(body);
  }
}
