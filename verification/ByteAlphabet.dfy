/**
 The reversible alphabet of byte-level BPE: every byte has a printable character of its own, so
 that arbitrary bytes can pass through a vocabulary of strings.
 */
module ByteAlphabet {
  import opened Utf8

  /** Bytes that stand for themselves. */
  predicate IsPrintable(b: int)
  {
    0x21 <= b <= 0x7E || 0xA1 <= b <= 0xAC || 0xAE <= b <= 0xFF
  }

  /**
   The code point that stands for a byte. Control characters and the space move to U+0100 and on,
   followed by 0x7F to 0xA0 and the soft hyphen; every other byte keeps its own.
   */
  function CodePoint(b: int): (c: int)
    requires 0 <= b < 256
    ensures 0 <= c < 512
  {
    if b <= 0x20 then 0x100 + b
    else if 0x7F <= b <= 0xA0 then 0x121 + (b - 0x7F)
    else if b == 0xAD then 0x143
    else b
  }

  /** How many bytes below `b` have moved. */
  function Moved(b: int): int
    requires 0 <= b <= 256
  {
    if b <= 0x21 then b else if b <= 0x7F then 33 else if b <= 0xA1 then b - 0x5E else if b <= 0xAD then 67 else 68
  }

  /** Both tables are total, and each undoes the other. */
  ghost predicate Inverse(enc: seq<char>, dec: map<char, Byte>)
  {
    && |enc| == 256
    && (forall b :: 0 <= b < 256 ==> enc[b] in dec && dec[enc[b]] == b)
    && (forall c :: c in dec ==> enc[dec[c]] == c)
  }

  /** The listing that the tables are filled from: bytes and the code points they map to. */
  ghost predicate Listed(bs: seq<int>, cs: seq<int>, b: int, n: int)
  {
    && |bs| == |cs|
    && (forall i :: 0 <= i < |bs| ==> 0 <= bs[i] < 256 && 0 <= cs[i] < 256 + n)
    && (forall i :: 0 <= i < |bs| ==> cs[i] == CodePoint(bs[i]) && (IsPrintable(bs[i]) || bs[i] < b))
    && (forall i, j :: 0 <= i < j < |bs| ==> bs[i] != bs[j] && cs[i] != cs[j])
    && (forall x :: 0 <= x < 256 && (IsPrintable(x) || x < b) ==> x in bs)
  }

  function Range(lo: int, hi: int): (r: seq<int>)
    requires lo <= hi
    ensures |r| == hi - lo && forall i :: 0 <= i < |r| ==> r[i] == lo + i
  {
    seq(hi - lo, i => lo + i)
  }

  function PrintableBytes(): (bs: seq<int>)
    ensures Listed(bs, bs, 0, 0)
  {
    var bs := Range(0x21, 0x7F) + Range(0xA1, 0xAD) + Range(0xAE, 0x100);
    assert forall i :: 0 <= i < |bs| ==> bs[i] == if i < 94 then 0x21 + i else if i < 106 then 0xA1 + i - 94 else 0xAE + i - 106;
    assert forall x :: 0 <= x < 256 && IsPrintable(x) ==>
             x == bs[if x <= 0x7E then x - 0x21 else if x <= 0xAC then x - 0xA1 + 94 else x - 0xAE + 106];
    bs
  }

  lemma ListNext(bs: seq<int>, cs: seq<int>, b: nat, n: nat)
    requires Listed(bs, cs, b, n) && b < 256 && b !in bs && n == Moved(b)
    ensures Listed(bs + [b], cs + [256 + n], b + 1, n + 1)
  {
    forall x | 0 <= x < 256 && (IsPrintable(x) || x < b + 1)
      ensures x in bs + [b]
    {
      assert x == b || x in bs;
    }
  }

  /** Lists the printable bytes as themselves, then the others as code points from 256 on. */
  method ListBytes() returns (bs: seq<int>, cs: seq<int>)
    ensures Listed(bs, cs, 256, 256)
  {
    bs := PrintableBytes();
    cs := bs;
    var n := 0;
    for b := 0 to 256
      invariant n == Moved(b) && Listed(bs, cs, b, n)
    {
      if b !in bs {
        ListNext(bs, cs, b, n);
        bs, cs := bs + [b], cs + [256 + n];
        n := n + 1;
      }
    }
  }

  /** The two tables agree on the first `done` listed bytes. */
  ghost predicate Filled(table: seq<char>, dec: map<char, Byte>, bs: seq<int>, cs: seq<int>, done: nat)
    requires |table| == 256 && Listed(bs, cs, 256, 256) && done <= |bs|
  {
    && (forall j :: 0 <= j < done ==> FilledAt(table, dec, bs[j], cs[j]))
    && (forall c :: c in dec ==> dec[c] in bs[..done] && table[dec[c]] == c)
  }

  ghost predicate FilledAt(table: seq<char>, dec: map<char, Byte>, b: int, c: int)
    requires |table| == 256 && 0 <= b < 256 && 0 <= c < 512
  {
    table[b] == c as char && c as char in dec && dec[c as char] == b
  }

  /** A character listed only now has not stood for another byte so far. */
  lemma NewCharacter(table: seq<char>, dec: map<char, Byte>, bs: seq<int>, cs: seq<int>, done: nat)
    requires |table| == 256 && Listed(bs, cs, 256, 256) && done < |bs| && Filled(table, dec, bs, cs, done)
    ensures cs[done] as char !in dec && bs[done] !in bs[..done]
  {
    forall c | c in dec
      ensures c != cs[done] as char
    {
      var j :| 0 <= j < done && bs[j] == dec[c];
      assert FilledAt(table, dec, bs[j], cs[j]);
    }
  }

  lemma FillNext(table: seq<char>, dec: map<char, Byte>, bs: seq<int>, cs: seq<int>, done: nat)
    requires |table| == 256 && Listed(bs, cs, 256, 256) && done < |bs| && Filled(table, dec, bs, cs, done)
    ensures Filled(table[bs[done] := cs[done] as char], dec[cs[done] as char := bs[done]], bs, cs, done + 1)
  {
    NewCharacter(table, dec, bs, cs, done);
    var (b, c) := (bs[done], cs[done] as char);
    var table', dec' := table[b := c], dec[c := b];
    forall j | 0 <= j < done + 1
      ensures FilledAt(table', dec', bs[j], cs[j])
    {
      if j < done {
        assert FilledAt(table, dec, bs[j], cs[j]) && bs[..done][j] == bs[j];
      }
    }
    assert bs[..done + 1] == bs[..done] + [b];
    forall x | x in dec'
      ensures dec'[x] in bs[..done + 1] && table'[dec'[x]] == x
    {
      assert x != c ==> dec'[x] == dec[x] && dec[x] in bs[..done];
    }
  }

  /** Builds the reversible byte tables. */
  method BuildByteMaps() returns (enc: seq<char>, dec: map<char, Byte>)
    ensures Inverse(enc, dec) && forall b :: 0 <= b < 256 ==> enc[b] as int == CodePoint(b)
  {
    var bs, cs := ListBytes();
    var table := new char[256](_ => '\0');
    dec := map[];
    for i := 0 to |bs|
      invariant Filled(table[..], dec, bs, cs, i)
    {
      FillNext(table[..], dec, bs, cs, i);
      ghost var before := table[..];
      table[bs[i]] := cs[i] as char;
      assert table[..] == before[bs[i] := cs[i] as char];
      dec := dec[cs[i] as char := bs[i]];
    }
    enc := table[..];
    forall b | 0 <= b < 256
      ensures enc[b] in dec && dec[enc[b]] == b && enc[b] as int == CodePoint(b)
    {
      assert b in bs;
      ghost var j :| 0 <= j < |bs| && bs[j] == b;
      assert FilledAt(enc, dec, bs[j], cs[j]);
    }
  }

  /** The characters that the space, the line feed, the letter A, delete and the soft hyphen become. */
  lemma WellKnownCharacters()
    ensures CodePoint(0x20) == 0x120 && CodePoint(0x0A) == 0x10A && CodePoint(0x41) == 0x41
    ensures CodePoint(0x7F) == 0x121 && CodePoint(0xAD) == 0x143
  {
  }
}
