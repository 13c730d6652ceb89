/**
 What the text functions mean, said without them: the alphabet, the whitespace, the digits, and
 the well-formed byte sequences (Unicode Standard, section 3.9).
 */
module TextLaws {
  import opened Bits
  import opened Text

  // ---------------------------------------------------------------- case

  lemma LowerAlphabet()
    ensures Lower("ABCDEFGHIJKLMNOPQRSTUVWXYZ") == "abcdefghijklmnopqrstuvwxyz"
  {
  }

  // Only the letters A to Z change, and none of them is left.
  lemma LowerKeepsOthers(s: string)
    ensures forall i :: 0 <= i < |s| ==>
              && !('A' <= Lower(s)[i] <= 'Z')
              && (!('A' <= s[i] <= 'Z') ==> Lower(s)[i] == s[i])
  {
  }

  // The same character, or the same letter from A to Z in either case.
  predicate SameLetter(c: char, d: char) {
    || c == d
    || ('A' <= c <= 'Z' && d as int == c as int - 'A' as int + 'a' as int)
    || ('A' <= d <= 'Z' && c as int == d as int - 'A' as int + 'a' as int)
  }

  predicate SameUpToCase(s: string, t: string) {
    |s| == |t| && forall i :: 0 <= i < |s| ==> SameLetter(s[i], t[i])
  }

  lemma LowerForgetsCase(s: string, t: string)
    ensures SameUpToCase(s, t) <==> Lower(s) == Lower(t)
  {
    if Lower(s) == Lower(t) {
      assert |Lower(s)| == |Lower(t)|;
      forall i | 0 <= i < |s| ensures SameLetter(s[i], t[i]) {
        assert Lower(s)[i] == Lower(t)[i];
      }
    }
  }

  // ---------------------------------------------------------------- whitespace

  // The 25 code points with the property White_Space.
  lemma WhitespaceMeaning(c: char)
    ensures IsWhitespace(c) <==>
              c as int in {0x9, 0xA, 0xB, 0xC, 0xD, 0x20, 0x85, 0xA0, 0x1680, 0x2000, 0x2001, 0x2002, 0x2003, 0x2004,
                           0x2005, 0x2006, 0x2007, 0x2008, 0x2009, 0x200A, 0x2028, 0x2029, 0x202F, 0x205F, 0x3000}
  {
  }

  // The 65 control codes: C0, delete and C1.
  lemma ControlMeaning(c: char)
    ensures IsControl(c) <==> c as int / 32 == 0 || c as int == 127 || c as int / 32 == 4
  {
  }

  predicate Blank(s: string) {
    forall i :: 0 <= i < |s| ==> IsWhitespace(s[i])
  }

  predicate Bare(s: string) {
    s == "" || (!IsWhitespace(s[0]) && !IsWhitespace(s[|s| - 1]))
  }

  lemma {:induction false} SkipBlankStart(a: string, s: string)
    requires Blank(a)
    ensures TrimStart(a + s) == TrimStart(s)
  {
    hide IsWhitespace;
    if a == "" {
      assert a + s == s;
    } else {
      assert (a + s)[1..] == a[1..] + s;
      SkipBlankStart(a[1..], s);
    }
  }

  lemma {:induction false} SkipBlankEnd(s: string, b: string)
    requires Blank(b)
    ensures TrimEnd(s + b) == TrimEnd(s)
  {
    hide IsWhitespace;
    if b == "" {
      assert s + b == s;
    } else {
      assert (s + b)[..|s + b| - 1] == s + b[..|b| - 1];
      SkipBlankEnd(s, b[..|b| - 1]);
    }
  }

  lemma FirstKept(m: string, b: string)
    requires Blank(b) && Bare(m) && (m == "" ==> b == "")
    ensures TrimStart(m + b) == m + b && TrimEnd(m) == m
  {
    hide TrimStart, TrimEnd, IsWhitespace;
    if m != "" {
      assert (m + b)[0] == m[0];
    }
  }

  // Trimming removes exactly the whitespace at both ends.
  lemma TrimMeaning(a: string, m: string, b: string)
    requires Blank(a) && Blank(b) && Bare(m) && (m == "" ==> b == "")
    ensures Trim(a + m + b) == m
  {
    hide TrimStart, TrimEnd, IsWhitespace, Blank, Bare;
    assert a + m + b == a + (m + b);
    SkipBlankStart(a, m + b);
    FirstKept(m, b);
    SkipBlankEnd(m, b);
  }

  lemma ThreeParts(s: string, t: string, u: string)
    requires |u| <= |t| <= |s| && s[|s| - |t|..] == t && u <= t
    ensures s == s[..|s| - |t|] + u + t[|u|..]
  {
    assert s == s[..|s| - |t|] + t && t == u + t[|u|..];
    assert s[..|s| - |t|] + (u + t[|u|..]) == s[..|s| - |t|] + u + t[|u|..];
  }

  // And every string splits that way.
  lemma TrimSplits(s: string) returns (a: string, b: string)
    ensures s == a + Trim(s) + b && Blank(a) && Blank(b) && Bare(Trim(s)) && (Trim(s) == "" ==> b == "")
  {
    hide TrimStart, TrimEnd, IsWhitespace;
    var t := TrimStart(s);
    var u := TrimEnd(t);
    a, b := s[..|s| - |t|], t[|u|..];
    ThreeParts(s, t, u);
    assert u != "" ==> u[0] == t[0];
  }

  lemma LowerSplit(a: string, m: string, b: string)
    ensures Lower(a + m + b) == Lower(a) + Lower(m) + Lower(b)
    ensures |Lower(a)| == |a| && |Lower(b)| == |b| && |Lower(m)| == |m|
  {
  }

  lemma LowerKeepsBlank(s: string)
    requires Blank(s)
    ensures Blank(Lower(s))
  {
    forall c | c in Lower(s) ensures IsWhitespace(c) {
      var i :| 0 <= i < |s| && Lower(s)[i] == c;
      assert s[i] in s;
    }
  }

  lemma LowerKeepsBare(s: string)
    requires Bare(s)
    ensures Bare(Lower(s))
  {
  }

  // Trimming and lowercasing can change places.
  lemma TrimLower(s: string)
    ensures Lower(Trim(s)) == Trim(Lower(s))
  {
    hide Trim, Lower;
    var a, b := TrimSplits(s);
    var m := Trim(s);
    LowerSplit(a, m, b);
    LowerKeepsBlank(a);
    LowerKeepsBlank(b);
    LowerKeepsBare(m);
    TrimMeaning(Lower(a), Lower(m), Lower(b));
  }

  // ---------------------------------------------------------------- prefixes and hex

  function Prefixes(n: nat): string {
    if n == 0 then "" else "0x" + Prefixes(n - 1)
  }

  // Every leading 0x is removed and nothing else.
  lemma {:induction false} StripMeaning(n: nat, t: string)
    requires !("0x" <= t)
    ensures Strip0x(Prefixes(n) + t) == t
  {
    if n > 0 {
      assert (Prefixes(n) + t)[2..] == Prefixes(n - 1) + t;
      StripMeaning(n - 1, t);
    } else {
      assert Prefixes(0) + t == t;
    }
  }

  predicate IsAnyHexDigit(c: char) {
    '0' <= c <= '9' || 'a' <= c <= 'f' || 'A' <= c <= 'F'
  }

  predicate HexText(s: string) {
    |s| % 2 == 0 && forall i :: 0 <= i < |s| ==> IsAnyHexDigit(s[i])
  }

  lemma HexByteMeaning(c: char, d: char)
    ensures HexByte(c, d).Some? <==> IsAnyHexDigit(c) && IsAnyHexDigit(d)
  {
  }

  // Text decodes exactly when it is an even number of hex digits.
  lemma {:induction false} HexDecodeMeaning(s: string)
    ensures HexDecode(s).Some? <==> HexText(s)
  {
    hide HexByte, IsAnyHexDigit;
    if |s| >= 2 {
      HexDecodeMeaning(s[2..]);
      HexByteMeaning(s[0], s[1]);
      assert HexText(s) ==> HexText(s[2..]);
      assert HexText(s[2..]) && IsAnyHexDigit(s[0]) && IsAnyHexDigit(s[1]) ==> HexText(s) by {
        assert forall i :: 2 <= i < |s| ==> s[i] == s[2..][i - 2];
      }
    }
  }

  lemma DigitAnyCase(c: char)
    ensures IsAnyHexDigit(LowerChar(c)) <==> IsAnyHexDigit(c)
  {
  }

  lemma HexTextAnyCase(s: string)
    ensures HexText(Lower(s)) <==> HexText(s)
  {
    hide IsAnyHexDigit, LowerChar;
    forall i | 0 <= i < |s| ensures IsAnyHexDigit(LowerChar(s[i])) <==> IsAnyHexDigit(s[i]) {
      DigitAnyCase(s[i]);
    }
    assert forall i :: 0 <= i < |s| ==> (IsAnyHexDigit(Lower(s)[i]) <==> IsAnyHexDigit(s[i]));
  }

  lemma HexDigitMeaning(n: nat)
    requires n < 16
    ensures HexDigit(n) == "0123456789abcdef"[n]
  {
  }

  // Each byte is printed as its two digits, the high one first.
  lemma {:induction false} HexAt(b: seq<byte>, i: nat)
    requires i < |b|
    ensures HexEncode(b)[2 * i] == "0123456789abcdef"[b[i] / 16]
    ensures HexEncode(b)[2 * i + 1] == "0123456789abcdef"[b[i] % 16]
  {
    if i == 0 {
      HexDigitMeaning(b[0] / 16);
      HexDigitMeaning(b[0] % 16);
    } else {
      HexAt(b[1..], i - 1);
    }
  }

  // ---------------------------------------------------------------- UTF-8

  lemma {:induction false} Utf8Ascii(s: string)
    requires forall i :: 0 <= i < |s| ==> s[i] < '\U{0080}'
    ensures |Utf8(s)| == |s| && forall i :: 0 <= i < |s| ==> Utf8(s)[i] == s[i] as int
  {
    if s != "" {
      Utf8Ascii(s[1..]);
      assert EncodeChar(s[0]) == [s[0] as int];
    }
  }

  // One character of each length.
  lemma Utf8Samples()
    ensures EncodeChar('\U{00E9}') == [0xC3, 0xA9]
    ensures EncodeChar('\U{20AC}') == [0xE2, 0x82, 0xAC]
    ensures EncodeChar('\U{10348}') == [0xF0, 0x90, 0x8D, 0x88]
  {
  }

  // Some character's bytes begin with these.
  ghost predicate StartsChar(p: seq<byte>) {
    exists c: char :: p <= EncodeChar(c)
  }

  lemma FourParts(a: int, b: int, c: int, d: int)
    requires 0 <= b < 64 && 0 <= c < 64 && 0 <= d < 64
    ensures var n := a * 262144 + b * 4096 + c * 64 + d;
            n / 262144 == a && n / 4096 == a * 64 + b && n / 4096 % 64 == b && n / 64 % 64 == c && n % 64 == d
  {
    var n := a * 262144 + b * 4096 + c * 64 + d;
    DivMod(n, a, 262144, b * 4096 + c * 64 + d);
    DivMod(n, a * 64 + b, 4096, c * 64 + d);
    DivMod(a * 64 + b, a, 64, b);
    DivMod(n, a * 4096 + b * 64 + c, 64, d);
    DivMod(a * 4096 + b * 64 + c, a * 64 + b, 64, c);
  }

  // A complete sequence with bytes in the permitted ranges.
  predicate Whole(s: seq<byte>)
    requires s != []
  {
    var (k, lo, hi) := Lead(s[0]);
    && k >= 1 && |s| >= k
    && (k > 1 ==> lo <= s[1] <= hi)
    && (k > 2 ==> Continues(s, 2))
    && (k > 3 ==> Continues(s, 3))
  }

  lemma WholeFour(s: seq<byte>)
    requires s != [] && Whole(s) && Lead(s[0]).0 == 4
    ensures DecodeHead(s).1 == 4 && s[..4] == EncodeChar(DecodeHead(s).0)
  {
    FourParts(s[0] as int - 0xF0, s[1] as int - 0x80, s[2] as int - 0x80, s[3] as int - 0x80);
    assert s[..4] == [s[0], s[1], s[2], s[3]];
  }

  lemma WholeThree(s: seq<byte>)
    requires s != [] && Whole(s) && Lead(s[0]).0 == 3
    ensures DecodeHead(s).1 == 3 && s[..3] == EncodeChar(DecodeHead(s).0)
  {
    FourParts(0, s[0] as int - 0xE0, s[1] as int - 0x80, s[2] as int - 0x80);
    assert s[..3] == [s[0], s[1], s[2]];
  }

  lemma WholeShort(s: seq<byte>)
    requires s != [] && Whole(s) && Lead(s[0]).0 <= 2
    ensures DecodeHead(s).1 == Lead(s[0]).0 && s[..DecodeHead(s).1] == EncodeChar(DecodeHead(s).0)
  {
    if Lead(s[0]).0 == 2 {
      assert s[..2] == [s[0], s[1]];
    }
  }

  lemma WholeDecodes(s: seq<byte>)
    requires s != [] && Whole(s)
    ensures var (c, n) := DecodeHead(s); n == Lead(s[0]).0 && s[..n] == EncodeChar(c)
  {
    hide Whole, DecodeHead, EncodeChar, Lead;
    if Lead(s[0]).0 == 4 {
      WholeFour(s);
    } else if Lead(s[0]).0 == 3 {
      WholeThree(s);
    } else {
      WholeShort(s);
    }
  }

  lemma OnlyWholeDecode(s: seq<byte>)
    requires s != []
    ensures !Whole(s) ==> DecodeHead(s).0 == '\U{FFFD}'
  {
    hide Scalar;
  }

  // A character is decoded only from its own bytes, and U+FFFD stands for the rest: then no
  // character's bytes begin the input.
  lemma DecodeHeadMeaning(s: seq<byte>)
    requires s != []
    ensures var (c, n) := DecodeHead(s);
            s[..n] == EncodeChar(c) || (c == '\U{FFFD}' && !exists d: char :: EncodeChar(d) <= s)
  {
    var (c, n) := DecodeHead(s);
    if Whole(s) {
      WholeDecodes(s);
    }
    if s[..n] != EncodeChar(c) {
      OnlyWholeDecode(s);
      forall d: char ensures !(EncodeChar(d) <= s) {
        if EncodeChar(d) <= s {
          var k := |EncodeChar(d)|;
          assert s == EncodeChar(d) + s[k..];
          DecodeEncodedChar(d, s[k..]);
        }
      }
    }
  }

  lemma DecodeItself(d: char)
    ensures DecodeHead(EncodeChar(d)) == (d, |EncodeChar(d)|)
  {
    DecodeEncodedChar(d, []);
    assert EncodeChar(d) + [] == EncodeChar(d);
  }

  // Where a sequence breaks is decided by the bytes up to the break.
  lemma BreaksAlike(s: seq<byte>, t: seq<byte>)
    requires s != [] && DecodeHead(s).0 == '\U{FFFD}' && s[..DecodeHead(s).1] != EncodeChar('\U{FFFD}')
    requires DecodeHead(s).1 < |s| && s[..DecodeHead(s).1 + 1] <= t
    ensures DecodeHead(t).1 == DecodeHead(s).1
  {
    hide EncodeChar, Scalar;
    var n := DecodeHead(s).1;
    var (k, lo, hi) := Lead(s[0]);
    assert forall i :: 0 <= i <= n ==> t[i] == s[..n + 1][i] == s[i];
    if Whole(s) {
      WholeDecodes(s);
    }
  }

  lemma BrokenStarts(s: seq<byte>)
    requires s != [] && DecodeHead(s).0 == '\U{FFFD}' && s[..DecodeHead(s).1] != EncodeChar('\U{FFFD}')
    requires DecodeHead(s).1 > 1
    ensures StartsChar(s[..DecodeHead(s).1])
  {
    if Whole(s) {
      WholeDecodes(s);
    }
    var n := DecodeHead(s).1;
    var (k, lo, hi) := Lead(s[0]);
    var b := s[1] as int - 0x80;
    if k == 3 {
      var a := s[0] as int - 0xE0;
      FourParts(0, a, b, 0);
      var d := Scalar(a * 4096 + b * 64);
      assert EncodeChar(d)[..2] == [s[0], s[1]] == s[..2];
    } else {
      var a := s[0] as int - 0xF0;
      var e := if n == 3 then s[2] as int - 0x80 else 0;
      FourParts(a, b, e, 0);
      var d := Scalar(a * 262144 + b * 4096 + e * 64);
      assert s[..2] == [s[0], s[1]];
      if n == 3 {
        assert s[..3] == [s[0], s[1], s[2]];
      }
      assert s[..n] <= EncodeChar(d);
    }
  }

  // A broken sequence is replaced by one U+FFFD for its longest part that some character's bytes
  // begin with, or for one byte if there is none.
  lemma BrokenMeaning(s: seq<byte>)
    requires s != [] && DecodeHead(s).0 == '\U{FFFD}' && s[..DecodeHead(s).1] != EncodeChar('\U{FFFD}')
    ensures var n := DecodeHead(s).1;
            && (n > 1 ==> StartsChar(s[..n]))
            && (n < |s| ==> !StartsChar(s[..n + 1]))
  {
    hide EncodeChar;
    var n := DecodeHead(s).1;
    if n > 1 {
      BrokenStarts(s);
    }
    if n < |s| {
      forall d: char ensures !(s[..n + 1] <= EncodeChar(d)) {
        if s[..n + 1] <= EncodeChar(d) {
          DecodeItself(d);
          BreaksAlike(s, EncodeChar(d));
        }
      }
    }
  }
}
