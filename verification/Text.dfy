/**
 Rust strings as sequences of Unicode scalar values: their UTF-8 bytes, lossy decoding, hex,
 trimming and (ASCII) lowercasing.
 */
module Text {
  import opened Bits
  import opened Wrappers

  // ---------------------------------------------------------------- UTF-8

  function EncodeChar(c: char): (b: seq<byte>)
    ensures 1 <= |b| <= 4
  {
    var n := c as int;
    if n < 0x80 then [n]
    else if n < 0x800 then [0xC0 + n / 64, 0x80 + n % 64]
    else if n < 0x1_0000 then [0xE0 + n / 4096, 0x80 + n / 64 % 64, 0x80 + n % 64]
    else [0xF0 + n / 262144, 0x80 + n / 4096 % 64, 0x80 + n / 64 % 64, 0x80 + n % 64]
  }

  // str::as_bytes
  function Utf8(s: string): seq<byte> {
    if s == [] then [] else EncodeChar(s[0]) + Utf8(s[1..])
  }

  // The permitted range of the second byte after lead byte `b`, and the sequence length.
  function Lead(b: byte): (r: (nat, int, int))
    ensures r.0 <= 4
  {
    if b < 0x80 then (1, 0, 0)
    else if b < 0xC2 then (0, 0, 0)
    else if b < 0xE0 then (2, 0x80, 0xBF)
    else if b == 0xE0 then (3, 0xA0, 0xBF)
    else if b == 0xED then (3, 0x80, 0x9F)
    else if b < 0xF0 then (3, 0x80, 0xBF)
    else if b == 0xF0 then (4, 0x90, 0xBF)
    else if b < 0xF4 then (4, 0x80, 0xBF)
    else if b == 0xF4 then (4, 0x80, 0x8F)
    else (0, 0, 0)
  }

  predicate Continues(s: seq<byte>, k: nat) {
    k < |s| && 0x80 <= s[k] <= 0xBF
  }

  function Scalar(n: int): char {
    if 0 <= n < 0xD800 || 0xE000 <= n < 0x11_0000 then n as char else '\U{FFFD}'
  }

  // One step of String::from_utf8_lossy: a scalar value, or U+FFFD for a maximal broken prefix.
  function DecodeHead(s: seq<byte>): (r: (char, nat))
    requires s != []
    ensures 1 <= r.1 <= |s|
  {
    var (n, lo, hi) := Lead(s[0]);
    var a := s[0] as int;
    if n == 1 then (Scalar(a), 1)
    else if n == 0 || |s| < 2 || !(lo <= s[1] <= hi) then ('\U{FFFD}', 1)
    else
      var b := s[1] as int - 0x80;
      if n == 2 then (Scalar((a - 0xC0) * 64 + b), 2)
      else if !Continues(s, 2) then ('\U{FFFD}', 2)
      else
        var c := s[2] as int - 0x80;
        if n == 3 then (Scalar((a - 0xE0) * 4096 + b * 64 + c), 3)
        else if !Continues(s, 3) then ('\U{FFFD}', 3)
        else (Scalar((a - 0xF0) * 262144 + b * 4096 + c * 64 + (s[3] as int - 0x80)), 4)
  }

  function FromUtf8Lossy(s: seq<byte>): string
    decreases |s|
  {
    if s == [] then "" else
      var (c, n) := DecodeHead(s);
      [c] + FromUtf8Lossy(s[n..])
  }

  lemma DecodeThree(n: int, s: seq<byte>)
    requires 0x800 <= n < 0xD800 || 0xE000 <= n < 0x1_0000
    requires [0xE0 + n / 4096, 0x80 + n / 64 % 64, 0x80 + n % 64] <= s
    ensures DecodeHead(s) == (Scalar(n), 3)
  {
    var (a, b, c) := (n / 4096, n / 64 % 64, n % 64);
    assert n == a * 4096 + b * 64 + c;
    assert s[0] == 0xE0 + a && s[1] == 0x80 + b && s[2] == 0x80 + c;
    var (k, lo, hi) := Lead(s[0]);
    assert k == 3 && lo <= s[1] <= hi;
  }

  lemma FourDigits(n: int)
    requires 0x1_0000 <= n < 0x11_0000
    ensures var (a, b, c, d) := (n / 262144, n / 4096 % 64, n / 64 % 64, n % 64);
            n == a * 262144 + b * 4096 + c * 64 + d && 0 <= a <= 4
  {
  }

  lemma DecodeFourDigits(a: int, b: int, c: int, d: int, s: seq<byte>)
    requires 0 <= a <= 4 && 0 <= b < 64 && 0 <= c < 64 && 0 <= d < 64
    requires 0x1_0000 <= a * 262144 + b * 4096 + c * 64 + d < 0x11_0000
    requires [0xF0 + a, 0x80 + b, 0x80 + c, 0x80 + d] <= s
    ensures DecodeHead(s) == (Scalar(a * 262144 + b * 4096 + c * 64 + d), 4)
  {
    hide Scalar;
    assert s[0] == 0xF0 + a && s[1] == 0x80 + b && s[2] == 0x80 + c && s[3] == 0x80 + d;
    var (k, lo, hi) := Lead(s[0]);
    assert k == 4 && lo <= s[1] <= hi;
  }

  lemma DecodeFour(n: int, s: seq<byte>)
    requires 0x1_0000 <= n < 0x11_0000
    requires [0xF0 + n / 262144, 0x80 + n / 4096 % 64, 0x80 + n / 64 % 64, 0x80 + n % 64] <= s
    ensures DecodeHead(s) == (Scalar(n), 4)
  {
    hide DecodeHead, Scalar;
    FourDigits(n);
    DecodeFourDigits(n / 262144, n / 4096 % 64, n / 64 % 64, n % 64, s);
  }

  lemma DecodeEncodedChar(c: char, rest: seq<byte>)
    ensures DecodeHead(EncodeChar(c) + rest) == (c, |EncodeChar(c)|)
  {
    var n := c as int;
    var s := EncodeChar(c) + rest;
    assert Scalar(n) == c;
    if n < 0x80 {
      assert s[0] == n;
    } else if n < 0x800 {
      assert s[0] == 0xC0 + n / 64 && s[1] == 0x80 + n % 64;
      assert Lead(s[0]) == (2, 0x80, 0xBF);
    } else if n < 0x1_0000 {
      DecodeThree(n, s);
    } else {
      DecodeFour(n, s);
    }
  }

  lemma {:induction false} Utf8RoundTrip(s: string)
    ensures FromUtf8Lossy(Utf8(s)) == s
  {
    if s != [] {
      var b := EncodeChar(s[0]);
      DecodeEncodedChar(s[0], Utf8(s[1..]));
      assert Utf8(s)[|b|..] == Utf8(s[1..]);
      Utf8RoundTrip(s[1..]);
    }
  }

  // ---------------------------------------------------------------- lowercase and trimming

  function LowerChar(c: char): char {
    if 'A' <= c <= 'Z' then (c as int + 32) as char else c
  }

  function Lower(s: string): (t: string)
    ensures |t| == |s|
    ensures forall i :: 0 <= i < |s| ==> t[i] == LowerChar(s[i])
  {
    seq(|s|, i requires 0 <= i < |s| => LowerChar(s[i]))
  }

  // char::is_whitespace, the Unicode White_Space property
  predicate IsWhitespace(c: char) {
    || '\U{0009}' <= c <= '\U{000D}' || c == ' ' || c == '\U{0085}' || c == '\U{00A0}' || c == '\U{1680}'
    || '\U{2000}' <= c <= '\U{200A}' || c == '\U{2028}' || c == '\U{2029}' || c == '\U{202F}'
    || c == '\U{205F}' || c == '\U{3000}'
  }

  // char::is_control, general category Cc
  predicate IsControl(c: char) {
    c < ' ' || '\U{007F}' <= c <= '\U{009F}'
  }

  function TrimStart(s: string): (t: string)
    ensures t != "" ==> !IsWhitespace(t[0])
    ensures (s == "" || !IsWhitespace(s[0])) ==> t == s
    ensures |t| <= |s| && s[|s| - |t|..] == t
    ensures forall i :: 0 <= i < |s| - |t| ==> IsWhitespace(s[i])
  {
    if s != "" && IsWhitespace(s[0]) then TrimStart(s[1..]) else s
  }

  function TrimEnd(s: string): (t: string)
    ensures t != "" ==> !IsWhitespace(t[|t| - 1])
    ensures (s == "" || !IsWhitespace(s[|s| - 1])) ==> t == s
    ensures t <= s
    ensures forall i :: |t| <= i < |s| ==> IsWhitespace(s[i])
  {
    if s != "" && IsWhitespace(s[|s| - 1]) then TrimEnd(s[..|s| - 1]) else s
  }

  function Trim(s: string): string {
    TrimEnd(TrimStart(s))
  }

  // A trimmed string has no whitespace at either end, and trimming such a string changes nothing.
  lemma TrimFixed(s: string)
    ensures Trim(s) == s <==> (s == "" || (!IsWhitespace(s[0]) && !IsWhitespace(s[|s| - 1])))
    ensures Trim(Trim(s)) == Trim(s)
  {
    var t := TrimStart(s);
    var u := TrimEnd(t);
    assert u != "" ==> u[0] == t[0];
    assert |u| <= |t| <= |s|;
  }

  // str::trim_start_matches("0x")
  function Strip0x(s: string): (t: string)
    ensures !("0x" <= t)
    ensures !("0x" <= s) ==> t == s
  {
    if "0x" <= s then Strip0x(s[2..]) else s
  }

  lemma LowerIdempotent(s: string)
    ensures Lower(Lower(s)) == Lower(s)
  {
  }

  // ---------------------------------------------------------------- hex

  function HexDigit(n: nat): char
    requires n < 16
  {
    if n < 10 then ('0' as int + n) as char else ('a' as int + n - 10) as char
  }

  function HexValue(c: char): Option<nat> {
    if '0' <= c <= '9' then Some(c as int - '0' as int)
    else if 'a' <= c <= 'f' then Some(c as int - 'a' as int + 10)
    else if 'A' <= c <= 'F' then Some(c as int - 'A' as int + 10)
    else None
  }

  function HexEncode(b: seq<byte>): (s: string)
    ensures |s| == 2 * |b|
  {
    if b == [] then "" else [HexDigit(b[0] / 16), HexDigit(b[0] % 16)] + HexEncode(b[1..])
  }

  function HexByte(c: char, d: char): (r: Option<byte>)
  {
    match (HexValue(c), HexValue(d))
    case (Some(h), Some(l)) => if h < 16 && l < 16 then Some(16 * h + l) else None
    case _ => None
  }

  function HexDecode(s: string): (r: Option<seq<byte>>)
    ensures r.Some? ==> |s| == 2 * |r.value|
  {
    if s == "" then Some([])
    else if |s| == 1 then None
    else
      match (HexByte(s[0], s[1]), HexDecode(s[2..]))
      case (Some(b), Some(rest)) => Some([b] + rest)
      case _ => None
  }

  lemma {:induction false} HexRoundTrip(b: seq<byte>)
    ensures HexDecode(HexEncode(b)) == Some(b)
  {
    if b != [] {
      var s := HexEncode(b);
      assert s[2..] == HexEncode(b[1..]);
      HexRoundTrip(b[1..]);
      assert HexByte(s[0], s[1]) == Some(b[0]);
      assert b == [b[0]] + b[1..];
    }
  }

  predicate IsHexDigit(c: char) {
    '0' <= c <= '9' || 'a' <= c <= 'f'
  }

  lemma {:induction false} HexDigitsOnly(b: seq<byte>)
    ensures forall i :: 0 <= i < |HexEncode(b)| ==> IsHexDigit(HexEncode(b)[i])
  {
    if b != [] {
      HexDigitsOnly(b[1..]);
    }
  }

  // Printed hex has no prefix to strip.
  lemma HexHasNoPrefix(b: seq<byte>)
    ensures Strip0x(HexEncode(b)) == HexEncode(b)
  {
    HexDigitsOnly(b);
    var s := HexEncode(b);
    assert |s| >= 2 ==> IsHexDigit(s[1]);
    assert "0x"[1] == 'x';
  }

  lemma DigitIgnoresCase(c: char)
    ensures HexValue(LowerChar(c)) == HexValue(c)
  {
  }

  // Decoding does not look at the case of the digits.
  lemma {:induction false} HexIgnoresCase(s: string)
    ensures HexDecode(Lower(s)) == HexDecode(s)
  {
    hide HexValue, LowerChar;
    if |s| >= 2 {
      assert Lower(s)[2..] == Lower(s[2..]);
      HexIgnoresCase(s[2..]);
      DigitIgnoresCase(s[0]);
      DigitIgnoresCase(s[1]);
    }
  }

  lemma CanonicalDigit(c: char)
    ensures HexValue(LowerChar(c)).Some? ==>
              HexValue(LowerChar(c)).value < 16 && HexDigit(HexValue(LowerChar(c)).value) == LowerChar(c)
  {
  }

  // Lowercased hex text is exactly what re-encoding its bytes prints.
  lemma {:induction false} HexCanonical(s: string)
    requires HexDecode(Lower(s)).Some?
    ensures HexEncode(HexDecode(Lower(s)).value) == Lower(s)
  {
    hide HexValue, HexDigit, LowerChar;
    if s != "" {
      var t := Lower(s);
      assert t[2..] == Lower(s[2..]);
      HexCanonical(s[2..]);
      CanonicalDigit(s[0]);
      CanonicalDigit(s[1]);
      assert t == [t[0], t[1]] + t[2..];
    }
  }
}
