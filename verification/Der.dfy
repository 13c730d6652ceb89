/**
 The DER form of a signature: the printer of the minting tool and a strict reader
 (ITU-T X.690, sections 8.3 and 10.1), inverse to each other.
 */
module Der {
  import opened Bits
  import opened Wrappers
  import opened BigEndian
  import opened Ecdsa

  // (v.bit_length() + 7) // 8 or 1
  function ByteLength(v: nat): (n: nat)
    ensures n >= 1
  {
    if v < 256 then 1 else 1 + ByteLength(v / 256)
  }

  function IntegerContent(v: nat): (b: seq<byte>)
    ensures |b| >= 1
  {
    var b := ToBE(v, ByteLength(v));
    if b[0] >= 0x80 then [0] + b else b
  }

  // Python raises when a content is longer than 255 bytes.
  predicate ShortInteger(v: nat) {
    |IntegerContent(v)| <= 33
  }

  function EncodeInteger(v: nat): seq<byte>
    requires ShortInteger(v)
  {
    [0x02, |IntegerContent(v)|] + IntegerContent(v)
  }

  function Encode(sig: Signature): seq<byte>
    requires ShortInteger(sig.r) && ShortInteger(sig.s)
  {
    var body := EncodeInteger(sig.r) + EncodeInteger(sig.s);
    [0x30, |body|] + body
  }

  // A non-negative INTEGER in its shortest form at the start of s, and what follows it.
  function ReadInteger(s: seq<byte>): Option<(nat, seq<byte>)> {
    if |s| < 2 || s[0] != 0x02 || !(1 <= s[1] <= 33) || s[1] + 2 > |s| then None
    else
      var b := s[2..2 + s[1]];
      if b[0] >= 0x80 || (|b| > 1 && b[0] == 0 && b[1] < 0x80) then None
      else Some((FromBE(b), s[2 + s[1]..]))
  }

  // SEQUENCE { r INTEGER, s INTEGER } and nothing else, both in 1..n-1.
  function Decode(n: nat, s: seq<byte>): Option<Signature> {
    if |s| < 2 || s[0] != 0x30 || s[1] >= 0x80 || s[1] + 2 != |s| then None
    else
      match ReadInteger(s[2..])
      case None => None
      case Some((r, rest)) =>
        match ReadInteger(rest)
        case None => None
        case Some((v, end)) =>
          if end == [] && InRange(n, Signature(r, v)) then Some(Signature(r, v)) else None
  }

  // ---------------------------------------------------------------- minimal big-endian

  lemma {:induction false} ByteLengthMeaning(v: nat)
    ensures v < Pow2(8 * ByteLength(v))
    ensures ByteLength(v) > 1 ==> Pow2(8 * (ByteLength(v) - 1)) <= v
  {
    Pow2Values();
    if v >= 256 {
      var m := ByteLength(v / 256);
      ByteLengthMeaning(v / 256);
      Pow2Add(8, 8 * m);
      if m > 1 {
        Pow2Add(8, 8 * (m - 1));
      }
    }
  }

  lemma ByteLengthUnique(v: nat, len: nat)
    requires len >= 1 && v < Pow2(8 * len) && (len > 1 ==> Pow2(8 * (len - 1)) <= v)
    ensures ByteLength(v) == len
  {
    ByteLengthMeaning(v);
    if ByteLength(v) < len {
      Pow2Monotonic(8 * ByteLength(v), 8 * (len - 1));
    } else if ByteLength(v) > len {
      Pow2Monotonic(8 * len, 8 * (ByteLength(v) - 1));
    }
  }

  lemma LeadingScale(d: nat, m: nat)
    ensures 256 * (d * Pow2(8 * m)) == d * Pow2(8 * (m + 1))
  {
    hide Pow2;
    Pow2Small();
    Pow2Add(8, 8 * m);
    var p := Pow2(8 * m);
    assert 256 * (d * p) == d * (256 * p);
  }

  // The leading byte is the quotient by the weight of the rest.
  lemma {:induction false} LeadingByte(b: seq<byte>)
    requires b != []
    ensures FromBE(b) == b[0] * Pow2(8 * (|b| - 1)) + FromBE(b[1..])
    ensures FromBE(b[1..]) < Pow2(8 * (|b| - 1))
  {
    hide Pow2, ToBE;
    ToFromBE(b[1..]);
    if |b| == 1 {
      PowZero();
      assert b[..0] == [];
    } else {
      var t := b[..|b| - 1];
      LeadingByte(t);
      assert b[1..][..|b| - 2] == t[1..];
      LeadingScale(b[0], |b| - 2);
    }
  }

  lemma ContentValue(v: nat)
    ensures FromBE(IntegerContent(v)) == v
    ensures var b := IntegerContent(v); b[0] < 0x80 && !(|b| > 1 && b[0] == 0 && b[1] < 0x80)
  {
    var b := ToBE(v, ByteLength(v));
    ByteLengthMeaning(v);
    FromToBE(v, |b|);
    LeadingByte(b);
    if b[0] >= 0x80 {
      LeadingByte([0] + b);
      assert ([0] + b)[1..] == b;
    }
  }

  lemma NoLeadingZero(t: seq<byte>)
    requires t != [] && (|t| > 1 ==> t[0] != 0)
    ensures ByteLength(FromBE(t)) == |t| && ToBE(FromBE(t), |t|) == t
  {
    hide FromBE, ToBE, ByteLength, Pow2;
    LeadingByte(t);
    ToFromBE(t);
    if |t| > 1 {
      MulMono(1, t[0], Pow2(8 * (|t| - 1)));
    }
    ByteLengthUnique(FromBE(t), |t|);
  }

  // A shortest-form content is the content of its value.
  lemma ContentUnique(b: seq<byte>)
    requires b != [] && b[0] < 0x80 && !(|b| > 1 && b[0] == 0 && b[1] < 0x80)
    ensures IntegerContent(FromBE(b)) == b
  {
    hide FromBE, ToBE, ByteLength, Pow2;
    if b[0] == 0 && |b| > 1 {
      LeadingByte(b);
      NoLeadingZero(b[1..]);
      assert b == [0] + b[1..];
    } else {
      NoLeadingZero(b);
    }
  }

  lemma ContentBound(v: nat, n: nat)
    requires v < n <= Pow2(8 * 32)
    ensures ShortInteger(v)
  {
    ByteLengthMeaning(v);
    if ByteLength(v) > 32 {
      Pow2Monotonic(8 * 32, 8 * (ByteLength(v) - 1));
    }
  }

  // ---------------------------------------------------------------- printer and reader

  lemma ReadEncodedInteger(v: nat, rest: seq<byte>)
    requires ShortInteger(v)
    ensures ReadInteger(EncodeInteger(v) + rest) == Some((v, rest))
  {
    hide IntegerContent, FromBE;
    var b := IntegerContent(v);
    var s := EncodeInteger(v) + rest;
    ContentValue(v);
    assert s == [0x02, |b|] + b + rest;
    assert s[2..2 + |b|] == b && s[2 + |b|..] == rest;
  }

  lemma EncodedSize(v: nat)
    requires ShortInteger(v)
    ensures 3 <= |EncodeInteger(v)| <= 35
  {
  }

  lemma DecodeEncoded(n: nat, sig: Signature)
    requires n <= Pow2(8 * 32) && InRange(n, sig)
    ensures ShortInteger(sig.r) && ShortInteger(sig.s)
    ensures Decode(n, Encode(sig)) == Some(sig)
  {
    hide IntegerContent, EncodeInteger, ReadInteger;
    ContentBound(sig.r, n);
    ContentBound(sig.s, n);
    var (a, b) := (EncodeInteger(sig.r), EncodeInteger(sig.s));
    EncodedSize(sig.r);
    EncodedSize(sig.s);
    assert Encode(sig)[2..] == a + b;
    ReadEncodedInteger(sig.r, b);
    assert b + [] == b;
    ReadEncodedInteger(sig.s, []);
  }

  predicate Shortest(b: seq<byte>) {
    b != [] && b[0] < 0x80 && (|b| > 1 && b[0] == 0 ==> b[1] >= 0x80)
  }

  // A signature is a SEQUENCE of two INTEGERs, each the shortest two's complement form of its
  // number: not negative, and no zero octet in front unless the next one needs it.
  lemma EncodeMeaning(sig: Signature)
    requires ShortInteger(sig.r) && ShortInteger(sig.s)
    ensures var (a, b) := (IntegerContent(sig.r), IntegerContent(sig.s));
            && FromBE(a) == sig.r && FromBE(b) == sig.s && Shortest(a) && Shortest(b)
            && |a| <= 33 && |b| <= 33
            && Encode(sig) == [0x30, |a| + |b| + 4] + [0x02, |a|] + a + [0x02, |b|] + b
  {
    hide IntegerContent, FromBE;
    ContentValue(sig.r);
    ContentValue(sig.s);
  }

  // The reader accepts nothing but what the printer prints.
  lemma IntegerCanonical(s: seq<byte>)
    requires ReadInteger(s).Some?
    ensures var (v, rest) := ReadInteger(s).value;
            ShortInteger(v) && s == EncodeInteger(v) + rest
  {
    var b := s[2..2 + s[1]];
    ContentUnique(b);
    assert s == [0x02, |b|] + b + s[2 + s[1]..];
  }

  lemma DecodeCanonical(n: nat, s: seq<byte>)
    requires Decode(n, s).Some?
    ensures var sig := Decode(n, s).value;
            InRange(n, sig) && ShortInteger(sig.r) && ShortInteger(sig.s) && Encode(sig) == s
  {
    hide IntegerContent, EncodeInteger, ReadInteger, ShortInteger;
    IntegerCanonical(s[2..]);
    var (r, rest) := ReadInteger(s[2..]).value;
    IntegerCanonical(rest);
    var (v, end) := ReadInteger(rest).value;
    assert EncodeInteger(v) + [] == EncodeInteger(v);
    var body := EncodeInteger(r) + EncodeInteger(v);
    assert s == [0x30, |body|] + body;
  }
}
