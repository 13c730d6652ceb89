/** Big-endian integers (int.to_bytes and int.from_bytes). */
module BigEndian {
  import opened Bits

  // Python raises OverflowError unless v < 256^len.
  function ToBE(v: nat, len: nat): (s: seq<byte>)
    ensures |s| == len
  {
    if len == 0 then [] else ToBE(v / 256, len - 1) + [v % 256]
  }

  function FromBE(s: seq<byte>): nat {
    if s == [] then 0 else 256 * FromBE(s[..|s| - 1]) + s[|s| - 1]
  }

  lemma {:induction false} FromToBE(v: nat, len: nat)
    requires v < Pow2(8 * len)
    ensures FromBE(ToBE(v, len)) == v
  {
    if len > 0 {
      Pow2Values();
      Pow2Add(8, 8 * (len - 1));
      assert v / 256 < Pow2(8 * (len - 1));
      FromToBE(v / 256, len - 1);
      assert ToBE(v, len)[..len - 1] == ToBE(v / 256, len - 1);
    }
  }

  lemma {:induction false} ToFromBE(s: seq<byte>)
    ensures FromBE(s) < Pow2(8 * |s|)
    ensures ToBE(FromBE(s), |s|) == s
  {
    if s != [] {
      var t := s[..|s| - 1];
      ToFromBE(t);
      Pow2Values();
      Pow2Add(8, 8 * (|s| - 1));
      assert s == t + [s[|s| - 1]];
    }
  }

  lemma WordSizes()
    ensures Pow2(8 * 32) == 0x1_0000000000000000_0000000000000000_0000000000000000_0000000000000000
  {
    Pow2Values();
    Pow2Add(64, 64);
    Pow2Add(128, 128);
  }
}
