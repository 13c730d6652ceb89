/**
 The hash of the minting tool and of the nullifier: pad, absorb 136-byte blocks into the lanes,
 squeeze four lanes. Proved to be the Keccak sponge with rate 1088 and no domain suffix.
 */
module Keccak256 {
  import opened Bits
  import opened Fips202
  import opened Keccak

  // ---------------------------------------------------------------- bytes and bits

  function FromLE(s: seq<byte>): nat {
    if s == [] then 0 else s[0] + 256 * FromLE(s[1..])
  }

  function ToLE(v: nat, len: nat): (s: seq<byte>)
    ensures |s| == len
  {
    if len == 0 then [] else [v % 256] + ToLE(v / 256, len - 1)
  }

  lemma {:induction false} ToBitsAt(s: seq<byte>, i: nat)
    requires i < 8 * |s|
    ensures ToBits(s)[i] == Bit(s[i / 8], i % 8)
  {
    if i >= 8 {
      ToBitsAt(s[1..], i - 8);
    }
  }

  lemma {:induction false} ToBitsAppend(a: seq<byte>, b: seq<byte>)
    ensures ToBits(a + b) == ToBits(a) + ToBits(b)
  {
    hide ByteBits;
    if a == [] {
      assert a + b == b;
    } else {
      ToBitsAppend(a[1..], b);
      assert (ByteBits(a[0]) + ToBits(a[1..])) + ToBits(b) == ByteBits(a[0]) + (ToBits(a[1..]) + ToBits(b));
      assert (a + b)[1..] == a[1..] + b;
    }
  }

  lemma {:induction false} ToBitsSlice(s: seq<byte>, from: nat, to: nat)
    requires from <= to <= |s|
    ensures ToBits(s[from..to]) == ToBits(s)[8 * from..8 * to]
  {
    assert s == s[..from] + s[from..to] + s[to..];
    ToBitsAppend(s[..from] + s[from..to], s[to..]);
    ToBitsAppend(s[..from], s[from..to]);
  }

  lemma {:induction false} LittleEndianBit(s: seq<byte>, z: nat)
    requires z < 8 * |s|
    ensures Bit(FromLE(s), z) == Bit(s[z / 8], z % 8)
    ensures FromLE(s) < Pow2(8 * |s|)
  {
    Pow2Values();
    BitConcat(s[0], FromLE(s[1..]), 8, z);
    Pow2Add(8, 8 * (|s| - 1));
    if |s| > 1 {
      LittleEndianBit(s[1..], if z < 8 then 0 else z - 8);
    }
  }

  lemma {:induction false} ToLEBit(v: nat, len: nat, j: nat, k: nat)
    requires j < len && k < 8
    ensures Bit(ToLE(v, len)[j], k) == Bit(v, 8 * j + k)
  {
    Pow2Values();
    BitConcat(v % 256, v / 256, 8, 8 * j + k);
    if j > 0 {
      ToLEBit(v / 256, len - 1, j - 1, k);
    }
  }

  lemma {:induction false} SameByte(a: nat, b: nat, n: nat)
    requires a < Pow2(n) && b < Pow2(n) && forall k :: 0 <= k < n ==> Bit(a, k) == Bit(b, k)
    ensures a == b
  {
    if n > 0 {
      assert Bit(a, 0) == Bit(b, 0);
      forall k | 0 <= k < n - 1 ensures Bit(a / 2, k) == Bit(b / 2, k) {
        assert Bit(a, k + 1) == Bit(b, k + 1);
      }
      SameByte(a / 2, b / 2, n - 1);
    }
  }

  lemma ToBitsInjective(s: seq<byte>, t: seq<byte>)
    requires ToBits(s) == ToBits(t)
    ensures s == t
  {
    assert |s| == |t|;
    forall i | 0 <= i < |s| ensures s[i] == t[i] {
      forall k | 0 <= k < 8 ensures Bit(s[i], k) == Bit(t[i], k) {
        ToBitsAt(s, 8 * i + k);
        ToBitsAt(t, 8 * i + k);
      }
      Pow2Values();
      SameByte(s[i], t[i], 8);
    }
  }

  // ---------------------------------------------------------------- padding

  function Zeros(n: nat): (q: nat)
    ensures q < 136 && (n + 1 + q) % 136 == 0
  {
    var q: int := (-(n as int) - 1) % 136;
    q
  }

  function Tail(q: nat): (t: seq<byte>)
    ensures |t| == q + 1
  {
    var t: seq<byte> := [1] + seq(q, i => 0);
    t[q := XorByte(t[q], 0x80)]
  }

  // data, 0x01, zeros up to a multiple of 136 bytes, 0x80 xored into the last byte
  function Padded(data: seq<byte>): (msg: seq<byte>)
    ensures |msg| > 0 && |msg| % 136 == 0 && data <= msg
  {
    data + Tail(Zeros(|data|))
  }

  lemma TailBit(q: nat, i: nat, k: nat)
    requires i <= q && k < 8
    ensures Bit(Tail(q)[i], k) <==> (i == 0 && k == 0) || (i == q && k == 7)
  {
    hide Bit, Xor, Pow2;
    PowZero();
    Pow2Small();
    BitPow2(0, k);
    BitPow2(7, k);
    BitZero(k);
    BitXor(if q == 0 then 1 else 0, 0x80, k);
  }

  lemma TailBits(q: nat)
    ensures ToBits(Tail(q)) == [true] + seq(8 * q + 6, i => false) + [true]
  {
    hide ToBits, Tail;
    var t := Tail(q);
    var bits := [true] + seq(8 * q + 6, i => false) + [true];
    forall i | 0 <= i < 8 * q + 8 ensures ToBits(t)[i] == bits[i] {
      ToBitsAt(t, i);
      TailBit(q, i / 8, i % 8);
    }
  }

  lemma PadLength(n: nat, q: nat)
    requires q < 136 && (n + 1 + q) % 136 == 0
    ensures (-(8 * n) - 2) % 1088 == 8 * q + 6
  {
    var m := (n + 1 + q) / 136;
    assert -(8 * n) - 2 == -m * 1088 + (8 * q + 6);
  }

  lemma PadIs(n: nat, q: nat)
    requires q < 136 && (n + 1 + q) % 136 == 0
    ensures Pad(RATE, 8 * n) == [true] + seq(8 * q + 6, i => false) + [true]
  {
    PadLength(n, q);
  }

  lemma PaddedBits(data: seq<byte>)
    ensures ToBits(Padded(data)) == ToBits(data) + Pad(RATE, |ToBits(data)|)
  {
    hide ToBits, Tail, Pad, Zeros;
    var q := Zeros(|data|);
    ToBitsAppend(data, Tail(q));
    TailBits(q);
    PadIs(|data|, q);
  }

  // ---------------------------------------------------------------- absorbing

  lemma BitsOfIndex(l: Lanes, k: nat)
    requires IsLanes(l) && k < 1600
    ensures BitsOf(l)[k] == Bit(l[k / 64 % 5][k / 320], k % 64)
  {
  }

  function Mixed(l: Lanes, block: seq<byte>, x: int, y: int): nat
    requires IsLanes(l) && |block| == 136 && 0 <= x < 5 && 0 <= y < 5
  {
    var i := 5 * y + x;
    if i < 17 then Xor(l[x][y], FromLE(block[8 * i..8 * i + 8])) else l[x][y]
  }

  lemma MixedBound(l: Lanes, block: seq<byte>, x: int, y: int)
    requires IsLanes(l) && |block| == 136 && 0 <= x < 5 && 0 <= y < 5
    ensures Mixed(l, block, x, y) < TWO64
  {
    hide Xor, FromLE;
    var i := 5 * y + x;
    if i < 17 {
      Pow2Values();
      LittleEndianBit(block[8 * i..8 * i + 8], 0);
      XorLane(l[x][y], FromLE(block[8 * i..8 * i + 8]));
    }
  }

  lemma BitIndex(k: nat)
    requires k < 1600
    ensures var (x, y) := (k / 64 % 5, k / 320); 0 <= x < 5 && 0 <= y < 5 && 5 * y + x == k / 64
    ensures k == 64 * (k / 64) + k % 64 && (k / 64 < 17 <==> k < 1088)
  {
  }

  lemma MixedLaneBit(lane: nat, block: seq<byte>, i: nat, z: nat)
    requires |block| == 136 && i < 17 && z < 64
    ensures Bit(Xor(lane, FromLE(block[8 * i..8 * i + 8])), z) == (Bit(lane, z) != ToBits(block)[64 * i + z])
  {
    hide Xor, FromLE, Bit, ToBits;
    var b := block[8 * i..8 * i + 8];
    BitXor(lane, FromLE(b), z);
    LittleEndianBit(b, z);
    ToBitsAt(block, 64 * i + z);
    assert (64 * i + z) / 8 == 8 * i + z / 8 && (64 * i + z) % 8 == z % 8;
  }

  lemma MixedBit(l: Lanes, block: seq<byte>, k: nat)
    requires IsLanes(l) && |block| == 136 && k < 1600
    ensures Bit(Mixed(l, block, k / 64 % 5, k / 320), k % 64)
            == (BitsOf(l)[k] != (ToBits(block) + seq(512, i => false))[k])
  {
    hide Xor, FromLE, Bit, ToBits, BitsOf;
    BitsOfIndex(l, k);
    var (x, y, z) := (k / 64 % 5, k / 320, k % 64);
    BitIndex(k);
    if k / 64 < 17 {
      MixedLaneBit(l[x][y], block, k / 64, z);
    }
  }

  method AbsorbBlock(lanes: Lanes, block: seq<byte>) returns (out: Lanes)
    requires IsLanes(lanes) && |block| == 136
    ensures IsLanes(out) && BitsOf(out) == Permutation(XorBits(BitsOf(lanes), ToBits(block) + seq(512, i => false)))
  {
    hide Xor, FromLE, Bit, ToBits, BitsOf, Permutation;
    out := lanes;
    for i := 0 to 17
      invariant IsLanes(out)
      invariant forall a, b :: 0 <= a < 5 && 0 <= b < 5 ==>
        out[a][b] == if 5 * b + a < i then Mixed(lanes, block, a, b) else lanes[a][b]
    {
      var (x, y) := (i % 5, i / 5);
      MixedBound(lanes, block, x, y);
      var lane: nat := Xor(out[x][y], FromLE(block[8 * i..8 * i + 8]));
      out := SetLane(out, x, y, lane);
    }
    forall k | 0 <= k < 1600
      ensures BitsOf(out)[k] == XorBits(BitsOf(lanes), ToBits(block) + seq(512, i => false))[k]
    {
      MixedBit(lanes, block, k);
      BitsOfIndex(out, k);
    }
    assert BitsOf(out) == XorBits(BitsOf(lanes), ToBits(block) + seq(512, i => false));
    out := KeccakF(out);
  }

  // ---------------------------------------------------------------- squeezing and the hash

  function Squeezed(l: Lanes): (out: seq<byte>)
    requires IsLanes(l)
    ensures |out| == 32
  {
    ToLE(l[0][0], 8) + ToLE(l[1][0], 8) + ToLE(l[2][0], 8) + ToLE(l[3][0], 8)
  }

  lemma SqueezedAt(l: Lanes, k: nat)
    requires IsLanes(l) && k < 256
    ensures Squeezed(l)[k / 8] == ToLE(l[k / 64][0], 8)[k / 8 - 8 * (k / 64)]
  {
    hide ToLE;
    assert k / 64 == k / 8 / 8;
  }

  lemma SqueezedBits(l: Lanes)
    requires IsLanes(l)
    ensures ToBits(Squeezed(l)) == BitsOf(l)[..256]
  {
    hide ToBits, BitsOf, ToLE, Bit;
    var out := Squeezed(l);
    forall k | 0 <= k < 256 ensures ToBits(out)[k] == BitsOf(l)[k] {
      ToBitsAt(out, k);
      BitsOfIndex(l, k);
      SqueezedAt(l, k);
      ToLEBit(l[k / 64][0], 8, k / 8 - 8 * (k / 64), k % 8);
      assert 8 * (k / 8 - 8 * (k / 64)) + k % 8 == k % 64;
    }
  }

  function NumberOf(bits: seq<bool>): (n: nat)
    ensures n < Pow2(|bits|)
  {
    if bits == [] then 0 else Digit(bits[0]) + 2 * NumberOf(bits[1..])
  }

  lemma {:induction false} NumberBit(bits: seq<bool>, k: nat)
    requires k < |bits|
    ensures Bit(NumberOf(bits), k) == bits[k]
  {
    if k > 0 {
      NumberBit(bits[1..], k - 1);
    }
  }

  // Section B.1, back to bytes.
  function FromBits(bits: seq<bool>): (s: seq<byte>)
    ensures |s| == |bits| / 8
  {
    if |bits| < 8 then [] else
      Pow2Values();
      [NumberOf(bits[..8])] + FromBits(bits[8..])
  }

  lemma {:induction false} BitsOfBytes(bits: seq<bool>)
    requires |bits| % 8 == 0
    ensures ToBits(FromBits(bits)) == bits
  {
    if bits != [] {
      BitsOfBytes(bits[8..]);
      forall k | 0 <= k < 8 ensures ByteBits(FromBits(bits)[0])[k] == bits[k] {
        NumberBit(bits[..8], k);
      }
      assert ByteBits(FromBits(bits)[0]) == bits[..8];
    }
  }

  // The 32 bytes of the sponge's output: what the hash is specified to be.
  function Digest(data: seq<byte>): (d: seq<byte>)
    ensures |d| == 32
  {
    FromBits(Sponge(ToBits(data), 256))
  }

  lemma DigestBits(data: seq<byte>, d: seq<byte>)
    ensures ToBits(d) == Sponge(ToBits(data), 256) <==> d == Digest(data)
  {
    BitsOfBytes(Sponge(ToBits(data), 256));
    if ToBits(d) == Sponge(ToBits(data), 256) {
      ToBitsInjective(d, Digest(data));
    }
  }

  lemma PaddedIs(data: seq<byte>, msg: seq<byte>)
    requires var m := data + [1] + seq(Zeros(|data|), i => 0);
             msg == m[|m| - 1 := XorByte(m[|m| - 1], 0x80)]
    ensures msg == Padded(data)
  {
  }

  method PadMessage(data: seq<byte>) returns (msg: seq<byte>)
    ensures msg == Padded(data)
  {
    hide Tail;
    msg := data + [1];
    msg := msg + seq(Zeros(|data|), i => 0);
    msg := msg[|msg| - 1 := XorByte(msg[|msg| - 1], 0x80)];
    PaddedIs(data, msg);
  }

  lemma AbsorbStep(s: State, bits: seq<bool>, off: nat, block: seq<bool>)
    requires off % 136 == 0 && |bits| % RATE == 0 && 8 * (off + 136) <= |bits|
    requires block == bits[8 * off..8 * (off + 136)]
    ensures Absorb(s, bits[8 * off..])
        == Absorb(Permutation(XorBits(s, block + seq(512, i => false))), bits[8 * (off + 136)..])
  {
    hide Permutation;
    var rest := bits[8 * off..];
    assert rest[..RATE] == block && rest[RATE..] == bits[8 * (off + 136)..];
  }

  lemma AbsorbDone(s: State)
    ensures Absorb(s, []) == s
  {
  }

  lemma ZeroBits(l: Lanes)
    requires IsLanes(l) && forall x, y :: 0 <= x < 5 && 0 <= y < 5 ==> l[x][y] == 0
    ensures BitsOf(l) == seq(1600, i => false)
  {
    forall k | 0 <= k < 1600 ensures !BitsOf(l)[k] {
      BitsOfIndex(l, k);
      BitZero(k % 64);
    }
  }

  // The blocks before byte `off` have been absorbed into the lanes.
  predicate Absorbed(lanes: Lanes, msg: seq<byte>, off: nat) {
    && |msg| % 136 == 0 && off <= |msg| && off % 136 == 0 && IsLanes(lanes)
    && Absorb(seq(1600, i => false), ToBits(msg)) == Absorb(BitsOf(lanes), ToBits(msg)[8 * off..])
  }

  lemma NothingAbsorbed(lanes: Lanes, msg: seq<byte>)
    requires |msg| % 136 == 0 && IsLanes(lanes) && BitsOf(lanes) == seq(1600, i => false)
    ensures Absorbed(lanes, msg, 0)
  {
    hide ToBits, BitsOf, Permutation, Bit, Absorb, XorBits, Build;
    assert ToBits(msg)[8 * 0..] == ToBits(msg);
  }

  lemma BlockAbsorbed(before: Lanes, after: Lanes, msg: seq<byte>, off: nat)
    requires Absorbed(before, msg, off) && off + 136 <= |msg| && IsLanes(after)
    requires BitsOf(after)
        == Permutation(XorBits(BitsOf(before), ToBits(msg[off..off + 136]) + seq(512, i => false)))
    ensures Absorbed(after, msg, off + 136)
  {
    hide ToBits, BitsOf, Permutation, Bit, Absorb, XorBits, Build;
    ToBitsSlice(msg, off, off + 136);
    AbsorbStep(BitsOf(before), ToBits(msg), off, ToBits(msg[off..off + 136]));
  }

  lemma AllAbsorbed(lanes: Lanes, msg: seq<byte>)
    requires Absorbed(lanes, msg, |msg|)
    ensures BitsOf(lanes) == Absorb(seq(1600, i => false), ToBits(msg))
  {
    hide ToBits, BitsOf, Permutation, Bit, Absorb, XorBits, Build;
    AbsorbDone(BitsOf(lanes));
    assert ToBits(msg)[8 * |msg|..] == [];
  }

  method AbsorbAll(msg: seq<byte>) returns (lanes: Lanes)
    requires |msg| % 136 == 0
    ensures IsLanes(lanes) && BitsOf(lanes) == Absorb(seq(1600, i => false), ToBits(msg))
  {
    hide Absorbed, ToBits, BitsOf, Permutation, Bit, Absorb, XorBits, Build;
    lanes := seq(5, x => seq(5, y => 0));
    ZeroBits(lanes);
    NothingAbsorbed(lanes, msg);
    var off := 0;
    while off < |msg|
      invariant off <= |msg| && off % 136 == 0 && IsLanes(lanes) && Absorbed(lanes, msg, off)
    {
      ghost var before := lanes;
      lanes := AbsorbBlock(lanes, msg[off..off + 136]);
      BlockAbsorbed(before, lanes, msg, off);
      off := off + 136;
    }
    AllAbsorbed(lanes, msg);
  }

  method Hash(data: seq<byte>) returns (out: seq<byte>)
    ensures out == Digest(data) && ToBits(out) == Sponge(ToBits(data), 256)
  {
    hide ToBits, BitsOf, Absorb, Padded, Pad, Squeezed, Build;
    var msg := PadMessage(data);
    PaddedBits(data);
    var lanes := AbsorbAll(msg);
    out := Squeezed(lanes);
    SqueezedBits(lanes);
    DigestBits(data, out);
  }
}
