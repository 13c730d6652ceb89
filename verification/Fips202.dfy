/**
 The Keccak sponge on bit strings, as FIPS 202 defines it: the step mappings of section 3.2,
 the permutation of section 3.3 with 24 rounds on 1600 bits, the sponge of section 4 and the
 padding of section 5.1.
 */
module Fips202 {
  import opened Bits

  type State = s: seq<bool> | |s| == 1600 witness seq(1600, i => false)

  // Section 3.1.2: A[x, y, z], coordinates taken modulo 5, 5 and 64.
  function At(s: State, x: int, y: int, z: int): bool {
    s[64 * (5 * (y % 5) + x % 5) + z % 64]
  }

  // Section 3.1.3: the state whose bit at (x, y, z) is f(x, y, z).
  function Build(f: (int, int, int) -> bool): State {
    seq(1600, i => f(i / 64 % 5, i / 320, i % 64))
  }

  // Section 3.2.1
  function Column(s: State, x: int, z: int): bool {
    At(s, x, 0, z) != (At(s, x, 1, z) != (At(s, x, 2, z) != (At(s, x, 3, z) != At(s, x, 4, z))))
  }

  function Theta(s: State): State {
    Build((x, y, z) => At(s, x, y, z) != (Column(s, x - 1, z) != Column(s, x + 1, z - 1)))
  }

  // Section 3.2.2: the lane visited at step t, and the rotation it gets.
  function Visit(t: nat): (int, int) {
    if t == 0 then (1, 0) else
      var (x, y) := Visit(t - 1);
      (y, (2 * x + 3 * y) % 5)
  }

  function Triangle(t: nat): nat {
    (t + 1) * (t + 2) / 2
  }

  function OffsetFrom(x: int, y: int, t: nat): nat
    decreases 24 - t
  {
    if t >= 24 then 0 else if Visit(t) == (x, y) then Triangle(t) else OffsetFrom(x, y, t + 1)
  }

  function Rho(s: State): State {
    Build((x, y, z) => At(s, x, y, z - OffsetFrom(x, y, 0)))
  }

  // Section 3.2.3
  function Pi(s: State): State {
    Build((x, y, z) => At(s, x + 3 * y, x, z))
  }

  // Section 3.2.4
  function Chi(s: State): State {
    Build((x, y, z) => At(s, x, y, z) != (!At(s, x + 1, y, z) && At(s, x + 2, y, z)))
  }

  // Section 3.2.5: algorithm 5, the register after n steps.
  function Register(n: nat): (r: seq<bool>)
    ensures |r| == 8
  {
    if n == 0 then [true, false, false, false, false, false, false, false] else
      var r := [false] + Register(n - 1);
      [r[0] != r[8], r[1], r[2], r[3], r[4] != r[8], r[5] != r[8], r[6] != r[8], r[7]]
  }

  function Rc(t: nat): bool {
    Register(t % 255)[0]
  }

  predicate RoundConstant(round: nat, z: int) {
    exists j: nat :: j < 7 && z == Pow2(j) - 1 && Rc(j + 7 * round)
  }

  function Iota(s: State, round: nat): State {
    Build((x, y, z) => if x == 0 && y == 0 then At(s, 0, 0, z) != RoundConstant(round, z) else At(s, x, y, z))
  }

  // Section 3.3
  function Rounds(s: State, n: nat): State {
    if n == 0 then s else Iota(Chi(Pi(Rho(Theta(Rounds(s, n - 1))))), n - 1)
  }

  function Permutation(s: State): State {
    Rounds(s, 24)
  }

  // Section 5.1: pad10*1 to a multiple of x for a message of m bits.
  function Pad(x: nat, m: nat): seq<bool>
    requires x > 0
  {
    var j: int := (-(m as int) - 2) % x;
    [true] + seq(j, i => false) + [true]
  }

  function XorBits(a: seq<bool>, b: seq<bool>): (r: seq<bool>)
    requires |a| == |b|
    ensures |r| == |a|
  {
    seq(|a|, i requires 0 <= i < |a| => a[i] != b[i])
  }

  const RATE := 1088

  // Section 4: absorb the blocks of p in turn.
  function Absorb(s: State, p: seq<bool>): State
    requires |p| % RATE == 0
    decreases |p|
  {
    if p == [] then s
    else Absorb(Permutation(XorBits(s, p[..RATE] + seq(512, i => false))), p[RATE..])
  }

  // The first d bits squeezed from the message, for d up to the rate.
  function Sponge(message: seq<bool>, d: nat): seq<bool>
    requires d <= RATE
  {
    Absorb(seq(1600, i => false), message + Pad(RATE, |message|))[..d]
  }

  // Section B.1: bytes as bits, least significant bit first.
  function ByteBits(b: byte): (r: seq<bool>)
    ensures |r| == 8
  {
    seq(8, k requires 0 <= k => Bit(b, k))
  }

  function ToBits(s: seq<byte>): (r: seq<bool>)
    ensures |r| == 8 * |s|
  {
    if s == [] then [] else ByteBits(s[0]) + ToBits(s[1..])
  }

  lemma Coordinates(x: int, y: int, z: int)
    requires 0 <= x < 5 && 0 <= y < 5 && 0 <= z < 64
    ensures var i := 64 * (5 * y + x) + z;
            0 <= i < 1600 && i / 64 % 5 == x && i % 64 == z && i / 320 == y
  {
    var i := 64 * (5 * y + x) + z;
    assert i / 64 == 5 * y + x;
  }

  lemma BuildAt(f: (int, int, int) -> bool, i: int)
    requires 0 <= i < 1600
    ensures Build(f)[i] == f(i / 64 % 5, i / 320, i % 64)
  {
  }

  lemma AtBuild(f: (int, int, int) -> bool, x: int, y: int, z: int)
    requires 0 <= x < 5 && 0 <= y < 5 && 0 <= z < 64
    ensures At(Build(f), x, y, z) == f(x, y, z)
  {
    hide Build;
    Coordinates(x, y, z);
    BuildAt(f, 64 * (5 * y + x) + z);
  }

  lemma SameState(s: State, t: State)
    requires forall x, y, z :: 0 <= x < 5 && 0 <= y < 5 && 0 <= z < 64 ==> At(s, x, y, z) == At(t, x, y, z)
    ensures s == t
  {
    forall i | 0 <= i < 1600 ensures s[i] == t[i] {
      var (x, y, z) := (i / 64 % 5, i / 320, i % 64);
      assert i == 64 * (5 * y + x) + z;
      assert At(s, x, y, z) == At(t, x, y, z);
    }
  }
}
