/**
 The minting tool's keccak256 on 64-bit lanes, proved to be the bit-level sponge.
 */
module Keccak {
  import opened Bits
  import opened Fips202

  type Lanes = seq<seq<nat>>

  predicate IsLanes(l: Lanes) {
    |l| == 5 && (forall x :: 0 <= x < 5 ==> |l[x]| == 5)
        && (forall x, y :: 0 <= x < 5 && 0 <= y < 5 ==> l[x][y] < TWO64)
  }

  function SetLane(l: Lanes, x: int, y: int, lane: nat): Lanes
    requires IsLanes(l) && 0 <= x < 5 && 0 <= y < 5
  {
    var column: seq<nat> := l[x][y := lane];
    l[x := column]
  }

  // The bit string the lanes hold.
  function BitsOf(l: Lanes): State
    requires IsLanes(l)
  {
    Build((x, y, z) => 0 <= x < 5 && 0 <= y < 5 && 0 <= z && Bit(l[x][y], z))
  }

  lemma BitAt(l: Lanes, x: int, y: int, z: int)
    requires IsLanes(l) && 0 <= x < 5 && 0 <= y < 5 && 0 <= z < 64
    ensures At(BitsOf(l), x, y, z) == Bit(l[x][y], z)
  {
    AtBuild((x, y, z) => 0 <= x < 5 && 0 <= y < 5 && 0 <= z && Bit(l[x][y], z), x, y, z);
  }

  // ---------------------------------------------------------------- bits of lane operations

  lemma {:induction false} BitAndNot(a: nat, b: nat, k: nat)
    ensures Bit(AndNot(a, b), k) == (!Bit(a, k) && Bit(b, k))
  {
    if b == 0 {
      BitZero(k);
    } else if k > 0 {
      BitAndNot(a / 2, b / 2, k - 1);
    }
  }

  lemma {:induction false} AndNotBound(a: nat, b: nat)
    ensures AndNot(a, b) <= b
  {
    if b > 0 {
      AndNotBound(a / 2, b / 2);
    }
  }

  // The digits of lo + hi * 2^m are those of lo and then those of hi.
  lemma {:induction false} BitConcat(lo: nat, hi: nat, m: nat, k: nat)
    requires lo < Pow2(m)
    ensures Bit(lo + hi * Pow2(m), k) == if k < m then Bit(lo, k) else Bit(hi, k - m)
  {
    if m > 0 {
      var v := lo + hi * Pow2(m);
      assert hi * Pow2(m) == 2 * (hi * Pow2(m - 1));
      assert v / 2 == lo / 2 + hi * Pow2(m - 1) && v % 2 == lo % 2;
      if k > 0 {
        BitConcat(lo / 2, hi, m - 1, k - 1);
      }
    }
  }

  lemma {:induction false} BitPow2(n: nat, k: nat)
    ensures Bit(Pow2(n), k) <==> n == k
  {
    if n == 0 {
      if k > 0 {
        BitZero(k - 1);
      }
    } else if k > 0 {
      BitPow2(n - 1, k - 1);
    }
  }

  // ((a >> (64 - (n % 64))) + (a << (n % 64))) % (1 << 64)
  function Rol64(a: nat, n: nat): (r: nat)
    ensures r < TWO64
  {
    (a / Pow2(64 - n % 64) + a * Pow2(n % 64)) % TWO64
  }

  lemma DivBound(a: nat, h: nat, p: nat)
    requires h > 0 && a < p * h
    ensures a / h < p
  {
    if a / h >= p {
      MulMono(p, a / h, h);
    }
  }

  // The rotation moves the high digits below the low ones.
  lemma RolSplit(a: nat, n: nat, m: nat)
    requires a < TWO64 && m == n % 64
    ensures var h := Pow2(64 - m);
            a / h < Pow2(m) && Rol64(a, n) == a / h + a % h * Pow2(m)
  {
    hide Pow2;
    var (p, h) := (Pow2(m), Pow2(64 - m));
    Pow2Values();
    Pow2Add(m, 64 - m);
    assert p * h == TWO64;
    DivBound(a, h, p);
    ModScaled(a / h, a, p, h);
  }

  lemma BitSplit(a: nat, m: nat)
    ensures a % Pow2(m) < Pow2(m) && a == a % Pow2(m) + a / Pow2(m) * Pow2(m)
  {
  }

  lemma RolIndex(n: nat, z: int, k: int)
    requires 0 <= z < 64 && k == if z < n % 64 then z + 64 - n % 64 else z - n % 64
    ensures (z - n) % 64 == k
  {
  }

  lemma BitRol(a: nat, n: nat, z: int)
    requires a < TWO64 && 0 <= z < 64
    ensures Bit(Rol64(a, n), z) == Bit(a, (z - n) % 64)
  {
    hide Pow2, Bit, Rol64;
    var m := n % 64;
    RolSplit(a, n, m);
    BitSplit(a, 64 - m);
    var h := Pow2(64 - m);
    BitConcat(a / h, a % h, m, z);
    var k := if z < m then z + 64 - m else z - m;
    BitConcat(a % h, a / h, 64 - m, k);
    RolIndex(n, z, k);
  }

  lemma XorLane(a: nat, b: nat)
    requires a < TWO64 && b < TWO64
    ensures Xor(a, b) < TWO64
  {
    Pow2Values();
    XorBound(a, b, 64);
  }

  // ---------------------------------------------------------------- theta

  function ColumnLane(l: Lanes, x: int): (c: nat)
    requires IsLanes(l)
  {
    var r := l[x % 5];
    Xor(Xor(Xor(Xor(r[0], r[1]), r[2]), r[3]), r[4])
  }

  lemma ColumnBits(l: Lanes, x: int, z: int)
    requires IsLanes(l) && 0 <= z < 64
    ensures Bit(ColumnLane(l, x), z) == Column(BitsOf(l), x, z)
    ensures ColumnLane(l, x) < TWO64
  {
    hide Bit, Xor, BitsOf;
    var r := l[x % 5];
    var a := Xor(r[0], r[1]);
    var b := Xor(a, r[2]);
    var c := Xor(b, r[3]);
    XorLane(r[0], r[1]);
    XorLane(a, r[2]);
    XorLane(b, r[3]);
    XorLane(c, r[4]);
    BitXor(r[0], r[1], z);
    BitXor(a, r[2], z);
    BitXor(b, r[3], z);
    BitXor(c, r[4], z);
    BitAt(l, x % 5, 0, z);
    BitAt(l, x % 5, 1, z);
    BitAt(l, x % 5, 2, z);
    BitAt(l, x % 5, 3, z);
    BitAt(l, x % 5, 4, z);
  }

  function ThetaMix(l: Lanes, x: int): nat
    requires IsLanes(l)
  {
    Xor(ColumnLane(l, x + 4), Rol64(ColumnLane(l, x + 1), 1))
  }

  function ThetaLane(l: Lanes, x: int, y: int): nat
    requires IsLanes(l) && 0 <= x < 5 && 0 <= y < 5
  {
    Xor(l[x][y], ThetaMix(l, x))
  }

  lemma ColumnWraps(s: State, x: int, z: int)
    ensures Column(s, x + 4, z) == Column(s, x - 1, z)
    ensures Column(s, x + 1, (z - 1) % 64) == Column(s, x + 1, z - 1)
  {
    assert (x + 4) % 5 == (x - 1) % 5;
    assert (z - 1) % 64 % 64 == (z - 1) % 64;
  }

  lemma ThetaBit(l: Lanes, x: int, y: int, z: int)
    requires IsLanes(l) && 0 <= x < 5 && 0 <= y < 5 && 0 <= z < 64
    ensures Bit(ThetaLane(l, x, y), z) == At(Theta(BitsOf(l)), x, y, z)
    ensures ThetaLane(l, x, y) < TWO64
  {
    hide Bit, Xor, BitsOf, ColumnLane, Rol64, Column, At;
    var s := BitsOf(l);
    var (c, d) := (ColumnLane(l, x + 4), ColumnLane(l, x + 1));
    ColumnBits(l, x + 4, z);
    ColumnBits(l, x + 1, (z - 1) % 64);
    BitRol(d, 1, z);
    XorLane(c, Rol64(d, 1));
    XorLane(l[x][y], Xor(c, Rol64(d, 1)));
    BitXor(l[x][y], Xor(c, Rol64(d, 1)), z);
    BitXor(c, Rol64(d, 1), z);
    BitAt(l, x, y, z);
    ColumnWraps(s, x, z);
    AtBuild((x, y, z) => At(s, x, y, z) != (Column(s, x - 1, z) != Column(s, x + 1, z - 1)), x, y, z);
  }

  // Lanes whose bits are those of a state.
  lemma Represents(l: Lanes, s: State)
    requires IsLanes(l)
    requires forall x, y, z :: 0 <= x < 5 && 0 <= y < 5 && 0 <= z < 64 ==> Bit(l[x][y], z) == At(s, x, y, z)
    ensures BitsOf(l) == s
  {
    hide Bit, BitsOf, At;
    forall x, y, z | 0 <= x < 5 && 0 <= y < 5 && 0 <= z < 64 ensures At(BitsOf(l), x, y, z) == At(s, x, y, z) {
      BitAt(l, x, y, z);
    }
    SameState(BitsOf(l), s);
  }

  lemma ColumnLaneWraps(l: Lanes, x: int)
    requires IsLanes(l)
    ensures ColumnLane(l, x) == ColumnLane(l, x % 5)
  {
    assert x % 5 % 5 == x % 5;
  }

  lemma MixIs(l: Lanes, x: int, c: seq<nat>)
    requires IsLanes(l) && 0 <= x < 5 && |c| == 5 && forall k :: 0 <= k < 5 ==> c[k] == ColumnLane(l, k)
    ensures ThetaMix(l, x) == Xor(c[(x + 4) % 5], Rol64(c[(x + 1) % 5], 1))
  {
    hide ColumnLane, Xor, Rol64, IsLanes;
    ColumnLaneWraps(l, x + 4);
    ColumnLaneWraps(l, x + 1);
  }

  lemma LaneIs(l: Lanes, x: int, y: int)
    requires IsLanes(l) && 0 <= x < 5 && 0 <= y < 5
    ensures ThetaLane(l, x, y) == Xor(l[x][y], ThetaMix(l, x))
  {
  }

  lemma ThetaLanes(lanes: Lanes, out: Lanes)
    requires IsLanes(lanes) && |out| == 5 && forall x :: 0 <= x < 5 ==> |out[x]| == 5
    requires forall x, y :: 0 <= x < 5 && 0 <= y < 5 ==> out[x][y] == ThetaLane(lanes, x, y)
    ensures IsLanes(out) && BitsOf(out) == Theta(BitsOf(lanes))
  {
    hide Bit, BitsOf, ThetaLane, At, Theta;
    forall x, y | 0 <= x < 5 && 0 <= y < 5 ensures out[x][y] < TWO64 {
      ThetaBit(lanes, x, y, 0);
    }
    forall x, y, z | 0 <= x < 5 && 0 <= y < 5 && 0 <= z < 64
        ensures Bit(out[x][y], z) == At(Theta(BitsOf(lanes)), x, y, z) {
      ThetaBit(lanes, x, y, z);
    }
    Represents(out, Theta(BitsOf(lanes)));
  }

  method ThetaStep(lanes: Lanes) returns (out: Lanes)
    requires IsLanes(lanes)
    ensures IsLanes(out) && BitsOf(out) == Theta(BitsOf(lanes))
  {
    hide Bit, BitsOf, ColumnLane, Xor, Rol64, At, Theta, ThetaMix, ThetaLane;
    var c := seq(5, x => ColumnLane(lanes, x));
    var d := seq(5, x requires 0 <= x < 5 => Xor(c[(x + 4) % 5], Rol64(c[(x + 1) % 5], 1)));
    forall x | 0 <= x < 5 ensures d[x] == ThetaMix(lanes, x) {
      MixIs(lanes, x, c);
    }
    out := seq(5, x requires 0 <= x < 5 => seq(5, y requires 0 <= y < 5 => Xor(lanes[x][y], d[x])));
    forall x, y | 0 <= x < 5 && 0 <= y < 5 ensures out[x][y] == ThetaLane(lanes, x, y) {
      LaneIs(lanes, x, y);
    }
    ThetaLanes(lanes, out);
  }

  // ---------------------------------------------------------------- rho and pi

  // Where the walk is after t steps, and after how many steps it first comes to a lane.
  const VISITS: seq<(int, int)> := [
    (1, 0), (0, 2), (2, 1), (1, 2), (2, 3), (3, 3), (3, 0), (0, 1), (1, 3), (3, 1), (1, 4), (4, 4), (4, 0),
    (0, 3), (3, 4), (4, 3), (3, 2), (2, 2), (2, 0), (0, 4), (4, 2), (2, 4), (4, 1), (1, 1), (1, 0)]

  const INDEX: seq<nat> := [0, 7, 1, 13, 19, 24, 23, 3, 8, 10, 18, 2, 17, 4, 21, 6, 9, 16, 5, 14, 12, 22, 20, 15, 11]

  function Place(t: nat): (int, int)
    requires t <= 24
  {
    VISITS[t]
  }

  function StepOf(x: int, y: int): nat
    requires 0 <= x < 5 && 0 <= y < 5
  {
    INDEX[5 * x + y]
  }

  lemma VisitNext(t: nat)
    requires t >= 1
    ensures var (x, y) := Visit(t - 1); Visit(t) == (y, (2 * x + 3 * y) % 5)
  {
  }

  lemma VisitStep(t: nat)
    requires 1 <= t <= 24
    ensures var (x, y) := Place(t - 1); Place(t) == (y, (2 * x + 3 * y) % 5)
  {
  }

  lemma FirstPlace()
    ensures Place(0) == (1, 0) == Visit(0) && StepOf(0, 0) == 0
  {
  }

  lemma {:induction false} VisitTable(t: nat)
    requires t <= 24
    ensures Visit(t) == Place(t)
  {
    hide Place, Visit;
    if t == 0 {
      FirstPlace();
    } else {
      VisitTable(t - 1);
      VisitNext(t);
      VisitStep(t);
    }
  }

  lemma VisitBounds(t: nat)
    requires t <= 24
    ensures var (x, y) := Place(t); 0 <= x < 5 && 0 <= y < 5 && (x, y) != (0, 0) && (t >= 1 ==> StepOf(x, y) == t)
  {
  }

  lemma IndexInverse(x: int, y: int)
    requires 0 <= x < 5 && 0 <= y < 5 && (x, y) != (0, 0)
    ensures var t := StepOf(x, y); 1 <= t <= 24 && Place(t) == (x, y)
  {
  }

  // The lane that ends at (x, y): rotated from the previous place of the walk.
  function Moved(l: Lanes, x: int, y: int): nat
    requires IsLanes(l) && 0 <= x < 5 && 0 <= y < 5
  {
    if (x, y) == (0, 0) then l[0][0] else
      IndexInverse(x, y);
      var t := StepOf(x, y);
      VisitBounds(t - 1);
      var (px, py) := Place(t - 1);
      Rol64(l[px][py], Triangle(t - 1))
  }

  lemma OffsetZero(t: nat)
    requires t <= 24
    ensures OffsetFrom(0, 0, t) == 0
    decreases 24 - t
  {
    if t < 24 {
      VisitTable(t);
      VisitBounds(t);
      OffsetZero(t + 1);
    }
  }

  lemma {:induction false} OffsetVisited(x: int, y: int, t: nat, n: nat)
    requires t <= n < 24 && Visit(n) == (x, y)
    requires forall k :: t <= k < n ==> Visit(k) != (x, y)
    ensures OffsetFrom(x, y, t) == Triangle(n)
    decreases n - t
  {
    if t < n {
      OffsetVisited(x, y, t + 1, n);
    }
  }

  lemma VisitsDiffer(k: nat, n: nat)
    requires k < n <= 24 && (k, n) != (0, 24)
    ensures Place(k) != Place(n)
  {
    VisitBounds(n);
    if k > 0 {
      VisitBounds(k);
    } else {
      assert StepOf(1, 0) == 24;
    }
  }

  lemma OffsetAt(n: nat)
    requires n < 24
    ensures var (x, y) := Place(n); OffsetFrom(x, y, 0) == Triangle(n)
  {
    VisitTable(n);
    forall k | 0 <= k < n ensures Visit(k) != Visit(n) {
      VisitTable(k);
      VisitsDiffer(k, n);
    }
    OffsetVisited(Place(n).0, Place(n).1, 0, n);
  }

  lemma PiOfStep(x: int, y: int)
    requires 0 <= x < 5 && 0 <= y < 5
    ensures (y + 3 * ((2 * x + 3 * y) % 5)) % 5 == x
  {
    assert y + 3 * (2 * x + 3 * y) == 5 * (x + 2 * y) + x;
  }

  // The place of the walk before (x, y) is the one pi moves there.
  lemma PiInverse(x: int, y: int)
    requires 0 <= x < 5 && 0 <= y < 5 && (x, y) != (0, 0)
    ensures var t := StepOf(x, y); 1 <= t <= 24 && Place(t - 1) == ((x + 3 * y) % 5, x)
  {
    hide Place, StepOf;
    IndexInverse(x, y);
    VisitStep(StepOf(x, y));
    VisitBounds(StepOf(x, y) - 1);
    var (px, py) := Place(StepOf(x, y) - 1);
    PiOfStep(px, py);
  }

  lemma AtWrapsX(s: State, x: int, y: int, z: int)
    ensures At(s, x % 5, y, z) == At(s, x, y, z)
  {
  }

  lemma PiAt(s: State, x: int, y: int, z: int)
    requires 0 <= x < 5 && 0 <= y < 5 && 0 <= z < 64
    ensures At(Pi(s), x, y, z) == At(s, (x + 3 * y) % 5, x, z)
  {
    hide At;
    AtWrapsX(s, x + 3 * y, x, z);
    AtBuild((x, y, z) => At(s, x + 3 * y, x, z), x, y, z);
  }

  lemma RhoAt(s: State, x: int, y: int, z: int)
    requires 0 <= x < 5 && 0 <= y < 5 && 0 <= z < 64
    ensures At(Rho(s), x, y, z) == At(s, x, y, z - OffsetFrom(x, y, 0))
  {
    hide OffsetFrom;
    AtBuild((x, y, z) => At(s, x, y, z - OffsetFrom(x, y, 0)), x, y, z);
  }

  lemma AtWraps(s: State, x: int, y: int, z: int)
    ensures At(s, x, y, z % 64) == At(s, x, y, z)
  {
  }

  lemma MovedBit(l: Lanes, x: int, y: int, z: int)
    requires IsLanes(l) && 0 <= x < 5 && 0 <= y < 5 && 0 <= z < 64
    ensures Moved(l, x, y) < TWO64
    ensures Bit(Moved(l, x, y), z) == At(Pi(Rho(BitsOf(l))), x, y, z)
  {
    hide Bit, BitsOf, At, Rol64, OffsetFrom, Triangle, Rho;
    var s := BitsOf(l);
    var (px, py) := ((x + 3 * y) % 5, x);
    PiAt(Rho(s), x, y, z);
    RhoAt(s, px, py, z);
    if (x, y) == (0, 0) {
      OffsetZero(0);
      BitAt(l, 0, 0, z);
    } else {
      PiInverse(x, y);
      var t := StepOf(x, y);
      OffsetAt(t - 1);
      BitRol(l[px][py], Triangle(t - 1), z);
      BitAt(l, px, py, (z - Triangle(t - 1)) % 64);
      AtWraps(s, px, py, z - Triangle(t - 1));
    }
  }

  // The first t lanes of the walk have been moved and no others.
  predicate Progress(lanes: Lanes, out: Lanes, t: nat) {
    && IsLanes(lanes) && IsLanes(out)
    && forall a, b :: 0 <= a < 5 && 0 <= b < 5 ==>
         out[a][b] == if 1 <= StepOf(a, b) <= t then Moved(lanes, a, b) else lanes[a][b]
  }

  lemma NothingMoved(lanes: Lanes)
    requires IsLanes(lanes)
    ensures Progress(lanes, lanes, 0)
  {
  }

  lemma NotYetMoved(lanes: Lanes, out: Lanes, t: nat, x: int, y: int)
    requires Progress(lanes, out, t) && 0 <= x < 5 && 0 <= y < 5 && StepOf(x, y) == t + 1
    ensures out[x][y] == lanes[x][y]
  {
    hide StepOf, Moved;
  }

  lemma MovedIs(lanes: Lanes, x: int, y: int, t: nat)
    requires IsLanes(lanes) && t < 24 && 0 <= x < 5 && 0 <= y < 5 && StepOf(x, y) == t + 1
    requires var (px, py) := Place(t); 0 <= px < 5 && 0 <= py < 5
    ensures Moved(lanes, x, y) == Rol64(lanes[Place(t).0][Place(t).1], Triangle(t))
  {
    hide Place, Rol64, Triangle, StepOf;
    FirstPlace();
  }

  lemma StepsDiffer(t: nat, x: int, y: int)
    requires t < 24 && Place(t + 1) == (x, y)
    ensures forall a, b :: 0 <= a < 5 && 0 <= b < 5 && StepOf(a, b) == t + 1 ==> (a, b) == (x, y)
  {
    hide StepOf, Place;
    FirstPlace();
    forall a, b | 0 <= a < 5 && 0 <= b < 5 && StepOf(a, b) == t + 1 ensures (a, b) == (x, y) {
      IndexInverse(a, b);
    }
  }

  lemma ProgressStep(lanes: Lanes, out: Lanes, t: nat, x: int, y: int, rotated: nat)
    requires Progress(lanes, out, t) && t < 24
    requires 0 <= x < 5 && 0 <= y < 5 && Place(t + 1) == (x, y) && StepOf(x, y) == t + 1
    requires var (px, py) := Place(t); 0 <= px < 5 && 0 <= py < 5 && rotated == Rol64(lanes[px][py], Triangle(t))
    ensures Progress(lanes, SetLane(out, x, y, rotated), t + 1)
  {
    hide StepOf, Place, Rol64, Triangle, Moved;
    StepsDiffer(t, x, y);
    MovedIs(lanes, x, y, t);
  }

  lemma MovedOrigin(lanes: Lanes)
    requires IsLanes(lanes)
    ensures Moved(lanes, 0, 0) == lanes[0][0]
  {
  }

  lemma AllMoved(lanes: Lanes, out: Lanes)
    requires Progress(lanes, out, 24)
    ensures BitsOf(out) == Pi(Rho(BitsOf(lanes)))
  {
    hide Bit, BitsOf, At, Pi, Rho, Moved, StepOf, Place;
    FirstPlace();
    forall a, b, z | 0 <= a < 5 && 0 <= b < 5 && 0 <= z < 64
        ensures Bit(out[a][b], z) == At(Pi(Rho(BitsOf(lanes))), a, b, z) {
      MovedBit(lanes, a, b, z);
      if (a, b) != (0, 0) {
        IndexInverse(a, b);
      } else {
        MovedOrigin(lanes);
      }
    }
    Represents(out, Pi(Rho(BitsOf(lanes))));
  }

  // One in-place pass rotates and moves every lane: rho followed by pi.
  method RotateAndMove(lanes: Lanes) returns (out: Lanes)
    requires IsLanes(lanes)
    ensures IsLanes(out) && BitsOf(out) == Pi(Rho(BitsOf(lanes)))
  {
    hide Bit, BitsOf, At, Rol64, Pi, Rho, Triangle, Place, StepOf, Moved;
    FirstPlace();
    NothingMoved(lanes);
    out := lanes;
    var x, y := 1, 0;
    var current := out[x][y];
    for t := 0 to 24
      invariant Place(t) == (x, y) && 0 <= x < 5 && 0 <= y < 5
      invariant current == lanes[x][y]
      invariant Progress(lanes, out, t)
    {
      VisitStep(t + 1);
      VisitBounds(t + 1);
      x, y := y, (2 * x + 3 * y) % 5;
      var rotated := Rol64(current, Triangle(t));
      NotYetMoved(lanes, out, t, x, y);
      current := out[x][y];
      ProgressStep(lanes, out, t, x, y, rotated);
      out := SetLane(out, x, y, rotated);
    }
    AllMoved(lanes, out);
  }

  // ---------------------------------------------------------------- chi

  function ChiLane(l: Lanes, x: int, y: int): nat
    requires IsLanes(l) && 0 <= x < 5 && 0 <= y < 5
  {
    Xor(l[x][y], AndNot(l[(x + 1) % 5][y], l[(x + 2) % 5][y]))
  }

  lemma ChiBound(l: Lanes, x: int, y: int)
    requires IsLanes(l) && 0 <= x < 5 && 0 <= y < 5
    ensures ChiLane(l, x, y) < TWO64
  {
    hide Xor, AndNot;
    AndNotBound(l[(x + 1) % 5][y], l[(x + 2) % 5][y]);
    XorLane(l[x][y], AndNot(l[(x + 1) % 5][y], l[(x + 2) % 5][y]));
  }

  lemma ChiBit(l: Lanes, x: int, y: int, z: int)
    requires IsLanes(l) && 0 <= x < 5 && 0 <= y < 5 && 0 <= z < 64
    ensures Bit(ChiLane(l, x, y), z) == At(Chi(BitsOf(l)), x, y, z)
  {
    hide Bit, BitsOf, Xor, AndNot, At;
    var s := BitsOf(l);
    var (a, b, c) := (l[x][y], l[(x + 1) % 5][y], l[(x + 2) % 5][y]);
    BitXor(a, AndNot(b, c), z);
    BitAndNot(b, c, z);
    BitAt(l, x, y, z);
    BitAt(l, (x + 1) % 5, y, z);
    BitAt(l, (x + 2) % 5, y, z);
    AtWrapsX(s, x + 1, y, z);
    AtWrapsX(s, x + 2, y, z);
    AtBuild((x, y, z) => At(s, x, y, z) != (!At(s, x + 1, y, z) && At(s, x + 2, y, z)), x, y, z);
  }

  method ChiStep(lanes: Lanes) returns (out: Lanes)
    requires IsLanes(lanes)
    ensures IsLanes(out) && BitsOf(out) == Chi(BitsOf(lanes))
  {
    hide Bit, BitsOf, Xor, AndNot, At, Chi;
    out := lanes;
    for y := 0 to 5
      invariant IsLanes(out)
      invariant forall a, b :: 0 <= a < 5 && 0 <= b < 5 ==>
          out[a][b] == if b < y then ChiLane(lanes, a, b) else lanes[a][b]
    {
      var t := seq(5, x requires 0 <= x < 5 => out[x][y]);
      for x := 0 to 5
        invariant IsLanes(out)
        invariant forall a, b :: 0 <= a < 5 && 0 <= b < 5 ==>
          out[a][b] == if b < y || (b == y && a < x) then ChiLane(lanes, a, b) else lanes[a][b]
      {
        ChiBound(lanes, x, y);
        var lane: nat := Xor(t[x], AndNot(t[(x + 1) % 5], t[(x + 2) % 5]));
        out := SetLane(out, x, y, lane);
      }
    }
    forall a, b, z | 0 <= a < 5 && 0 <= b < 5 && 0 <= z < 64
        ensures Bit(out[a][b], z) == At(Chi(BitsOf(lanes)), a, b, z) {
      ChiBit(lanes, a, b, z);
    }
    Represents(out, Chi(BitsOf(lanes)));
  }

  // ---------------------------------------------------------------- iota

  // The register of the round constants as a number, bit k for element k.
  predicate IsRegister(r: nat, n: nat) {
    r < 256 && forall k :: 0 <= k < 8 ==> Bit(r, k) == Register(n)[k]
  }

  function NextRegister(r: nat): nat {
    Xor(2 * r, r / 128 * 0x71) % 256
  }

  lemma Bit71(k: nat)
    requires k < 8
    ensures Bit(0x71, k) <==> k == 0 || k == 4 || k == 5 || k == 6
  {
    assert Bit(56, 0) == false && Bit(28, 0) == false && Bit(14, 0) == false && Bit(7, 0) && Bit(3, 0) && Bit(1, 0)
        && !Bit(0, 0);
    assert k >= 1 ==> Bit(0x71, k) == Bit(56, k - 1);
    assert k >= 2 ==> Bit(56, k - 1) == Bit(28, k - 2);
    assert k >= 3 ==> Bit(28, k - 2) == Bit(14, k - 3);
    assert k >= 4 ==> Bit(14, k - 3) == Bit(7, k - 4);
    assert k >= 5 ==> Bit(7, k - 4) == Bit(3, k - 5);
    assert k >= 6 ==> Bit(3, k - 5) == Bit(1, k - 6);
    assert k >= 7 ==> Bit(1, k - 6) == Bit(0, k - 7);
  }

  lemma Pow1()
    ensures Pow2(1) == 2
  {
  }

  lemma BitOne(top: nat)
    requires top < 2
    ensures Bit(top, 0) <==> top == 1
  {
  }

  lemma RegisterBit(r: nat, k: nat)
    requires r < 256 && k < 8
    ensures Bit(NextRegister(r), k) == ((k > 0 && Bit(r, k - 1)) != (Bit(r, 7) && Bit(0x71, k)))
  {
    hide Bit, Xor;
    var top := r / 128;
    var v := Xor(2 * r, top * 0x71);
    Pow2Values();
    BitSplit(v, 8);
    BitConcat(v % 256, v / 256, 8, k);
    BitXor(2 * r, top * 0x71, k);
    BitSplit(r, 7);
    BitConcat(r % 128, top, 7, 7);
    Pow1();
    BitConcat(0, r, 1, k);
    BitZero(k);
    BitOne(top);
  }

  lemma NextBound(r: nat)
    ensures NextRegister(r) < 256
  {
  }

  lemma NextIsRegister(r: nat, n: nat)
    requires IsRegister(r, n)
    ensures IsRegister(NextRegister(r), n + 1)
    ensures Bit(NextRegister(r), 1) == Register(n)[0]
  {
    hide Bit, NextRegister;
    NextBound(r);
    forall k | 0 <= k < 8 ensures Bit(NextRegister(r), k) == Register(n + 1)[k] {
      RegisterBit(r, k);
      Bit71(k);
    }
  }

  predicate ConstantUpTo(round: nat, z: int, n: nat) {
    exists j: nat :: j < n && z == Pow2(j) - 1 && Rc(j + 7 * round)
  }

  lemma Pow2Less(m: nat, n: nat)
    requires m < n
    ensures Pow2(m) < Pow2(n)
  {
    Pow2Monotonic(m + 1, n);
  }

  lemma ConstantNext(round: nat, z: int, n: nat)
    ensures ConstantUpTo(round, z, n + 1) == (ConstantUpTo(round, z, n) != (z == Pow2(n) - 1 && Rc(n + 7 * round)))
  {
    if z == Pow2(n) - 1 {
      forall j: nat | j < n ensures Pow2(j) != Pow2(n) {
        Pow2Less(j, n);
      }
    }
    if z == Pow2(n) - 1 && Rc(n + 7 * round) {
      assert ConstantUpTo(round, z, n + 1);
    }
  }

  predicate SameElsewhere(lanes: Lanes, out: Lanes) {
    && IsLanes(lanes) && IsLanes(out)
    && forall a, b :: 0 <= a < 5 && 0 <= b < 5 && (a, b) != (0, 0) ==> out[a][b] == lanes[a][b]
  }

  lemma FirstLaneSet(lanes: Lanes, out: Lanes, lane: nat)
    requires SameElsewhere(lanes, out) && lane < TWO64
    ensures SameElsewhere(lanes, SetLane(out, 0, 0, lane)) && SetLane(out, 0, 0, lane)[0][0] == lane
  {
  }

  lemma SameAtStart(lanes: Lanes)
    requires IsLanes(lanes)
    ensures SameElsewhere(lanes, lanes)
  {
  }

  // The lane with the first n bits of the round constant xored in.
  predicate HoldsConstant(before: nat, after: nat, round: nat, n: nat) {
    forall z :: 0 <= z < 64 ==> Bit(after, z) == (Bit(before, z) != ConstantUpTo(round, z, n))
  }

  lemma ConstantXored(before: nat, lane: nat, round: nat, j: nat)
    requires HoldsConstant(before, lane, round, j)
    ensures var after := if Rc(j + 7 * round) then Xor(lane, Pow2(Pow2(j) - 1)) else lane;
            HoldsConstant(before, after, round, j + 1)
  {
    hide Bit, Xor, Pow2, Rc, ConstantUpTo;
    var after := if Rc(j + 7 * round) then Xor(lane, Pow2(Pow2(j) - 1)) else lane;
    forall z | 0 <= z < 64 ensures Bit(after, z) == (Bit(before, z) != ConstantUpTo(round, z, j + 1)) {
      ConstantNext(round, z, j);
      BitXor(lane, Pow2(Pow2(j) - 1), z);
      BitPow2(Pow2(j) - 1, z);
    }
  }

  lemma IotaAt(s: State, round: nat, x: int, y: int, z: int)
    requires 0 <= x < 5 && 0 <= y < 5 && 0 <= z < 64
    ensures At(Iota(s, round), x, y, z) == if (x, y) == (0, 0) then At(s, 0, 0, z) != ConstantUpTo(round, z, 7)
        else At(s, x, y, z)
  {
    hide At;
    AtBuild((x, y, z) => if x == 0 && y == 0 then At(s, 0, 0, z) != RoundConstant(round, z)
        else At(s, x, y, z), x, y, z);
  }

  lemma IotaLanes(lanes: Lanes, out: Lanes, round: nat)
    requires SameElsewhere(lanes, out)
    requires HoldsConstant(lanes[0][0], out[0][0], round, 7)
    ensures BitsOf(out) == Iota(BitsOf(lanes), round)
  {
    hide Bit, BitsOf, At, Iota, ConstantUpTo;
    forall a, b, z | 0 <= a < 5 && 0 <= b < 5 && 0 <= z < 64
        ensures Bit(out[a][b], z) == At(Iota(BitsOf(lanes), round), a, b, z) {
      IotaAt(BitsOf(lanes), round, a, b, z);
      BitAt(lanes, a, b, z);
    }
    Represents(out, Iota(BitsOf(lanes), round));
  }

  lemma ConstantStart(lane: nat, round: nat)
    ensures HoldsConstant(lane, lane, round, 0)
  {
  }

  lemma RcSmall(t: nat)
    requires t < 255
    ensures Rc(t) == Register(t)[0]
  {
    hide Register;
    assert t % 255 == t;
  }

  lemma ShiftBound(j: nat)
    requires j < 7
    ensures Pow2(Pow2(j) - 1) < TWO64
  {
    Pow2Values();
    Pow2Less(j, 7);
    assert Pow2(6) == 64;
    if j < 6 {
      Pow2Less(j, 6);
    }
    Pow2Less(Pow2(j) - 1, 64);
  }

  method IotaStep(lanes: Lanes, register: nat, ghost round: nat) returns (out: Lanes, r: nat)
    requires IsLanes(lanes) && round < 24 && IsRegister(register, 7 * round)
    ensures IsLanes(out) && BitsOf(out) == Iota(BitsOf(lanes), round)
    ensures IsRegister(r, 7 * (round + 1))
  {
    hide Bit, BitsOf, Xor, At, Iota, IsRegister, NextRegister, Pow2, HoldsConstant, SameElsewhere, SetLane;
    out, r := lanes, register;
    ConstantStart(lanes[0][0], round);
    SameAtStart(lanes);
    for j := 0 to 7
      invariant IsLanes(out) && IsRegister(r, j + 7 * round)
      invariant SameElsewhere(lanes, out)
      invariant HoldsConstant(lanes[0][0], out[0][0], round, j)
    {
      NextIsRegister(r, j + 7 * round);
      RcSmall(j + 7 * round);
      r := NextRegister(r);
      ConstantXored(lanes[0][0], out[0][0], round, j);
      if Bit(r, 1) {
        ShiftBound(j);
        XorLane(out[0][0], Pow2(Pow2(j) - 1));
        var lane: nat := Xor(out[0][0], Pow2(Pow2(j) - 1));
        FirstLaneSet(lanes, out, lane);
        out := SetLane(out, 0, 0, lane);
      }
    }
    IotaLanes(lanes, out, round);
  }

  // ---------------------------------------------------------------- the permutation

  lemma RegisterOne()
    ensures IsRegister(1, 0)
  {
    forall k | 0 <= k < 8 ensures Bit(1, k) == (k == 0) {
      BitPow2(0, k);
    }
  }

  method KeccakF(input: Lanes) returns (lanes: Lanes)
    requires IsLanes(input)
    ensures IsLanes(lanes) && BitsOf(lanes) == Permutation(BitsOf(input))
  {
    hide BitsOf, Theta, Rho, Pi, Chi, Iota, IsRegister;
    lanes := input;
    var register := 1;
    RegisterOne();
    for round := 0 to 24
      invariant IsLanes(lanes) && BitsOf(lanes) == Rounds(BitsOf(input), round)
      invariant IsRegister(register, 7 * round)
    {
      lanes := ThetaStep(lanes);
      lanes := RotateAndMove(lanes);
      lanes := ChiStep(lanes);
      lanes, register := IotaStep(lanes, register, round);
    }
  }
}
