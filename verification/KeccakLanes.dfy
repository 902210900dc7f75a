/** What one lane operation does to the bit state of FIPS 202: the steps of the lane code,
    each shown to be the step mapping it stands for. */
module KeccakLanes {
  import opened PyInt
  import opened KeccakTables
  import S = KeccakSpec
  import Steps = KeccakBijection

  /** The 5 by 5 list of lanes, indexed [x][y]. */
  type Lanes = g: seq<seq<int>> | |g| == 5 && forall x :: 0 <= x < 5 ==> |g[x]| == 5
    witness seq(5, _ => seq(5, _ => 0))

  predicate IsLane(n: int) { 0 <= n < Power(S.LANE) }

  /** Every lane stays below 2^64. */
  predicate Bounded(g: Lanes) {
    forall x, y :: 0 <= x < 5 && 0 <= y < 5 ==> IsLane(g[x][y])
  }

  const LANE_MASK: int := Power(S.LANE) - 1

  function LaneAt(g: Lanes, x: int, y: int): int { g[x % 5][y % 5] }

  function BitAt(g: Lanes, x: int, y: int, z: int): bool { Bit(LaneAt(g, x, y), z % S.LANE) }

  /** The 1600-bit state the lanes stand for. */
  function BitsOf(g: Lanes): S.State {
    S.Tabulate((x: int, y: int, z: int) => BitAt(g, x, y, z))
  }

  lemma SameLanes(g: Lanes, h: Lanes)
    requires forall x, y :: 0 <= x < 5 && 0 <= y < 5 ==> g[x][y] == h[x][y]
    ensures g == h
  {
    assert forall x :: 0 <= x < 5 ==> g[x] == h[x];
  }

  lemma AtBitsOf(g: Lanes, x: int, y: int, z: int)
    ensures S.At(BitsOf(g), x, y, z) == BitAt(g, x, y, z)
  {
    hide S.At, S.Tabulate, Bit;
    S.AtTabulate((x: int, y: int, z: int) => BitAt(g, x, y, z), x, y, z);
  }

  // ---- One lane -------------------------------------------------------------

  /** keccak.py's _rotate. */
  function Rotate(lane: int, places: int): int {
    var p := places % S.LANE;
    Bitwise(And, Bitwise(Or, Shl(lane, p), Shr(lane, S.LANE - p)), LANE_MASK)
  }

  /** The code's rotation on unbounded integers is the cyclic shift of a 64-bit lane. */
  lemma RotateBits(lane: int, places: int, z: nat)
    requires IsLane(lane) && z < S.LANE
    ensures IsLane(Rotate(lane, places))
    ensures Bit(Rotate(lane, places), z) == Bit(lane, (z - places) % S.LANE)
  {
    hide Bit, Bitwise, Shl, Shr, Power;
    var p := places % S.LANE;
    var up, down := Shl(lane, p), Shr(lane, S.LANE - p);
    MaskBounds(Bitwise(Or, up, down), S.LANE);
    BitwiseBit(And, Bitwise(Or, up, down), LANE_MASK, z);
    MaskBit(S.LANE, z);
    BitwiseBit(Or, up, down, z);
    ShlBit(lane, p, z);
    ShrBit(lane, S.LANE - p, z);
    if z < p {
      RotateIndex(z, p, places);
    } else {
      RotateIndexHigh(z, p, places);
      HighBitsClear(lane, S.LANE, z + S.LANE - p);
    }
  }

  lemma RotateIndex(z: nat, p: nat, places: int)
    requires z < p < S.LANE && p == places % S.LANE
    ensures (z - places) % S.LANE == z + S.LANE - p
  {
  }

  lemma RotateIndexHigh(z: nat, p: nat, places: int)
    requires p <= z < S.LANE && p == places % S.LANE
    ensures (z - places) % S.LANE == z - p
  {
  }

  function XorLane(a: int, b: int): int { Bitwise(Xor, a, b) }

  lemma XorLaneBits(a: int, b: int, z: nat)
    ensures Bit(XorLane(a, b), z) == (Bit(a, z) != Bit(b, z))
    ensures IsLane(a) && IsLane(b) ==> IsLane(XorLane(a, b))
  {
    hide Bit, Bitwise, Power;
    BitwiseBit(Xor, a, b, z);
    if IsLane(a) && IsLane(b) {
      BitwiseBounds(Xor, a, b, S.LANE);
    }
  }

  // ---- Theta ----------------------------------------------------------------

  function ColumnLane(g: Lanes, x: int): int {
    XorLane(XorLane(XorLane(XorLane(LaneAt(g, x, 0), LaneAt(g, x, 1)), LaneAt(g, x, 2)), LaneAt(g, x, 3)), LaneAt(g, x, 4))
  }

  function EffectLane(g: Lanes, x: int): int {
    XorLane(ColumnLane(g, x - 1), Rotate(ColumnLane(g, x + 1), 1))
  }

  lemma ColumnLaneBits(g: Lanes, x: int, z: nat)
    requires Bounded(g) && z < S.LANE
    ensures IsLane(ColumnLane(g, x))
    ensures Bit(ColumnLane(g, x), z) == S.Column(BitsOf(g), x, z)
  {
    hide Bit, XorLane, IsLane, BitsOf, S.At;
    AtBitsOf(g, x, 0, z);
    AtBitsOf(g, x, 1, z);
    AtBitsOf(g, x, 2, z);
    AtBitsOf(g, x, 3, z);
    AtBitsOf(g, x, 4, z);
    var c1 := XorLane(LaneAt(g, x, 0), LaneAt(g, x, 1));
    var c2 := XorLane(c1, LaneAt(g, x, 2));
    var c3 := XorLane(c2, LaneAt(g, x, 3));
    XorLaneBits(LaneAt(g, x, 0), LaneAt(g, x, 1), z);
    XorLaneBits(c1, LaneAt(g, x, 2), z);
    XorLaneBits(c2, LaneAt(g, x, 3), z);
    XorLaneBits(c3, LaneAt(g, x, 4), z);
  }

  lemma EffectLaneBits(g: Lanes, x: int, z: nat)
    requires Bounded(g) && z < S.LANE
    ensures IsLane(EffectLane(g, x))
    ensures Bit(EffectLane(g, x), z) == S.Effect(BitsOf(g), x, z)
  {
    hide Bit, XorLane, IsLane, BitsOf, S.Column, ColumnLane, Rotate, Bounded;
    ColumnLaneBits(g, x - 1, z);
    ColumnLaneBits(g, x + 1, (z - 1) % S.LANE);
    RotateBits(ColumnLane(g, x + 1), 1, z);
    XorLaneBits(ColumnLane(g, x - 1), Rotate(ColumnLane(g, x + 1), 1), z);
    ColumnWraps(BitsOf(g), x + 1, z - 1);
  }

  lemma ColumnWraps(s: S.State, x: int, z: int)
    ensures S.Column(s, x, z % S.LANE) == S.Column(s, x, z)
  {
    hide S.At;
    forall y | 0 <= y < 5
      ensures S.At(s, x, y, z % S.LANE) == S.At(s, x, y, z)
    {
      S.AtWraps(s, x, y, z % S.LANE, x, y, z);
    }
  }

  lemma ThetaRefines(g: Lanes, h: Lanes)
    requires Bounded(g)
    requires forall x, y :: 0 <= x < 5 && 0 <= y < 5 ==> h[x][y] == XorLane(g[x][y], EffectLane(g, x))
    ensures Bounded(h) && BitsOf(h) == S.Theta(BitsOf(g))
  {
    hide Bit, XorLane, IsLane, BitsOf, S.At, S.Theta, S.Effect, EffectLane;
    forall x, y, z | 0 <= x < 5 && 0 <= y < 5 && 0 <= z < S.LANE
      ensures IsLane(h[x][y]) && S.At(BitsOf(h), x, y, z) == S.At(S.Theta(BitsOf(g)), x, y, z)
    {
      AtBitsOf(h, x, y, z);
      AtBitsOf(g, x, y, z);
      Steps.AtTheta(BitsOf(g), x, y, z);
      EffectLaneBits(g, x, z);
      XorLaneBits(g[x][y], EffectLane(g, x), z);
    }
    assert forall x, y :: 0 <= x < 5 && 0 <= y < 5 ==> S.At(BitsOf(h), x, y, 0) == S.At(S.Theta(BitsOf(g)), x, y, 0) && IsLane(h[x][y]);
    S.SameCells(BitsOf(h), S.Theta(BitsOf(g)));
  }

  // ---- Rho and pi -----------------------------------------------------------

  /** The lane that rho and pi move to (u, v), and where it came from. */
  function SourceX(u: int, v: int): int { (3 * v + u) % 5 }

  function MovedLane(g: Lanes, u: int, v: int): int
    requires 0 <= u < 5
  {
    Rotate(LaneAt(g, SourceX(u, v), u), ROTATIONS[SourceX(u, v)][u])
  }

  /** (x, y) goes to (y, 2x + 3y), and that destination has no other source. */
  lemma OneSource(x: int, y: int, v: int)
    requires 0 <= x < 5 && 0 <= y < 5 && 0 <= v < 5
    ensures SourceX(y, v) == x <==> v == (2 * x + 3 * y) % 5
  {
    if SourceX(y, v) == x {
      var k := (3 * v + y) / 5;
      assert 2 * x + 3 * y == v + 5 * (v + y - 2 * k);
      Remainder(2 * x + 3 * y, v, v + y - 2 * k);
    }
    if v == (2 * x + 3 * y) % 5 {
      var q := (2 * x + 3 * y) / 5;
      assert 3 * v + y == x + 5 * (x + 2 * y - 3 * q);
      Remainder(3 * v + y, x, x + 2 * y - 3 * q);
    }
  }

  lemma Remainder(a: int, r: int, k: int)
    requires a == r + 5 * k && 0 <= r < 5
    ensures a % 5 == r
  {
  }

  lemma OnlySource(x: int, y: int)
    requires 0 <= x < 5 && 0 <= y < 5
    ensures forall v :: 0 <= v < 5 ==> (SourceX(y, v) == x <==> v == (2 * x + 3 * y) % 5)
  {
    hide SourceX;
    forall v | 0 <= v < 5
      ensures SourceX(y, v) == x <==> v == (2 * x + 3 * y) % 5
    {
      OneSource(x, y, v);
    }
  }

  lemma MovedFrom(g: Lanes, x: int, y: int)
    requires 0 <= x < 5 && 0 <= y < 5
    ensures |ROTATIONS| == 5 && |ROTATIONS[x]| == 5
    ensures MovedLane(g, y, (2 * x + 3 * y) % 5) == Rotate(g[x][y], ROTATIONS[x][y])
  {
    hide Rotate;
    OneSource(x, y, (2 * x + 3 * y) % 5);
  }

  lemma SourceBits(g: Lanes, u: int, v: int, z: nat)
    requires 0 <= u < 5 && z < S.LANE
    ensures S.At(S.Pi(S.Rho(BitsOf(g))), u, v, z)
         == BitAt(g, SourceX(u, v), u, z - S.Offset(SourceX(u, v), u))
  {
    hide BitAt, BitsOf, S.At, S.Rho, S.Pi, S.Offset;
    var x := SourceX(u, v);
    Steps.AtPi(S.Rho(BitsOf(g)), u, v, z);
    S.AtWraps(S.Rho(BitsOf(g)), u + 3 * v, u, z, x, u, z);
    Steps.AtRho(BitsOf(g), x, u, z);
    AtBitsOf(g, x, u, z - S.Offset(x, u));
  }

  lemma MovedLaneBits(g: Lanes, u: int, v: int, z: nat)
    requires Bounded(g) && 0 <= u < 5 && z < S.LANE
    ensures IsLane(MovedLane(g, u, v))
    ensures Bit(MovedLane(g, u, v), z) == S.At(S.Pi(S.Rho(BitsOf(g))), u, v, z)
  {
    hide Bit, IsLane, BitsOf, S.At, S.Rho, S.Pi, Rotate, S.Offset;
    var x := SourceX(u, v);
    SourceBits(g, u, v, z);
    RotationsAreGenerated(x, u);
    RotateBits(g[x][u], ROTATIONS[x][u], z);
    SameShift(z, ROTATIONS[x][u], S.Offset(x, u));
  }

  lemma RhoPiRefines(g: Lanes, h: Lanes)
    requires Bounded(g)
    requires forall u, v :: 0 <= u < 5 && 0 <= v < 5 ==> h[u][v] == MovedLane(g, u, v)
    ensures Bounded(h) && BitsOf(h) == S.Pi(S.Rho(BitsOf(g)))
  {
    hide Bit, IsLane, BitsOf, S.At, S.Rho, S.Pi, MovedLane;
    forall u, v, z | 0 <= u < 5 && 0 <= v < 5 && 0 <= z < S.LANE
      ensures IsLane(h[u][v]) && S.At(BitsOf(h), u, v, z) == S.At(S.Pi(S.Rho(BitsOf(g))), u, v, z)
    {
      AtBitsOf(h, u, v, z);
      MovedLaneBits(g, u, v, z);
    }
    assert forall x, y :: 0 <= x < 5 && 0 <= y < 5 ==> S.At(BitsOf(h), x, y, 0) == S.At(S.Pi(S.Rho(BitsOf(g))), x, y, 0) && IsLane(h[x][y]);
    S.SameCells(BitsOf(h), S.Pi(S.Rho(BitsOf(g))));
  }

  lemma SameShift(z: int, r: int, o: int)
    requires r == o % S.LANE
    ensures (z - r) % S.LANE == (z - o) % S.LANE
  {
  }

  // ---- Chi ------------------------------------------------------------------

  function ChiLane(a: int, b: int, c: int): int {
    XorLane(a, Bitwise(And, Bitwise(And, Not(b), LANE_MASK), c))
  }

  lemma ChiLaneBits(a: int, b: int, c: int, z: nat)
    requires IsLane(a) && IsLane(c) && z < S.LANE
    ensures IsLane(ChiLane(a, b, c))
    ensures Bit(ChiLane(a, b, c), z) == (Bit(a, z) != (!Bit(b, z) && Bit(c, z)))
  {
    hide Bit, Bitwise, Power, XorLane, Not;
    var n := Bitwise(And, Not(b), LANE_MASK);
    MaskBounds(Not(b), S.LANE);
    BitwiseBit(And, Not(b), LANE_MASK, z);
    MaskBit(S.LANE, z);
    NotBit(b, z);
    BitwiseBit(And, n, c, z);
    BitwiseBounds(And, n, c, S.LANE);
    XorLaneBits(a, Bitwise(And, n, c), z);
  }

  function ChiLaneAt(g: Lanes, x: int, y: int): int {
    ChiLane(LaneAt(g, x, y), LaneAt(g, x + 1, y), LaneAt(g, x + 2, y))
  }

  lemma ChiLaneAtBits(g: Lanes, x: int, y: int, z: nat)
    requires Bounded(g) && z < S.LANE
    ensures IsLane(ChiLaneAt(g, x, y))
    ensures Bit(ChiLaneAt(g, x, y), z) == S.At(S.Chi(BitsOf(g)), x, y, z)
  {
    hide Bit, IsLane, BitsOf, S.At, S.Chi, ChiLane;
    AtBitsOf(g, x, y, z);
    AtBitsOf(g, x + 1, y, z);
    AtBitsOf(g, x + 2, y, z);
    Steps.AtChi(BitsOf(g), x, y, z);
    ChiLaneBits(LaneAt(g, x, y), LaneAt(g, x + 1, y), LaneAt(g, x + 2, y), z);
  }

  lemma ChiRefines(g: Lanes, h: Lanes)
    requires Bounded(g)
    requires forall x, y :: 0 <= x < 5 && 0 <= y < 5 ==> h[x][y] == ChiLaneAt(g, x, y)
    ensures Bounded(h) && BitsOf(h) == S.Chi(BitsOf(g))
  {
    hide Bit, IsLane, BitsOf, S.At, S.Chi, ChiLaneAt;
    forall x, y, z | 0 <= x < 5 && 0 <= y < 5 && 0 <= z < S.LANE
      ensures IsLane(h[x][y]) && S.At(BitsOf(h), x, y, z) == S.At(S.Chi(BitsOf(g)), x, y, z)
    {
      AtBitsOf(h, x, y, z);
      ChiLaneAtBits(g, x, y, z);
    }
    assert forall x, y :: 0 <= x < 5 && 0 <= y < 5 ==> S.At(BitsOf(h), x, y, 0) == S.At(S.Chi(BitsOf(g)), x, y, 0) && IsLane(h[x][y]);
    S.SameCells(BitsOf(h), S.Chi(BitsOf(g)));
  }

  // ---- Iota -----------------------------------------------------------------

  lemma IotaRefines(g: Lanes, h: Lanes, ir: nat)
    requires Bounded(g) && ir < 24
    requires |ROUND_CONSTANTS| == 24
    requires forall x, y :: 0 <= x < 5 && 0 <= y < 5 ==>
               h[x][y] == if x == 0 && y == 0 then XorLane(g[0][0], ROUND_CONSTANTS[ir]) else g[x][y]
    ensures Bounded(h) && BitsOf(h) == S.Iota(BitsOf(g), ir)
  {
    hide Bit, IsLane, BitsOf, S.At, S.Iota, XorLane, S.RoundConstantBit;
    forall x, y, z | 0 <= x < 5 && 0 <= y < 5 && 0 <= z < S.LANE
      ensures IsLane(h[x][y]) && S.At(BitsOf(h), x, y, z) == S.At(S.Iota(BitsOf(g), ir), x, y, z)
    {
      AtBitsOf(h, x, y, z);
      AtBitsOf(g, x, y, z);
      Steps.AtIota(BitsOf(g), ir, x, y, z);
      ConstantIsLane(ir);
      RoundConstantsAreGenerated(ir, z);
      XorLaneBits(g[0][0], ROUND_CONSTANTS[ir], z);
    }
    assert forall x, y :: 0 <= x < 5 && 0 <= y < 5 ==> S.At(BitsOf(h), x, y, 0) == S.At(S.Iota(BitsOf(g), ir), x, y, 0) && IsLane(h[x][y]);
    S.SameCells(BitsOf(h), S.Iota(BitsOf(g), ir));
  }

  lemma ConstantIsLane(ir: nat)
    requires ir < 24
    ensures |ROUND_CONSTANTS| == 24 && IsLane(ROUND_CONSTANTS[ir])
  {
    hide Power;
    ConstantsAreLanes(ir);
  }

  // ---- Bytes and bits -------------------------------------------------------

  /** Appendix B.1 of FIPS 202: each byte low bit first. */
  function ByteBits(data: seq<byte>): (b: seq<bool>)
    ensures |b| == 8 * |data|
  {
    seq(8 * |data|, i requires 0 <= i < 8 * |data| => Bit(data[i / 8], i % 8))
  }

  lemma ByteBitsConcat(a: seq<byte>, b: seq<byte>)
    ensures ByteBits(a + b) == ByteBits(a) + ByteBits(b)
  {
    hide Bit;
    forall i | 0 <= i < 8 * |a + b|
      ensures ByteBits(a + b)[i] == (ByteBits(a) + ByteBits(b))[i]
    {
    }
    assert |ByteBits(a + b)| == |ByteBits(a) + ByteBits(b)|;
  }

  /** Equal bits mean equal bytes. */
  lemma ByteBitsInjective(a: seq<byte>, b: seq<byte>)
    requires ByteBits(a) == ByteBits(b)
    ensures a == b
  {
    hide Bit, Power;
    EightBits();
    forall k | 0 <= k < |a|
      ensures a[k] == b[k]
    {
      forall j | 0 <= j < 8
        ensures Bit(a[k], j) == Bit(b[k], j)
      {
        assert ByteBits(a)[8 * k + j] == ByteBits(b)[8 * k + j];
      }
      BitsDetermine(a[k], b[k], 8);
    }
  }

  lemma EightBits()
    ensures Power(8) == 0x100
  {
    PowersUsed();
    PowerSum(7, 1);
  }

  /** Python's int.from_bytes(data, "little"). */
  function FromBytes(data: seq<byte>): int {
    if data == [] then 0 else data[0] + 0x100 * FromBytes(data[1..])
  }

  /** Python's n.to_bytes(count, "little") for a number that fits. */
  function ToBytes(n: nat, count: nat): (data: seq<byte>)
    ensures |data| == count
    decreases count
  {
    if count == 0 then [] else [n % 0x100] + ToBytes(n / 0x100, count - 1)
  }

  lemma ByteThenRest(low: byte, high: int, i: nat)
    ensures Bit(low + 0x100 * high, i) == if i < 8 then Bit(low, i) else Bit(high, i - 8)
  {
    hide Bit, Shl, Power;
    EightBits();
    ByteOrShift(low, high, 8, i);
    ShlTimes(high, 8);
    if i >= 8 {
      ShlBit(high, 8, i);
    }
  }

  /** Adding a k-bit number to one shifted up by k only fills in the low k bits. */
  lemma {:induction false} ByteOrShift(low: int, high: int, k: nat, i: nat)
    requires 0 <= low < Power(k)
    ensures Bit(low + Shl(high, k), i) == if i < k then Bit(low, i) else Bit(high, i - k)
    decreases k
  {
    hide Power;
    if k == 0 {
      assert low == 0 by { ZeroPower(); }
    } else {
      PowerStep(k - 1);
      ShlDouble(high, k - 1);
      assert (low + Shl(high, k)) / 2 == low / 2 + Shl(high, k - 1);
      if i > 0 {
        ByteOrShift(low / 2, high, k - 1, i - 1);
      }
    }
  }

  lemma ZeroPower()
    ensures Power(0) == 1
  {
  }

  lemma {:induction false} FromBytesBits(data: seq<byte>, i: nat)
    requires i < 8 * |data|
    ensures Bit(FromBytes(data), i) == ByteBits(data)[i]
    decreases |data|
  {
    hide Bit;
    ByteThenRest(data[0], FromBytes(data[1..]), i);
    if i >= 8 {
      FromBytesBits(data[1..], i - 8);
      assert ByteBits(data[1..])[i - 8] == Bit(data[1..][(i - 8) / 8], (i - 8) % 8);
    }
  }

  lemma {:induction false} FromBytesBound(data: seq<byte>)
    ensures 0 <= FromBytes(data) < Power(8 * |data|)
    decreases |data|
  {
    hide Power;
    if data == [] {
      ZeroPower();
    } else {
      FromBytesBound(data[1..]);
      EightBits();
      PowerSum(8, 8 * |data[1..]|);
    }
  }

  lemma {:induction false} ToBytesBits(n: nat, count: nat, i: nat)
    requires i < 8 * count
    ensures ByteBits(ToBytes(n, count))[i] == Bit(n, i)
    decreases count
  {
    hide Bit;
    ByteThenRest(n % 0x100, n / 0x100, i);
    if i >= 8 {
      ToBytesBits(n / 0x100, count - 1, i - 8);
      assert ToBytes(n, count)[i / 8] == ToBytes(n / 0x100, count - 1)[i / 8 - 1];
    }
  }
}
