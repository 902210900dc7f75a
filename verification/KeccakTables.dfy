/** The two tables of the lane code are the ones FIPS 202 generates. */
module KeccakTables {
  import opened PyInt
  import S = KeccakSpec

  /** Rotation offsets, indexed [x][y]. */
  const ROTATIONS: seq<seq<nat>> := [
    [0, 36, 3, 41, 18],
    [1, 44, 10, 45, 2],
    [62, 6, 43, 15, 61],
    [28, 55, 25, 21, 56],
    [27, 20, 39, 8, 14]
  ]

  const ROUND_CONSTANTS: seq<int> := [
    0x0000000000000001, 0x0000000000008082, 0x800000000000808A, 0x8000000080008000,
    0x000000000000808B, 0x0000000080000001, 0x8000000080008081, 0x8000000000008009,
    0x000000000000008A, 0x0000000000000088, 0x0000000080008009, 0x000000008000000A,
    0x000000008000808B, 0x800000000000008B, 0x8000000000008089, 0x8000000000008003,
    0x8000000000008002, 0x8000000000000080, 0x000000000000800A, 0x800000008000000A,
    0x8000000080008081, 0x8000000000008080, 0x0000000080000001, 0x8000000080008008
  ]

  // ---- Rotation offsets -----------------------------------------------------

  lemma WalkOn(x: int, y: int, t: nat, px: int, py: int)
    requires t < 24
    ensures S.OffsetFrom(x, y, t, px, py)
         == if x == px && y == py then (t + 1) * (t + 2) / 2 else S.OffsetFrom(x, y, t + 1, py, (2 * px + 3 * py) % 5)
  {
  }

  lemma Walk0To5(x: int, y: int)
    ensures S.OffsetFrom(x, y, 0, 1, 0)
         == if x == 1 && y == 0 then 1 else
            if x == 0 && y == 2 then 3 else
            if x == 2 && y == 1 then 6 else
            if x == 1 && y == 2 then 10 else
            if x == 2 && y == 3 then 15 else
            if x == 3 && y == 3 then 21 else
            S.OffsetFrom(x, y, 6, 3, 0)
  {
    hide S.OffsetFrom;
    WalkOn(x, y, 0, 1, 0);
    WalkOn(x, y, 1, 0, 2);
    WalkOn(x, y, 2, 2, 1);
    WalkOn(x, y, 3, 1, 2);
    WalkOn(x, y, 4, 2, 3);
    WalkOn(x, y, 5, 3, 3);
  }

  lemma Walk6To11(x: int, y: int)
    ensures S.OffsetFrom(x, y, 6, 3, 0)
         == if x == 3 && y == 0 then 28 else
            if x == 0 && y == 1 then 36 else
            if x == 1 && y == 3 then 45 else
            if x == 3 && y == 1 then 55 else
            if x == 1 && y == 4 then 66 else
            if x == 4 && y == 4 then 78 else
            S.OffsetFrom(x, y, 12, 4, 0)
  {
    hide S.OffsetFrom;
    WalkOn(x, y, 6, 3, 0);
    WalkOn(x, y, 7, 0, 1);
    WalkOn(x, y, 8, 1, 3);
    WalkOn(x, y, 9, 3, 1);
    WalkOn(x, y, 10, 1, 4);
    WalkOn(x, y, 11, 4, 4);
  }

  lemma Walk12To17(x: int, y: int)
    ensures S.OffsetFrom(x, y, 12, 4, 0)
         == if x == 4 && y == 0 then 91 else
            if x == 0 && y == 3 then 105 else
            if x == 3 && y == 4 then 120 else
            if x == 4 && y == 3 then 136 else
            if x == 3 && y == 2 then 153 else
            if x == 2 && y == 2 then 171 else
            S.OffsetFrom(x, y, 18, 2, 0)
  {
    hide S.OffsetFrom;
    WalkOn(x, y, 12, 4, 0);
    WalkOn(x, y, 13, 0, 3);
    WalkOn(x, y, 14, 3, 4);
    WalkOn(x, y, 15, 4, 3);
    WalkOn(x, y, 16, 3, 2);
    WalkOn(x, y, 17, 2, 2);
  }

  lemma Walk18To23(x: int, y: int)
    ensures S.OffsetFrom(x, y, 18, 2, 0)
         == if x == 2 && y == 0 then 190 else
            if x == 0 && y == 4 then 210 else
            if x == 4 && y == 2 then 231 else
            if x == 2 && y == 4 then 253 else
            if x == 4 && y == 1 then 276 else
            if x == 1 && y == 1 then 300 else
            S.OffsetFrom(x, y, 24, 1, 0)
  {
    hide S.OffsetFrom;
    WalkOn(x, y, 18, 2, 0);
    WalkOn(x, y, 19, 0, 4);
    WalkOn(x, y, 20, 4, 2);
    WalkOn(x, y, 21, 2, 4);
    WalkOn(x, y, 22, 4, 1);
    WalkOn(x, y, 23, 1, 1);
  }

  lemma WalkEnds(x: int, y: int, px: int, py: int)
    ensures S.OffsetFrom(x, y, 24, px, py) == 0
  {
  }

  /** Every entry of the table is the standard's triangular number modulo the lane width. */
  lemma RotationsAreGenerated(x: int, y: int)
    requires 0 <= x < 5 && 0 <= y < 5
    ensures |ROTATIONS| == 5 && |ROTATIONS[x]| == 5 && ROTATIONS[x][y] == S.Offset(x, y) % S.LANE
  {
    hide S.OffsetFrom;
    Walk0To5(x, y);
    Walk6To11(x, y);
    Walk12To17(x, y);
    Walk18To23(x, y);
    WalkEnds(x, y, 1, 0);
  }

  // ---- Round constants ------------------------------------------------------

  /** The register of algorithm 5 at the start of each round. */
  function RegisterOf(ir: nat): S.Register
    requires ir < 24
  {
    if ir == 0 then S.Register(true, false, false, false, false, false, false, false)
    else if ir == 1 then S.Register(false, false, false, false, false, false, false, true)
    else if ir == 2 then S.Register(false, false, false, true, true, false, true, true)
    else if ir == 3 then S.Register(false, true, false, true, true, false, false, false)
    else if ir == 4 then S.Register(true, true, true, true, true, false, true, true)
    else if ir == 5 then S.Register(true, false, false, true, false, false, false, false)
    else if ir == 6 then S.Register(true, false, true, false, true, true, false, false)
    else if ir == 7 then S.Register(true, true, true, true, false, false, true, false)
    else if ir == 8 then S.Register(false, true, false, true, false, false, true, true)
    else if ir == 9 then S.Register(false, false, false, false, true, true, true, false)
    else if ir == 10 then S.Register(true, false, false, false, false, false, true, false)
    else if ir == 11 then S.Register(false, false, true, true, false, true, true, true)
    else if ir == 12 then S.Register(true, false, true, false, true, false, true, true)
    else if ir == 13 then S.Register(true, false, true, true, false, false, true, true)
    else if ir == 14 then S.Register(true, true, false, false, false, true, true, false)
    else if ir == 15 then S.Register(true, true, false, true, false, true, false, true)
    else if ir == 16 then S.Register(false, true, false, true, false, true, false, true)
    else if ir == 17 then S.Register(false, true, false, true, false, true, false, false)
    else if ir == 18 then S.Register(false, true, false, false, true, true, true, true)
    else if ir == 19 then S.Register(false, false, false, true, false, true, true, true)
    else if ir == 20 then S.Register(true, true, true, false, true, true, false, false)
    else if ir == 21 then S.Register(false, true, true, true, true, true, false, false)
    else if ir == 22 then S.Register(true, true, false, true, false, false, false, false)
    else S.Register(false, false, true, false, false, false, true, false)
  }

  function ClockSeven(r: S.Register): S.Register {
    S.Clock(S.Clock(S.Clock(S.Clock(S.Clock(S.Clock(S.Clock(r)))))))
  }

  /** b + 2 n, with n moved up by k more places: bit 0 is b, and n starts at bit k + 1. */
  function Stack(b: bool, k: nat, n: int): int { BitValue(b) + 2 * Shl(n, k) }

  lemma StackBit(b: bool, k: nat, n: int, i: nat)
    ensures Bit(Stack(b, k, n), i) == if i == 0 then b else i > k && Bit(n, i - k - 1)
  {
    if i > 0 {
      assert Stack(b, k, n) / 2 == Shl(n, k);
      ShlBit(n, k, i - 1);
    }
  }

  /** The output of the register after j more clocks. */
  function Output(r: S.Register, j: nat): bool { S.Clocked(r, j).r0 }

  /** The lane with bit 2^j - 1 equal to the j-th of seven successive register outputs. */
  function LaneOf(r: S.Register): int {
    Stack(Output(r, 0), 0, Stack(Output(r, 1), 1, Stack(Output(r, 2), 3, Stack(Output(r, 3), 7,
          Stack(Output(r, 4), 15, Stack(Output(r, 5), 31, BitValue(Output(r, 6))))))))
  }

  lemma LaneOfBit(r: S.Register, z: nat)
    requires z < S.LANE
    ensures Bit(LaneOf(r), z) == (S.Exponent(z) < 7 && Output(r, S.Exponent(z)))
  {
    hide Output, Stack, Bit;
    var l5 := Stack(Output(r, 5), 31, BitValue(Output(r, 6)));
    var l4 := Stack(Output(r, 4), 15, l5);
    var l3 := Stack(Output(r, 3), 7, l4);
    var l2 := Stack(Output(r, 2), 3, l3);
    var l1 := Stack(Output(r, 1), 1, l2);
    StackBit(Output(r, 0), 0, l1, z);
    if z >= 1 { StackBit(Output(r, 1), 1, l2, z - 1); }
    if z >= 3 { StackBit(Output(r, 2), 3, l3, z - 3); }
    if z >= 7 { StackBit(Output(r, 3), 7, l4, z - 7); }
    if z >= 15 { StackBit(Output(r, 4), 15, l5, z - 15); }
    if z >= 31 { StackBit(Output(r, 5), 31, BitValue(Output(r, 6)), z - 31); }
    if z >= 63 { OneBit(Output(r, 6), z - 63); }
  }

  lemma OneBit(b: bool, i: nat)
    requires i == 0
    ensures Bit(BitValue(b), i) == b
  {
  }

  lemma {:induction false} ClockedSum(r: S.Register, a: nat, b: nat)
    ensures S.Clocked(r, a + b) == S.Clocked(S.Clocked(r, a), b)
    decreases a
  {
    if a > 0 {
      ClockedSum(S.Clock(r), a - 1, b);
    }
  }

  lemma ClockedSeven(r: S.Register)
    ensures S.Clocked(r, 7) == ClockSeven(r)
  {
    ClockedSum(r, 3, 4);
  }

  /** Three clocks in one. */
  function ThreeOn(r: S.Register): S.Register {
    S.Register(
      r.r5 != r.r7,
      r.r6,
      r.r7,
      r.r0,
      r.r1 != (r.r5 != r.r7),
      r.r2 != (r.r5 != (r.r6 != r.r7)),
      r.r3 != (r.r5 != r.r6),
      r.r4 != (r.r6 != r.r7))
  }

  /** Four clocks in one. */
  function FourOn(r: S.Register): S.Register {
    S.Register(
      r.r4 != (r.r6 != r.r7),
      r.r5 != r.r7,
      r.r6,
      r.r7,
      r.r0 != (r.r4 != (r.r6 != r.r7)),
      r.r1 != (r.r4 != (r.r5 != r.r6)),
      r.r2 != (r.r4 != r.r5),
      r.r3 != (r.r5 != r.r6))
  }

  /** Seven clocks in one. */
  function SevenOn(r: S.Register): S.Register {
    S.Register(
      r.r1 != (r.r3 != r.r4),
      r.r2 != (r.r4 != r.r5),
      r.r3 != (r.r5 != r.r6),
      r.r4 != (r.r6 != r.r7),
      r.r1 != (r.r3 != (r.r4 != (r.r5 != r.r7))),
      r.r1 != (r.r2 != (r.r3 != (r.r5 != r.r6))),
      r.r1 != (r.r2 != (r.r6 != r.r7)),
      r.r0 != (r.r2 != (r.r3 != r.r7)))
  }

  lemma ThreeClocks(r: S.Register)
    ensures S.Clock(S.Clock(S.Clock(r))) == ThreeOn(r)
  {
  }

  lemma FourClocks(r: S.Register)
    ensures S.Clock(S.Clock(S.Clock(S.Clock(r)))) == FourOn(r)
  {
  }

  lemma SevenClocks(r: S.Register)
    ensures ClockSeven(r) == SevenOn(r)
  {
    hide S.Clock;
    FourClocks(r);
    ThreeClocks(FourOn(r));
  }

  lemma NextRegister(ir: nat)
    requires ir < 23
    ensures ClockSeven(RegisterOf(ir)) == RegisterOf(ir + 1)
  {
    hide ClockSeven;
    SevenClocks(RegisterOf(ir));
    hide SevenOn;
    RegistersFrom0(ir);
    RegistersFrom8(ir);
    RegistersFrom14(ir);
    RegistersFrom18(ir);
    RegistersFrom21(ir);
  }

  lemma RegistersFrom0(ir: nat)
    ensures 0 <= ir < 8 ==> SevenOn(RegisterOf(ir)) == RegisterOf(ir + 1)
  {
    assert SevenOn(RegisterOf(0)) == RegisterOf(1);
    assert SevenOn(RegisterOf(1)) == RegisterOf(2);
    assert SevenOn(RegisterOf(2)) == RegisterOf(3);
    assert SevenOn(RegisterOf(3)) == RegisterOf(4);
    assert SevenOn(RegisterOf(4)) == RegisterOf(5);
    assert SevenOn(RegisterOf(5)) == RegisterOf(6);
    assert SevenOn(RegisterOf(6)) == RegisterOf(7);
    assert SevenOn(RegisterOf(7)) == RegisterOf(8);
  }

  lemma RegistersFrom8(ir: nat)
    ensures 8 <= ir < 14 ==> SevenOn(RegisterOf(ir)) == RegisterOf(ir + 1)
  {
    assert SevenOn(RegisterOf(8)) == RegisterOf(9);
    assert SevenOn(RegisterOf(9)) == RegisterOf(10);
    assert SevenOn(RegisterOf(10)) == RegisterOf(11);
    assert SevenOn(RegisterOf(11)) == RegisterOf(12);
    assert SevenOn(RegisterOf(12)) == RegisterOf(13);
    assert SevenOn(RegisterOf(13)) == RegisterOf(14);
  }

  lemma RegistersFrom14(ir: nat)
    ensures 14 <= ir < 18 ==> SevenOn(RegisterOf(ir)) == RegisterOf(ir + 1)
  {
    assert SevenOn(RegisterOf(14)) == RegisterOf(15);
    assert SevenOn(RegisterOf(15)) == RegisterOf(16);
    assert SevenOn(RegisterOf(16)) == RegisterOf(17);
    assert SevenOn(RegisterOf(17)) == RegisterOf(18);
  }

  lemma RegistersFrom18(ir: nat)
    ensures 18 <= ir < 21 ==> SevenOn(RegisterOf(ir)) == RegisterOf(ir + 1)
  {
    assert SevenOn(RegisterOf(18)) == RegisterOf(19);
    assert SevenOn(RegisterOf(19)) == RegisterOf(20);
    assert SevenOn(RegisterOf(20)) == RegisterOf(21);
  }

  lemma RegistersFrom21(ir: nat)
    ensures 21 <= ir < 23 ==> SevenOn(RegisterOf(ir)) == RegisterOf(ir + 1)
  {
    assert SevenOn(RegisterOf(21)) == RegisterOf(22);
    assert SevenOn(RegisterOf(22)) == RegisterOf(23);
  }

  lemma {:induction false} RegisterAtRound(ir: nat)
    requires ir < 24
    ensures S.Clocked(S.SEED, 7 * ir) == RegisterOf(ir)
  {
    hide S.Clock, S.Clocked, ClockSeven;
    if ir == 0 {
      StartRegister();
    } else {
      RegisterAtRound(ir - 1);
      ClockedSum(S.SEED, 7 * (ir - 1), 7);
      ClockedSeven(RegisterOf(ir - 1));
      NextRegister(ir - 1);
    }
  }

  lemma StartRegister()
    ensures S.Clocked(S.SEED, 0) == RegisterOf(0)
  {
  }

  function Weighed(b0: bool, b1: bool, b2: bool, b3: bool, b4: bool, b5: bool, b6: bool): int {
    BitValue(b0) + 0x2 * BitValue(b1) + 0x8 * BitValue(b2) + 0x80 * BitValue(b3) + 0x8000 * BitValue(b4)
    + 0x8000_0000 * BitValue(b5) + 0x8000_0000_0000_0000 * BitValue(b6)
  }

  lemma {:induction false} ShlTimes(n: int, k: nat)
    ensures Shl(n, k) == n * Power(k)
    decreases k
  {
    if k > 0 {
      ShlDouble(n, k - 1);
      ShlTimes(n, k - 1);
      PowerStep(k - 1);
    }
  }

  lemma PowersUsed()
    ensures Power(1) == 0x2 && Power(3) == 0x8 && Power(7) == 0x80 && Power(15) == 0x8000 && Power(31) == 0x8000_0000
    ensures Power(S.LANE) == 0x1_0000_0000_0000_0000
  {
    hide Power;
    SmallPowers();
    PowerSum(3, 1);
    PowerSum(4, 3);
    PowerSum(8, 7);
    PowerSum(7, 1);
    PowerSum(16, 15);
    PowerSum(15, 1);
    PowerSum(32, 32);
    PowerSum(31, 1);
  }

  lemma SmallPowers()
    ensures Power(1) == 2 && Power(3) == 8
  {
    PowerStep(0);
    PowerStep(1);
    PowerStep(2);
  }

  lemma PowerSum(a: nat, b: nat)
    ensures Power(a + b) == Power(a) * Power(b)
  {
    ShlSum(1, a, b);
    ShlTimes(Shl(1, a), b);
  }

  lemma {:induction false} ShlSum(n: int, a: nat, b: nat)
    ensures Shl(n, a + b) == Shl(Shl(n, a), b)
    decreases a
  {
    if a > 0 {
      ShlSum(2 * n, a - 1, b);
    }
  }

  lemma LaneOfWeighed(r: S.Register)
    ensures LaneOf(r) == Weighed(Output(r, 0), Output(r, 1), Output(r, 2), Output(r, 3), Output(r, 4), Output(r, 5), Output(r, 6))
  {
    hide Output, Power, Shl;
    var l5 := Stack(Output(r, 5), 31, BitValue(Output(r, 6)));
    var l4 := Stack(Output(r, 4), 15, l5);
    var l3 := Stack(Output(r, 3), 7, l4);
    var l2 := Stack(Output(r, 2), 3, l3);
    var l1 := Stack(Output(r, 1), 1, l2);
    ShlTimes(BitValue(Output(r, 6)), 31);
    ShlTimes(l5, 15);
    ShlTimes(l4, 7);
    ShlTimes(l3, 3);
    ShlTimes(l2, 1);
    ShlZero(l1);
    PowersUsed();
  }

  lemma ShlZero(n: int)
    ensures Shl(n, 0) == n
  {
  }

  lemma ClockedOneMore(r: S.Register, j: nat)
    ensures S.Clocked(r, j + 1) == S.Clock(S.Clocked(r, j))
  {
    ClockedSum(r, j, 1);
  }

  lemma ClockedUpToSix(r: S.Register)
    ensures S.Clocked(r, 0) == r
    ensures forall j :: 0 <= j < 6 ==> S.Clocked(r, j + 1) == S.Clock(S.Clocked(r, j))
  {
    forall j | 0 <= j < 6
      ensures S.Clocked(r, j + 1) == S.Clock(S.Clocked(r, j))
    {
      ClockedOneMore(r, j);
    }
  }

  /** Seven outputs read straight off the register. */
  lemma Outputs(r: S.Register)
    ensures Output(r, 0) == r.r0 && Output(r, 1) == r.r7 && Output(r, 2) == r.r6
    ensures Output(r, 3) == (r.r5 != r.r7)
    ensures Output(r, 4) == ((r.r4 != r.r7) != r.r6)
    ensures Output(r, 5) == (((r.r3 != r.r7) != r.r6) != (r.r5 != r.r7))
    ensures Output(r, 6) == ((r.r2 != r.r6) != ((r.r5 != r.r7) != ((r.r4 != r.r7) != r.r6)))
  {
    hide S.Clocked;
    ClockedUpToSix(r);
    assert S.Clocked(r, 0 + 1) == S.Clock(r);
    assert S.Clocked(r, 1 + 1) == S.Clock(S.Clock(r));
    assert S.Clocked(r, 2 + 1) == S.Clock(S.Clock(S.Clock(r)));
    assert S.Clocked(r, 3 + 1) == S.Clock(S.Clock(S.Clock(S.Clock(r))));
    assert S.Clocked(r, 4 + 1) == S.Clock(S.Clock(S.Clock(S.Clock(S.Clock(r)))));
    assert S.Clocked(r, 5 + 1) == S.Clock(S.Clock(S.Clock(S.Clock(S.Clock(S.Clock(r))))));
  }

  function Direct(r: S.Register): int {
    Weighed(r.r0, r.r7, r.r6, r.r5 != r.r7, (r.r4 != r.r7) != r.r6, ((r.r3 != r.r7) != r.r6) != (r.r5 != r.r7),
            (r.r2 != r.r6) != ((r.r5 != r.r7) != ((r.r4 != r.r7) != r.r6)))
  }

  lemma RoundLane(ir: nat)
    requires ir < 24
    ensures |ROUND_CONSTANTS| == 24 && ROUND_CONSTANTS[ir] == Direct(RegisterOf(ir))
  {
  }

  lemma ConstantsAreLanes(ir: nat)
    requires ir < 24
    ensures |ROUND_CONSTANTS| == 24 && 0 <= ROUND_CONSTANTS[ir] < Power(S.LANE)
  {
    hide Power;
    PowersUsed();
  }

  /** The register never wraps within the 24 rounds, so round ir reads on from its own start. */
  lemma RoundBitIsOutput(ir: nat, e: nat)
    requires ir < 24 && e < 7
    ensures S.RoundBit(e + 7 * ir) == Output(RegisterOf(ir), e)
  {
    hide S.Clock, S.Clocked;
    RegisterAtRound(ir);
    ClockedSum(S.SEED, 7 * ir, e);
  }

  /** Every entry of the table has the bits that the standard's shift register gives. */
  lemma RoundConstantsAreGenerated(ir: nat, z: nat)
    requires ir < 24 && z < S.LANE
    ensures |ROUND_CONSTANTS| == 24 && Bit(ROUND_CONSTANTS[ir], z) == S.RoundConstantBit(ir, z)
  {
    hide S.RoundBit, Output, Bit, LaneOf, Weighed;
    RoundLane(ir);
    LaneOfWeighed(RegisterOf(ir));
    Outputs(RegisterOf(ir));
    LaneOfBit(RegisterOf(ir), z);
    if S.Exponent(z) < 7 {
      RoundBitIsOutput(ir, S.Exponent(z));
    }
  }
}
