/** The permutation of FIPS 202 really permutes: an explicit inverse for every step mapping,
    for the round and for the 24 rounds, on both sides. */
module KeccakBijection {
  import opened KeccakSpec

  // ---- Theta: the column-parity map is L = 1 + s + s^4 z, and L^192 = 1 ------

  const PLANE: nat := 320

  type Plane = p: seq<bool> | |p| == PLANE witness seq(PLANE, _ => false)

  function Cell(p: Plane, x: int, z: int): bool { p[LANE * (x % 5) + z % LANE] }

  function TabulatePlane(f: (int, int) -> bool): Plane {
    seq(PLANE, (i: nat) => f(i / LANE, i % LANE))
  }

  lemma CellTabulate(f: (int, int) -> bool, x: int, z: int)
    ensures Cell(TabulatePlane(f), x, z) == f(x % 5, z % LANE)
  {
    var i := LANE * (x % 5) + z % LANE;
    assert i / LANE == x % 5 && i % LANE == z % LANE;
  }

  lemma Congruent(p: Plane, x: int, z: int, x': int, z': int)
    requires x % 5 == x' % 5 && z % LANE == z' % LANE
    ensures Cell(p, x, z) == Cell(p, x', z')
  {
  }

  lemma SamePlane(p: Plane, q: Plane)
    requires forall x, z :: Cell(p, x, z) == Cell(q, x, z)
    ensures p == q
  {
    forall i | 0 <= i < PLANE
      ensures p[i] == q[i]
    {
      assert Cell(p, i / LANE, i % LANE) == Cell(q, i / LANE, i % LANE);
    }
  }

  /** 1 + s^i + s^j z^k applied to a plane of column parities. */
  function Spread(p: Plane, i: int, j: int, k: int): Plane {
    TabulatePlane((x: int, z: int) => SpreadAt(p, i, j, k, x, z))
  }

  function SpreadAt(p: Plane, i: int, j: int, k: int, x: int, z: int): bool {
    Cell(p, x, z) != (Cell(p, x - i, z) != Cell(p, x - j, z - k))
  }

  lemma ShiftWraps(x: int, i: int, z: int, k: int)
    ensures (x % 5 - i) % 5 == (x - i) % 5
    ensures (z % LANE - k) % LANE == (z - k) % LANE
  {
  }

  lemma ShiftedCell(p: Plane, x: int, i: int, z: int, k: int)
    ensures Cell(p, x % 5 - i, z % LANE - k) == Cell(p, x - i, z - k)
  {
    hide Cell;
    ShiftWraps(x, i, z, k);
    Congruent(p, x % 5 - i, z % LANE - k, x - i, z - k);
  }

  lemma SpreadWraps(p: Plane, i: int, j: int, k: int, x: int, z: int)
    ensures SpreadAt(p, i, j, k, x % 5, z % LANE) == SpreadAt(p, i, j, k, x, z)
  {
    hide Cell;
    ShiftedCell(p, x, 0, z, 0);
    ShiftedCell(p, x, i, z, 0);
    ShiftedCell(p, x, j, z, k);
  }

  lemma CellSpread(p: Plane, i: int, j: int, k: int, x: int, z: int)
    ensures Cell(Spread(p, i, j, k), x, z) == SpreadAt(p, i, j, k, x, z)
  {
    hide Cell, TabulatePlane, SpreadAt;
    CellTabulate((x: int, z: int) => SpreadAt(p, i, j, k, x, z), x, z);
    SpreadWraps(p, i, j, k, x, z);
  }

  /** Squaring over GF(2) doubles every shift. */
  lemma Squared(p: Plane, i: int, j: int, k: int)
    ensures Spread(Spread(p, i, j, k), i, j, k) == Spread(p, 2 * i, 2 * j, 2 * k)
  {
    hide Cell, Spread;
    forall x, z
      ensures Cell(Spread(Spread(p, i, j, k), i, j, k), x, z) == Cell(Spread(p, 2 * i, 2 * j, 2 * k), x, z)
    {
      CellSpread(Spread(p, i, j, k), i, j, k, x, z);
      CellSpread(p, i, j, k, x, z);
      CellSpread(p, i, j, k, x - i, z);
      CellSpread(p, i, j, k, x - j, z - k);
      CellSpread(p, 2 * i, 2 * j, 2 * k, x, z);
    }
    SamePlane(Spread(Spread(p, i, j, k), i, j, k), Spread(p, 2 * i, 2 * j, 2 * k));
  }

  lemma Commutes(p: Plane, i: int, j: int, k: int, l: int, m: int, n: int)
    ensures Spread(Spread(p, i, j, k), l, m, n) == Spread(Spread(p, l, m, n), i, j, k)
  {
    hide Cell, Spread;
    forall x, z
      ensures Cell(Spread(Spread(p, i, j, k), l, m, n), x, z) == Cell(Spread(Spread(p, l, m, n), i, j, k), x, z)
    {
      CellSpread(Spread(p, i, j, k), l, m, n, x, z);
      CellSpread(p, i, j, k, x, z);
      CellSpread(p, i, j, k, x - l, z);
      CellSpread(p, i, j, k, x - m, z - n);
      CellSpread(Spread(p, l, m, n), i, j, k, x, z);
      CellSpread(p, l, m, n, x, z);
      CellSpread(p, l, m, n, x - i, z);
      CellSpread(p, l, m, n, x - j, z - k);
    }
    SamePlane(Spread(Spread(p, i, j, k), l, m, n), Spread(Spread(p, l, m, n), i, j, k));
  }

  /** L^(2^e), which is one Spread again. */
  function Doubled(p: Plane, e: nat): Plane {
    var d := TwoTo(e);
    Spread(p, d, -d, d)
  }

  function TwoTo(e: nat): int { if e == 0 then 1 else 2 * TwoTo(e - 1) }

  /** L^(2^e) . L^(2^(e-1)) . .. . L */
  function Ladder(p: Plane, e: nat): Plane {
    if e == 0 then Doubled(p, 0) else Doubled(Ladder(p, e - 1), e)
  }

  /** L^191, the inverse of the parity map. */
  function ParityInverse(p: Plane): Plane {
    Doubled(Doubled(Ladder(p, 5), 6), 6)
  }

  lemma {:induction false} LadderAfterL(p: Plane, e: nat)
    ensures Ladder(Doubled(p, 0), e) == Doubled(p, e + 1)
  {
    hide Spread;
    if e > 0 {
      LadderAfterL(p, e - 1);
    }
    Squared(p, TwoTo(e), -TwoTo(e), TwoTo(e));
  }

  /** L^64 = 1 + s + s^4 has order three. */
  lemma SixtyFourthPowerCubed(p: Plane)
    ensures Doubled(Doubled(Doubled(p, 6), 6), 6) == p
  {
    hide Cell, Doubled;
    var q := Doubled(p, 6);
    var r := Doubled(q, 6);
    forall x, z
      ensures Cell(Doubled(r, 6), x, z) == Cell(p, x, z)
    {
      CubeAt(p, q, r, x, z);
    }
    SamePlane(Doubled(r, 6), p);
  }

  lemma TwoToSix()
    ensures TwoTo(6) == 64
  {
    assert TwoTo(3) == 8;
  }

  lemma CellPower(p: Plane, x: int, z: int)
    ensures Cell(Doubled(p, 6), x, z) == (Cell(p, x, z) != (Cell(p, x + 1, z) != Cell(p, x - 1, z)))
  {
    hide Cell, Spread;
    TwoToSix();
    CellSpread(p, 64, -64, 64, x, z);
    Congruent(p, x - 64, z, x + 1, z);
    Congruent(p, x + 64, z - 64, x - 1, z);
  }

  lemma CubeAt(p: Plane, q: Plane, r: Plane, x: int, z: int)
    requires q == Doubled(p, 6) && r == Doubled(q, 6)
    ensures Cell(Doubled(r, 6), x, z) == Cell(p, x, z)
  {
    hide Cell, Doubled;
    CellPower(r, x, z);
    CellPower(q, x, z);
    CellPower(q, x + 1, z);
    CellPower(q, x - 1, z);
    CellPower(p, x, z);
    CellPower(p, x + 1, z);
    CellPower(p, x - 1, z);
    CellPower(q, x + 2, z);
    CellPower(q, x - 2, z);
    CellPower(p, x + 2, z);
    CellPower(p, x - 2, z);
    Congruent(p, x + 3, z, x - 2, z);
    Congruent(p, x - 3, z, x + 2, z);
  }

  lemma ParityInverseLeft(p: Plane)
    ensures ParityInverse(Doubled(p, 0)) == p
  {
    hide Doubled;
    LadderAfterL(p, 5);
    SixtyFourthPowerCubed(p);
  }

  lemma DoubledCommutes(p: Plane, d: nat, e: nat)
    ensures Doubled(Doubled(p, d), e) == Doubled(Doubled(p, e), d)
  {
    hide Spread, TwoTo;
    Commutes(p, TwoTo(d), -TwoTo(d), TwoTo(d), TwoTo(e), -TwoTo(e), TwoTo(e));
  }

  lemma {:induction false} LadderCommutes(p: Plane, e: nat)
    ensures Doubled(Ladder(p, e), 0) == Ladder(Doubled(p, 0), e)
  {
    hide Doubled;
    if e > 0 {
      LadderCommutes(p, e - 1);
      DoubledCommutes(Ladder(p, e - 1), e, 0);
    }
  }

  lemma ParityInverseRight(p: Plane)
    ensures Doubled(ParityInverse(p), 0) == p
  {
    hide Doubled;
    DoubledCommutes(Doubled(Ladder(p, 5), 6), 6, 0);
    DoubledCommutes(Ladder(p, 5), 6, 0);
    LadderCommutes(p, 5);
    ParityInverseLeft(p);
  }

  function Parity(s: State): Plane {
    TabulatePlane((x: int, z: int) => Column(s, x, z))
  }

  lemma CellParity(s: State, x: int, z: int)
    ensures Cell(Parity(s), x, z) == Column(s, x, z)
  {
    hide Cell, TabulatePlane, Column;
    CellTabulate((x: int, z: int) => Column(s, x, z), x, z);
    ColumnWraps(s, x, z);
  }

  lemma ColumnWraps(s: State, x: int, z: int)
    ensures Column(s, x % 5, z % LANE) == Column(s, x, z)
  {
    hide At;
    AtWraps(s, x % 5, 0, z % LANE, x, 0, z);
    AtWraps(s, x % 5, 1, z % LANE, x, 1, z);
    AtWraps(s, x % 5, 2, z % LANE, x, 2, z);
    AtWraps(s, x % 5, 3, z % LANE, x, 3, z);
    AtWraps(s, x % 5, 4, z % LANE, x, 4, z);
  }

  function PlaneEffect(p: Plane, x: int, z: int): bool {
    Cell(p, x - 1, z) != Cell(p, x + 1, z - 1)
  }

  lemma EffectOfParity(s: State, x: int, z: int)
    ensures Effect(s, x, z) == PlaneEffect(Parity(s), x, z)
  {
    hide Cell, Column, Parity;
    CellParity(s, x - 1, z);
    CellParity(s, x + 1, z - 1);
  }

  /** What L does is add the effect. */
  lemma LAddsEffect(p: Plane, x: int, z: int)
    ensures Cell(Doubled(p, 0), x, z) == (Cell(p, x, z) != PlaneEffect(p, x, z))
  {
    hide Cell, Spread;
    CellSpread(p, 1, -1, 1, x, z);
  }

  /** Adding one plane's effect to every sheet of a state. */
  function AddEffect(s: State, p: Plane): State {
    Tabulate((x: int, y: int, z: int) => At(s, x, y, z) != PlaneEffect(p, x, z))
  }

  lemma PlaneEffectWraps(p: Plane, x: int, z: int)
    ensures PlaneEffect(p, x % 5, z % LANE) == PlaneEffect(p, x, z)
  {
    hide Cell;
    Congruent(p, x % 5 - 1, z % LANE, x - 1, z);
    Congruent(p, x % 5 + 1, z % LANE - 1, x + 1, z - 1);
  }

  lemma AtAddEffect(s: State, p: Plane, x: int, y: int, z: int)
    ensures At(AddEffect(s, p), x, y, z) == (At(s, x, y, z) != PlaneEffect(p, x, z))
  {
    hide At, Tabulate, PlaneEffect;
    AtTabulate((x: int, y: int, z: int) => At(s, x, y, z) != PlaneEffect(p, x, z), x, y, z);
    PlaneEffectWraps(p, x, z);
    AtWraps(s, x % 5, y % 5, z % LANE, x, y, z);
  }

  /** Five copies of the effect cancel down to one. */
  lemma ColumnAddEffect(s: State, p: Plane, x: int, z: int)
    ensures Column(AddEffect(s, p), x, z) == (Column(s, x, z) != PlaneEffect(p, x, z))
  {
    hide At, AddEffect, PlaneEffect;
    AtAddEffect(s, p, x, 0, z);
    AtAddEffect(s, p, x, 1, z);
    AtAddEffect(s, p, x, 2, z);
    AtAddEffect(s, p, x, 3, z);
    AtAddEffect(s, p, x, 4, z);
  }

  lemma AddEffectTwice(s: State, p: Plane)
    ensures AddEffect(AddEffect(s, p), p) == s
  {
    hide At, AddEffect, PlaneEffect;
    forall x, y, z
      ensures At(AddEffect(AddEffect(s, p), p), x, y, z) == At(s, x, y, z)
    {
      AtAddEffect(AddEffect(s, p), p, x, y, z);
      AtAddEffect(s, p, x, y, z);
    }
    SameCells(AddEffect(AddEffect(s, p), p), s);
  }

  lemma AtTheta(s: State, x: int, y: int, z: int)
    ensures At(Theta(s), x, y, z) == (At(s, x, y, z) != Effect(s, x, z))
  {
    hide At, Tabulate, Column, Effect;
    AtTabulate((x: int, y: int, z: int) => At(s, x, y, z) != Effect(s, x, z), x, y, z);
    AtWraps(s, x % 5, y % 5, z % LANE, x, y, z);
    EffectOfParity(s, x % 5, z % LANE);
    EffectOfParity(s, x, z);
    PlaneEffectWraps(Parity(s), x, z);
  }

  lemma ThetaAddsOwnEffect(s: State)
    ensures Theta(s) == AddEffect(s, Parity(s))
  {
    hide At, AddEffect, Theta, Effect, Parity;
    forall x, y, z
      ensures At(Theta(s), x, y, z) == At(AddEffect(s, Parity(s)), x, y, z)
    {
      AtTheta(s, x, y, z);
      EffectOfParity(s, x, z);
      AtAddEffect(s, Parity(s), x, y, z);
    }
    SameCells(Theta(s), AddEffect(s, Parity(s)));
  }

  lemma ParityOfAddEffect(s: State, p: Plane, q: Plane)
    requires forall x, z :: Cell(q, x, z) == (Column(s, x, z) != PlaneEffect(p, x, z))
    ensures Parity(AddEffect(s, p)) == q
  {
    hide Cell, AddEffect, Column, PlaneEffect, Parity;
    forall x, z
      ensures Cell(Parity(AddEffect(s, p)), x, z) == Cell(q, x, z)
    {
      CellParity(AddEffect(s, p), x, z);
      ColumnAddEffect(s, p, x, z);
    }
    SamePlane(Parity(AddEffect(s, p)), q);
  }

  function ThetaInverse(t: State): State {
    AddEffect(t, ParityInverse(Parity(t)))
  }

  lemma ThetaLeft(s: State)
    ensures ThetaInverse(Theta(s)) == s
  {
    hide Cell, Parity, Doubled, PlaneEffect, AddEffect, Column, ParityInverse, Theta;
    var p := Parity(s);
    ThetaAddsOwnEffect(s);
    forall x, z
      ensures Cell(Doubled(p, 0), x, z) == (Column(s, x, z) != PlaneEffect(p, x, z))
    {
      LAddsEffect(p, x, z);
      CellParity(s, x, z);
    }
    ParityOfAddEffect(s, p, Doubled(p, 0));
    ParityInverseLeft(p);
    AddEffectTwice(s, p);
  }

  lemma ThetaRight(t: State)
    ensures Theta(ThetaInverse(t)) == t
  {
    hide Cell, Parity, Doubled, PlaneEffect, AddEffect, Column, ParityInverse, Theta;
    var q := ParityInverse(Parity(t));
    ParityInverseRight(Parity(t));
    forall x, z
      ensures Cell(q, x, z) == (Column(t, x, z) != PlaneEffect(q, x, z))
    {
      LAddsEffect(q, x, z);
      CellParity(t, x, z);
    }
    ParityOfAddEffect(t, q, q);
    ThetaAddsOwnEffect(ThetaInverse(t));
    AddEffectTwice(t, q);
  }

  // ---- Rho and pi: cells move, none is lost ---------------------------------

  lemma AtRho(s: State, x: int, y: int, z: int)
    requires 0 <= x < 5 && 0 <= y < 5
    ensures At(Rho(s), x, y, z) == At(s, x, y, z - Offset(x, y))
  {
    hide At, Tabulate, Offset;
    AtTabulate((x: int, y: int, z: int) => At(s, x, y, z - Offset(x, y)), x, y, z);
    AtWraps(s, x, y, z % LANE - Offset(x, y), x, y, z - Offset(x, y));
  }

  function RhoInverse(t: State): State {
    Tabulate((x: int, y: int, z: int) => At(t, x, y, z + Offset(x, y)))
  }

  lemma AtRhoInverse(t: State, x: int, y: int, z: int)
    requires 0 <= x < 5 && 0 <= y < 5
    ensures At(RhoInverse(t), x, y, z) == At(t, x, y, z + Offset(x, y))
  {
    hide At, Tabulate, Offset;
    AtTabulate((x: int, y: int, z: int) => At(t, x, y, z + Offset(x, y)), x, y, z);
    AtWraps(t, x, y, z % LANE + Offset(x, y), x, y, z + Offset(x, y));
  }

  lemma RhoLeft(s: State)
    ensures RhoInverse(Rho(s)) == s
  {
    hide At, Rho, RhoInverse, Offset;
    forall x, y, z | 0 <= x < 5 && 0 <= y < 5 && 0 <= z < LANE
      ensures At(RhoInverse(Rho(s)), x, y, z) == At(s, x, y, z)
    {
      AtRhoInverse(Rho(s), x, y, z);
      AtRho(s, x, y, z + Offset(x, y));
    }
    SameCells(RhoInverse(Rho(s)), s);
  }

  lemma RhoRight(t: State)
    ensures Rho(RhoInverse(t)) == t
  {
    hide At, Rho, RhoInverse, Offset;
    forall x, y, z | 0 <= x < 5 && 0 <= y < 5 && 0 <= z < LANE
      ensures At(Rho(RhoInverse(t)), x, y, z) == At(t, x, y, z)
    {
      AtRho(RhoInverse(t), x, y, z);
      AtRhoInverse(t, x, y, z - Offset(x, y));
    }
    SameCells(Rho(RhoInverse(t)), t);
  }

  lemma ShiftByFives(a: int, b: int, k: int)
    requires b == a + 5 * k
    ensures a % 5 == b % 5
  {
  }

  lemma AtPi(s: State, x: int, y: int, z: int)
    ensures At(Pi(s), x, y, z) == At(s, x + 3 * y, x, z)
  {
    hide At, Tabulate;
    AtTabulate((x: int, y: int, z: int) => At(s, x + 3 * y, x, z), x, y, z);
    ShiftByFives(x % 5 + 3 * (y % 5), x + 3 * y, x / 5 + 3 * (y / 5));
    AtWraps(s, x % 5 + 3 * (y % 5), x % 5, z % LANE, x + 3 * y, x, z);
  }

  /** The lane at (x, y) came from sheet y, and the standard's 3 is undone by 2 modulo 5. */
  function PiInverse(t: State): State {
    Tabulate((x: int, y: int, z: int) => At(t, y, 2 * (x - y), z))
  }

  lemma AtPiInverse(t: State, x: int, y: int, z: int)
    ensures At(PiInverse(t), x, y, z) == At(t, y, 2 * (x - y), z)
  {
    hide At, Tabulate;
    AtTabulate((x: int, y: int, z: int) => At(t, y, 2 * (x - y), z), x, y, z);
    ShiftByFives(2 * (x % 5 - y % 5), 2 * (x - y), 2 * (x / 5 - y / 5));
    AtWraps(t, y % 5, 2 * (x % 5 - y % 5), z % LANE, y, 2 * (x - y), z);
  }

  lemma PiLeft(s: State)
    ensures PiInverse(Pi(s)) == s
  {
    hide At, Pi, PiInverse;
    forall x, y, z
      ensures At(PiInverse(Pi(s)), x, y, z) == At(s, x, y, z)
    {
      AtPiInverse(Pi(s), x, y, z);
      AtPi(s, y, 2 * (x - y), z);
      ShiftByFives(y + 3 * (2 * (x - y)), x, y - x);
      AtWraps(s, y + 3 * (2 * (x - y)), y, z, x, y, z);
    }
    SameCells(PiInverse(Pi(s)), s);
  }

  lemma PiRight(t: State)
    ensures Pi(PiInverse(t)) == t
  {
    hide At, Pi, PiInverse;
    forall x, y, z
      ensures At(Pi(PiInverse(t)), x, y, z) == At(t, x, y, z)
    {
      AtPi(PiInverse(t), x, y, z);
      AtPiInverse(t, x + 3 * y, x, z);
      ShiftByFives(2 * (x + 3 * y - x), y, -y);
      AtWraps(t, x, 2 * (x + 3 * y - x), z, x, y, z);
    }
    SameCells(Pi(PiInverse(t)), t);
  }

  // ---- Chi: every row of five bits is permuted ------------------------------

  function ChiRow(a: bool, b: bool, c: bool): bool { a != (!b && c) }

  function ChiRowInverse(a: bool, b: bool, c: bool, d: bool, e: bool): bool {
    a != (!b && (c != (!d && (e != (!a && b)))))
  }

  /** The inverse of chi on the row through (x, y, z), read from x on. */
  function RowInverseAt(t: State, x: int, y: int, z: int): bool {
    ChiRowInverse(At(t, x, y, z), At(t, x + 1, y, z), At(t, x + 2, y, z), At(t, x + 3, y, z), At(t, x + 4, y, z))
  }

  function ChiInverse(t: State): State {
    Tabulate((x: int, y: int, z: int) => RowInverseAt(t, x, y, z))
  }

  lemma AtChi(s: State, x: int, y: int, z: int)
    ensures At(Chi(s), x, y, z) == ChiRow(At(s, x, y, z), At(s, x + 1, y, z), At(s, x + 2, y, z))
  {
    hide At, Tabulate;
    AtTabulate((x: int, y: int, z: int) => At(s, x, y, z) != (!At(s, x + 1, y, z) && At(s, x + 2, y, z)), x, y, z);
    AtWraps(s, x % 5, y % 5, z % LANE, x, y, z);
    AtWraps(s, x % 5 + 1, y % 5, z % LANE, x + 1, y, z);
    AtWraps(s, x % 5 + 2, y % 5, z % LANE, x + 2, y, z);
  }

  lemma AtChiInverse(t: State, x: int, y: int, z: int)
    ensures At(ChiInverse(t), x, y, z) == RowInverseAt(t, x, y, z)
  {
    hide At, Tabulate;
    AtTabulate((x: int, y: int, z: int) => RowInverseAt(t, x, y, z), x, y, z);
    AtWraps(t, x % 5, y % 5, z % LANE, x, y, z);
    AtWraps(t, x % 5 + 1, y % 5, z % LANE, x + 1, y, z);
    AtWraps(t, x % 5 + 2, y % 5, z % LANE, x + 2, y, z);
    AtWraps(t, x % 5 + 3, y % 5, z % LANE, x + 3, y, z);
    AtWraps(t, x % 5 + 4, y % 5, z % LANE, x + 4, y, z);
  }

  lemma ChiLeft(s: State)
    ensures ChiInverse(Chi(s)) == s
  {
    hide At, Chi, ChiInverse;
    forall x, y, z
      ensures At(ChiInverse(Chi(s)), x, y, z) == At(s, x, y, z)
    {
      AtChiInverse(Chi(s), x, y, z);
      AtChi(s, x, y, z);
      AtChi(s, x + 1, y, z);
      AtChi(s, x + 2, y, z);
      AtChi(s, x + 3, y, z);
      AtChi(s, x + 4, y, z);
      AtWraps(s, x + 5, y, z, x, y, z);
      AtWraps(s, x + 6, y, z, x + 1, y, z);
    }
    SameCells(ChiInverse(Chi(s)), s);
  }

  lemma ChiRight(t: State)
    ensures Chi(ChiInverse(t)) == t
  {
    hide At, Chi, ChiInverse;
    forall x, y, z
      ensures At(Chi(ChiInverse(t)), x, y, z) == At(t, x, y, z)
    {
      AtChi(ChiInverse(t), x, y, z);
      AtChiInverse(t, x, y, z);
      AtChiInverse(t, x + 1, y, z);
      AtChiInverse(t, x + 2, y, z);
      AtWraps(t, x + 5, y, z, x, y, z);
      AtWraps(t, x + 6, y, z, x + 1, y, z);
    }
    SameCells(Chi(ChiInverse(t)), t);
  }

  // ---- Iota, the round, and the permutation ---------------------------------

  lemma AtIota(s: State, ir: nat, x: int, y: int, z: int)
    requires 0 <= x < 5 && 0 <= y < 5 && 0 <= z < LANE
    ensures At(Iota(s, ir), x, y, z) == (At(s, x, y, z) != (x == 0 && y == 0 && RoundConstantBit(ir, z)))
  {
    hide At, Tabulate, RoundConstantBit;
    AtTabulate((x: int, y: int, z: int) => At(s, x, y, z) != (x == 0 && y == 0 && RoundConstantBit(ir, z)), x, y, z);
  }

  lemma IotaTwice(s: State, ir: nat)
    ensures Iota(Iota(s, ir), ir) == s
  {
    hide At, Iota, RoundConstantBit;
    forall x, y, z | 0 <= x < 5 && 0 <= y < 5 && 0 <= z < LANE
      ensures At(Iota(Iota(s, ir), ir), x, y, z) == At(s, x, y, z)
    {
      AtIota(Iota(s, ir), ir, x, y, z);
      AtIota(s, ir, x, y, z);
    }
    SameCells(Iota(Iota(s, ir), ir), s);
  }

  function RoundInverse(t: State, ir: nat): State {
    ThetaInverse(RhoInverse(PiInverse(ChiInverse(Iota(t, ir)))))
  }

  lemma RoundLeft(s: State, ir: nat)
    ensures RoundInverse(Round(s, ir), ir) == s
  {
    hide Theta, ThetaInverse, Rho, RhoInverse, Pi, PiInverse, Chi, ChiInverse, Iota;
    IotaTwice(Chi(Pi(Rho(Theta(s)))), ir);
    ChiLeft(Pi(Rho(Theta(s))));
    PiLeft(Rho(Theta(s)));
    RhoLeft(Theta(s));
    ThetaLeft(s);
  }

  lemma RoundRight(t: State, ir: nat)
    ensures Round(RoundInverse(t, ir), ir) == t
  {
    hide Theta, ThetaInverse, Rho, RhoInverse, Pi, PiInverse, Chi, ChiInverse, Iota;
    var c := Iota(t, ir);
    var p := ChiInverse(c);
    var r := PiInverse(p);
    ThetaRight(RhoInverse(r));
    RhoRight(r);
    PiRight(p);
    ChiRight(c);
    IotaTwice(t, ir);
  }

  /** Undo the last round first. */
  function RoundsBack(t: State, ir: nat): State
    decreases ROUNDS - ir
  {
    if ir >= ROUNDS then t else RoundInverse(RoundsBack(t, ir + 1), ir)
  }

  lemma {:induction false} RoundsLeft(s: State, ir: nat)
    ensures RoundsBack(RoundsFrom(s, ir), ir) == s
    decreases ROUNDS - ir
  {
    hide Round, RoundInverse;
    if ir < ROUNDS {
      RoundsLeft(Round(s, ir), ir + 1);
      RoundLeft(s, ir);
    }
  }

  lemma {:induction false} RoundsRight(t: State, ir: nat)
    ensures RoundsFrom(RoundsBack(t, ir), ir) == t
    decreases ROUNDS - ir
  {
    hide Round, RoundInverse;
    if ir < ROUNDS {
      RoundRight(RoundsBack(t, ir + 1), ir);
      RoundsRight(t, ir + 1);
    }
  }

  /** KECCAK-f[1600] is a bijection on all 1600-bit states, with RoundsBack its inverse. */
  lemma PermutationIsBijective(s: State, t: State)
    ensures KeccakF(s) == KeccakF(t) <==> s == t
    ensures KeccakF(RoundsBack(t, 0)) == t
    ensures RoundsBack(KeccakF(s), 0) == s
  {
    hide RoundsFrom, RoundsBack;
    RoundsLeft(s, 0);
    RoundsLeft(t, 0);
    RoundsRight(t, 0);
  }
}
