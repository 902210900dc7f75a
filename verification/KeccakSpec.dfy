/** KECCAK[512](M, 256) as FIPS 202 writes it: over bit strings, with its own generated tables.
    Nothing here mentions lanes, masks or bytes. */
module KeccakSpec {

  const WIDTH: nat := 1600
  const LANE: nat := 64

  /** The state string S of section 3.1.1, with A[x,y,z] = S[64(5y + x) + z]. */
  type State = s: seq<bool> | |s| == WIDTH witness seq(WIDTH, _ => false)

  /** A[x,y,z], with each coordinate taken modulo its range as the standard does. */
  function At(s: State, x: int, y: int, z: int): bool {
    s[LANE * (5 * (y % 5) + x % 5) + z % LANE]
  }

  /** The state whose cell (x,y,z) is f(x,y,z). */
  function Tabulate(f: (int, int, int) -> bool): State {
    seq(WIDTH, (i: nat) => f((i / LANE) % 5, i / (5 * LANE), i % LANE))
  }

  lemma AtTabulate(f: (int, int, int) -> bool, x: int, y: int, z: int)
    ensures At(Tabulate(f), x, y, z) == f(x % 5, y % 5, z % LANE)
  {
    var i := LANE * (5 * (y % 5) + x % 5) + z % LANE;
    assert i / LANE == 5 * (y % 5) + x % 5;
    assert i / (5 * LANE) == y % 5;
    assert i % LANE == z % LANE;
  }

  /** Coordinates matter only modulo their range. */
  lemma AtWraps(s: State, x: int, y: int, z: int, x': int, y': int, z': int)
    requires x % 5 == x' % 5 && y % 5 == y' % 5 && z % LANE == z' % LANE
    ensures At(s, x, y, z) == At(s, x', y', z')
  {
  }

  /** Two states with the same cells are the same string. */
  lemma SameCells(s: State, t: State)
    requires forall x, y, z :: 0 <= x < 5 && 0 <= y < 5 && 0 <= z < LANE ==> At(s, x, y, z) == At(t, x, y, z)
    ensures s == t
  {
    forall i | 0 <= i < WIDTH
      ensures s[i] == t[i]
    {
      assert At(s, (i / LANE) % 5, i / (5 * LANE), i % LANE) == At(t, (i / LANE) % 5, i / (5 * LANE), i % LANE);
      assert LANE * (5 * (i / (5 * LANE)) + (i / LANE) % 5) + i % LANE == i;
    }
  }

  // ---- Section 3.2.1: theta -------------------------------------------------

  function Column(s: State, x: int, z: int): bool {
    At(s, x, 0, z) != (At(s, x, 1, z) != (At(s, x, 2, z) != (At(s, x, 3, z) != At(s, x, 4, z))))
  }

  function Effect(s: State, x: int, z: int): bool {
    Column(s, x - 1, z) != Column(s, x + 1, z - 1)
  }

  function Theta(s: State): State {
    Tabulate((x: int, y: int, z: int) => At(s, x, y, z) != Effect(s, x, z))
  }

  // ---- Section 3.2.2: rho ---------------------------------------------------

  /** Step 3 of algorithm 2: walk from (px, py) and use the t-th triangular number where it meets (x, y). */
  function OffsetFrom(x: int, y: int, t: nat, px: int, py: int): nat
    decreases 24 - t
  {
    if t >= 24 then 0
    else if x == px && y == py then (t + 1) * (t + 2) / 2
    else OffsetFrom(x, y, t + 1, py, (2 * px + 3 * py) % 5)
  }

  function Offset(x: int, y: int): nat { OffsetFrom(x, y, 0, 1, 0) }

  function Rho(s: State): State {
    Tabulate((x: int, y: int, z: int) => At(s, x, y, z - Offset(x, y)))
  }

  // ---- Section 3.2.3: pi ----------------------------------------------------

  function Pi(s: State): State {
    Tabulate((x: int, y: int, z: int) => At(s, x + 3 * y, x, z))
  }

  // ---- Section 3.2.4: chi ---------------------------------------------------

  function Chi(s: State): State {
    Tabulate((x: int, y: int, z: int) => At(s, x, y, z) != (!At(s, x + 1, y, z) && At(s, x + 2, y, z)))
  }

  // ---- Section 3.2.5: iota --------------------------------------------------

  /** Algorithm 5: one clock of the register R = R0 R1 .. R7. */
  datatype Register = Register(r0: bool, r1: bool, r2: bool, r3: bool, r4: bool, r5: bool, r6: bool, r7: bool)

  const SEED: Register := Register(true, false, false, false, false, false, false, false)

  function Clock(r: Register): Register {
    Register(r.r7, r.r0, r.r1, r.r2, r.r3 != r.r7, r.r4 != r.r7, r.r5 != r.r7, r.r6)
  }

  function Clocked(r: Register, times: nat): Register
    decreases times
  {
    if times == 0 then r else Clocked(Clock(r), times - 1)
  }

  /** rc(t). */
  function RoundBit(t: nat): bool { Clocked(SEED, t % 255).r0 }

  /** The exponent j with z = 2^j - 1, or 7 when there is none. */
  function Exponent(z: int): nat {
    if z == 0 then 0 else if z == 1 then 1 else if z == 3 then 2 else if z == 7 then 3
    else if z == 15 then 4 else if z == 31 then 5 else if z == 63 then 6 else 7
  }

  /** Bit z of RC for round ir. */
  function RoundConstantBit(ir: nat, z: int): bool {
    Exponent(z) < 7 && RoundBit(Exponent(z) + 7 * ir)
  }

  function Iota(s: State, ir: nat): State {
    Tabulate((x: int, y: int, z: int) => At(s, x, y, z) != (x == 0 && y == 0 && RoundConstantBit(ir, z)))
  }

  // ---- Section 3.3: the permutation -----------------------------------------

  const ROUNDS: nat := 24

  function Round(s: State, ir: nat): State { Iota(Chi(Pi(Rho(Theta(s)))), ir) }

  /** The rounds from ir on. */
  function RoundsFrom(s: State, ir: nat): State
    decreases ROUNDS - ir
  {
    if ir >= ROUNDS then s else RoundsFrom(Round(s, ir), ir + 1)
  }

  function KeccakF(s: State): State { RoundsFrom(s, 0) }

  // ---- Sections 4 and 5: the sponge -----------------------------------------

  function Zeros(n: nat): (z: seq<bool>)
    ensures |z| == n
  {
    seq(n, _ => false)
  }

  /** Section 5.1: pad10*1(x, m). */
  function Pad(x: nat, m: nat): (p: seq<bool>)
    requires x > 0
    ensures (m + |p|) % x == 0
  {
    var j := (-(m as int) - 2) % x;
    PadLength(x, m);
    [true] + Zeros(j) + [true]
  }

  lemma PadLength(x: nat, m: nat)
    requires x > 0
    ensures (m + 2 + (-(m as int) - 2) % x) % x == 0
  {
    var a: int := -(m as int) - 2;
    assert a == x * (a / x) + a % x;
    assert m + 2 + a % x == x * -(a / x);
    MultipleOf(x, -(a / x));
  }

  lemma MultipleOf(x: int, k: int)
    requires x > 0
    ensures (x * k) % x == 0
  {
    var q := (x * k) / x;
    assert (x * k) % x == x * (k - q);
    ScaleBeyond(x, k - q);
  }

  lemma ScaleBeyond(x: int, d: int)
    requires x > 0
    ensures d >= 1 ==> x * d >= x
    ensures d <= -1 ==> x * d <= -x
  {
  }

  function XorBits(a: seq<bool>, b: seq<bool>): (c: seq<bool>)
    requires |a| == |b|
    ensures |c| == |a|
  {
    seq(|a|, i requires 0 <= i < |a| => a[i] != b[i])
  }

  /** Algorithm 8, steps 3 to 6: absorb a padded string block by block. */
  function Absorb(s: State, p: seq<bool>, r: nat): State
    requires 0 < r <= WIDTH && |p| % r == 0
    decreases |p|
  {
    if |p| < r then s
    else
      ShorterMultiple(|p|, r);
      Absorb(KeccakF(XorBits(s, p[..r] + Zeros(WIDTH - r))), p[r..], r)
  }

  lemma ShorterMultiple(n: nat, r: nat)
    requires 0 < r <= n && n % r == 0
    ensures (n - r) % r == 0
  {
    assert n - r == r * (n / r - 1);
    MultipleOf(r, n / r - 1);
  }

  /** Algorithm 8, steps 7 to 10. */
  function Squeeze(s: State, d: nat, r: nat): (z: seq<bool>)
    requires 0 < r <= WIDTH
    ensures |z| == d
    decreases d
  {
    if d <= r then s[..d] else s[..r] + Squeeze(KeccakF(s), d - r, r)
  }

  /** SPONGE[KECCAK-f[1600], pad10*1, r](N, d). */
  function Sponge(n: seq<bool>, d: nat, r: nat): (z: seq<bool>)
    requires 0 < r <= WIDTH
    ensures |z| == d
  {
    Squeeze(Absorb(Zeros(WIDTH), n + Pad(r, |n|), r), d, r)
  }

  /** Section 5.2: KECCAK[c](N, d). */
  function Keccak(c: nat, n: seq<bool>, d: nat): (z: seq<bool>)
    requires c < WIDTH
    ensures |z| == d
  {
    Sponge(n, d, WIDTH - c)
  }
}
