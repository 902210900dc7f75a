/** The sponge as publication/keccak.py runs it, in place on a 5 by 5 grid of unbounded integers,
    proved to compute KECCAK[512](M, 256). */
module Keccak {
  import opened PyInt
  import opened KeccakTables
  import opened KeccakLanes
  import opened KeccakPadding
  import S = KeccakSpec

  const LANE_BYTES: nat := 8
  const DIGEST_BYTES: nat := 32
  const PAD_BYTE: byte := 0x01
  const PAD_FINAL_BIT: byte := 0x80

  // ---- The state ------------------------------------------------------------

  ghost predicate Shaped(state: array2<int>) {
    state.Length0 == 5 && state.Length1 == 5
  }

  ghost function Snapshot(state: array2<int>): (g: Lanes)
    requires Shaped(state)
    reads state
    ensures forall x, y :: 0 <= x < 5 && 0 <= y < 5 ==> g[x][y] == state[x, y]
  {
    seq(5, x requires 0 <= x < 5 reads state => seq(5, y requires 0 <= y < 5 reads state => state[x, y]))
  }

  /** A well-formed state: 25 lanes, every one below 2^64. */
  ghost predicate Valid(state: array2<int>)
    reads state
  {
    Shaped(state) && Bounded(Snapshot(state))
  }

  /** The 1600 bits the state stands for. */
  ghost function Bits(state: array2<int>): S.State
    requires Valid(state)
    reads state
  {
    BitsOf(Snapshot(state))
  }

  // ---- The step mappings, in place ------------------------------------------

  method Theta(state: array2<int>)
    requires Valid(state)
    modifies state
    ensures Valid(state) && Bits(state) == S.Theta(old(Bits(state)))
  {
    hide XorLane, Rotate, IsLane, BitsOf, S.Theta;
    ghost var g := Snapshot(state);
    var columns := seq(5, x requires 0 <= x < 5 && Shaped(state) reads state =>
      XorLane(XorLane(XorLane(XorLane(state[x, 0], state[x, 1]), state[x, 2]), state[x, 3]), state[x, 4]));
    assert forall i :: 0 <= i < 5 ==> columns[i] == ColumnLane(g, i);
    hide ColumnLane;
    var parities := seq(5, x requires 0 <= x < 5 => XorLane(columns[(x - 1) % 5], Rotate(columns[(x + 1) % 5], 1)));
    assert forall i :: 0 <= i < 5 ==> parities[i] == EffectLane(g, i) by {
      forall i | 0 <= i < 5
        ensures parities[i] == EffectLane(g, i)
      {
        ColumnLaneWraps(g, i - 1);
        ColumnLaneWraps(g, i + 1);
      }
    }
    AddParities(state, parities, g);
    ThetaRefines(g, Snapshot(state));
  }

  lemma ColumnLaneWraps(g: Lanes, x: int)
    ensures ColumnLane(g, x % 5) == ColumnLane(g, x)
  {
    hide XorLane;
  }

  /** The double loop that ends _theta. */
  method AddParities(state: array2<int>, parities: seq<int>, ghost g: Lanes)
    requires Shaped(state) && Snapshot(state) == g
    requires |parities| == 5 && forall i :: 0 <= i < 5 ==> parities[i] == EffectLane(g, i)
    modifies state
    ensures forall i, j :: 0 <= i < 5 && 0 <= j < 5 ==> state[i, j] == XorLane(g[i][j], EffectLane(g, i))
  {
    hide XorLane, EffectLane;
    for x := 0 to 5
      invariant forall i, j :: 0 <= i < 5 && 0 <= j < 5 ==>
                  state[i, j] == if i < x then XorLane(g[i][j], EffectLane(g, i)) else g[i][j]
    {
      for y := 0 to 5
        invariant forall i, j :: 0 <= i < 5 && 0 <= j < 5 ==>
                    state[i, j] == if i < x || (i == x && j < y) then XorLane(g[i][j], EffectLane(g, i)) else g[i][j]
      {
        state[x, y] := XorLane(state[x, y], parities[x]);
      }
    }
  }

  lemma SourcesInRange()
    ensures forall u, v :: 0 <= SourceX(u, v) < 5
  {
  }

  method RhoAndPi(state: array2<int>) returns (moved: array2<int>)
    requires Valid(state)
    ensures fresh(moved) && Valid(moved) && Bits(moved) == S.Pi(S.Rho(Bits(state)))
  {
    hide Rotate, Bounded, BitsOf, S.Pi, S.Rho, SourceX, MovedLane;
    ghost var g := Snapshot(state);
    SourcesInRange();
    moved := new int[5, 5]((i, j) => 0);
    for x := 0 to 5
      invariant forall u, v :: 0 <= u < 5 && 0 <= v < 5 && SourceX(u, v) < x ==> moved[u, v] == MovedLane(g, u, v)
    {
      for y := 0 to 5
        invariant forall u, v :: 0 <= u < 5 && 0 <= v < 5 && SourceX(u, v) < x ==> moved[u, v] == MovedLane(g, u, v)
        invariant forall u, v :: 0 <= u < y && 0 <= v < 5 && SourceX(u, v) == x ==> moved[u, v] == MovedLane(g, u, v)
      {
        OnlySource(x, y);
        MovedFrom(g, x, y);
        moved[y, (2 * x + 3 * y) % 5] := Rotate(state[x, y], ROTATIONS[x][y]);
      }
    }
    RhoPiRefines(g, Snapshot(moved));
  }

  /** The `[list(column) for column in state]` of _chi. */
  method Copied(state: array2<int>) returns (previous: array2<int>)
    requires Shaped(state)
    ensures fresh(previous) && Shaped(previous) && Snapshot(previous) == Snapshot(state)
  {
    previous := new int[5, 5]((x, y) requires 0 <= x < 5 && 0 <= y < 5 && Shaped(state) reads state => state[x, y]);
    SameLanes(Snapshot(previous), Snapshot(state));
  }

  lemma ChiLaneInRange(g: Lanes, x: int, y: int)
    requires 0 <= x < 5 && 0 <= y < 5
    ensures ChiLaneAt(g, x, y) == ChiLane(g[x][y], g[(x + 1) % 5][y], g[(x + 2) % 5][y])
  {
    hide ChiLane;
  }

  method Chi(state: array2<int>)
    requires Valid(state)
    modifies state
    ensures Valid(state) && Bits(state) == S.Chi(old(Bits(state)))
  {
    hide ChiLane, ChiLaneAt, Bounded, BitsOf, S.Chi;
    ghost var g := Snapshot(state);
    var previous := Copied(state);
    for x := 0 to 5
      modifies state
      invariant forall i, j :: 0 <= i < 5 && 0 <= j < 5 ==> state[i, j] == if i < x then ChiLaneAt(g, i, j) else g[i][j]
    {
      for y := 0 to 5
        modifies state
        invariant forall i, j :: 0 <= i < 5 && 0 <= j < 5 ==>
                    state[i, j] == if i < x || (i == x && j < y) then ChiLaneAt(g, i, j) else g[i][j]
      {
        ChiLaneInRange(g, x, y);
        state[x, y] := ChiLane(previous[x, y], previous[(x + 1) % 5, y], previous[(x + 2) % 5, y]);
      }
    }
    ChiRefines(g, Snapshot(state));
  }

  /** One turn of the loop in _permute. */
  method Round(state: array2<int>, ir: nat)
    requires Valid(state) && ir < 24
    requires |ROUND_CONSTANTS| == 24
    modifies state
    ensures Valid(state) && Bits(state) == S.Round(old(Bits(state)), ir)
  {
    hide XorLane, Bounded, BitsOf, S.Theta, S.Rho, S.Pi, S.Chi, S.Iota;
    Theta(state);
    var moved := RhoAndPi(state);
    forall x, y | 0 <= x < 5 && 0 <= y < 5 {
      state[x, y] := moved[x, y];
    }
    SameLanes(Snapshot(state), Snapshot(moved));
    Chi(state);
    ghost var g := Snapshot(state);
    state[0, 0] := XorLane(state[0, 0], ROUND_CONSTANTS[ir]);
    IotaRefines(g, Snapshot(state), ir);
  }

  method Permute(state: array2<int>)
    requires Valid(state)
    modifies state
    ensures Valid(state) && Bits(state) == S.KeccakF(old(Bits(state)))
  {
    hide Bits, Valid, S.Round;
    for ir := 0 to 24
      invariant Valid(state)
      invariant S.RoundsFrom(Bits(state), ir) == S.KeccakF(old(Bits(state)))
    {
      ConstantIsLane(ir);
      Round(state, ir);
    }
  }

  // ---- The sponge -----------------------------------------------------------

  /** pad10*1 on bytes, cut into blocks of the rate: never empty, every block whole, and
      bit for bit the string that section 5.1 of FIPS 202 prescribes. */
  method Blocks(data: seq<byte>) returns (blocks: seq<seq<byte>>)
    ensures |blocks| >= 1 && forall i :: 0 <= i < |blocks| ==> |blocks[i]| == RATE_BYTES
    ensures ByteBits(Joined(blocks)) == ByteBits(data) + S.Pad(RATE, 8 * |data|)
  {
    hide Bitwise, ByteBits, S.Pad, Tail, Joined;
    var padded := data + [PAD_BYTE];
    ghost var k: nat := 0;
    while |padded| % RATE_BYTES != 0
      invariant k <= Filler(|data|) && padded == data + [PAD_BYTE] + ZeroBytes(k)
      decreases Filler(|data|) - k
    {
      FillerIsFirst(|data|, k);
      padded := padded + [0];
      k := k + 1;
      assert ZeroBytes(k) == ZeroBytes(k - 1) + [0];
    }
    FillerIsFirst(|data|, k);
    LastByteSet(data, padded);
    padded := padded[|padded| - 1 := Bitwise(Or, padded[|padded| - 1], PAD_FINAL_BIT)];
    ByteBitsConcat(data, Tail(|data|));
    TailBits(|data|);
    blocks := Cut(padded);
  }

  lemma LastByteSet(data: seq<byte>, padded: seq<byte>)
    requires padded == data + [PAD_BYTE] + ZeroBytes(Filler(|data|))
    ensures 0 <= Bitwise(Or, padded[|padded| - 1], PAD_FINAL_BIT) < 0x100
    ensures padded[|padded| - 1 := Bitwise(Or, padded[|padded| - 1], PAD_FINAL_BIT)] == data + Tail(|data|)
  {
    hide Bitwise, Filler;
    FinalBit();
  }

  /** The comprehension that slices the padded bytes. */
  method Cut(padded: seq<byte>) returns (blocks: seq<seq<byte>>)
    requires |padded| % RATE_BYTES == 0
    ensures RATE_BYTES * |blocks| == |padded| && forall i :: 0 <= i < |blocks| ==> |blocks[i]| == RATE_BYTES
    ensures Joined(blocks) == padded
  {
    hide Joined;
    blocks := [];
    JoinedNothing();
    var start := 0;
    while start < |padded|
      invariant start <= |padded| && start == RATE_BYTES * |blocks|
      invariant forall i :: 0 <= i < |blocks| ==> |blocks[i]| == RATE_BYTES
      invariant Joined(blocks) == padded[..start]
    {
      JoinedSnoc(blocks, padded[start..start + RATE_BYTES]);
      assert padded[..start] + padded[start..start + RATE_BYTES] == padded[..start + RATE_BYTES];
      blocks := blocks + [padded[start..start + RATE_BYTES]];
      start := start + RATE_BYTES;
    }
    assert padded[..start] == padded;
  }

  lemma JoinedNothing()
    ensures Joined([]) == []
  {
  }

  /** The lane that position p of a block holds. */
  function BlockLane(block: seq<byte>, p: nat): int
    requires |block| == RATE_BYTES && p < 17
  {
    FromBytes(block[p * LANE_BYTES..(p + 1) * LANE_BYTES])
  }

  function AbsorbedLane(g: Lanes, block: seq<byte>, x: int, y: int): int
    requires |block| == RATE_BYTES && 0 <= x < 5 && 0 <= y < 5
  {
    if 5 * y + x < 17 then XorLane(g[x][y], BlockLane(block, 5 * y + x)) else g[x][y]
  }

  lemma BlockLaneBits(block: seq<byte>, p: nat, z: nat)
    requires |block| == RATE_BYTES && p < 17 && z < S.LANE
    ensures IsLane(BlockLane(block, p)) && Bit(BlockLane(block, p), z) == ByteBits(block)[S.LANE * p + z]
  {
    hide Bit, FromBytes, Power;
    var part := block[p * LANE_BYTES..(p + 1) * LANE_BYTES];
    FromBytesBound(part);
    FromBytesBits(part, z);
    assert part[z / 8] == block[p * LANE_BYTES + z / 8];
  }

  lemma AbsorbedBits(g: Lanes, block: seq<byte>, x: int, y: int, z: nat)
    requires Bounded(g) && |block| == RATE_BYTES && 0 <= x < 5 && 0 <= y < 5 && z < S.LANE
    ensures IsLane(AbsorbedLane(g, block, x, y))
    ensures Bit(AbsorbedLane(g, block, x, y), z)
         == S.At(S.XorBits(BitsOf(g), ByteBits(block) + S.Zeros(S.WIDTH - RATE)), x, y, z)
  {
    hide Bit, IsLane, BitsOf, XorLane, BlockLane, ByteBits;
    AtBitsOf(g, x, y, z);
    if 5 * y + x < 17 {
      BlockLaneBits(block, 5 * y + x, z);
      XorLaneBits(g[x][y], BlockLane(block, 5 * y + x), z);
    }
  }

  lemma AbsorbRefines(g: Lanes, h: Lanes, block: seq<byte>)
    requires Bounded(g) && |block| == RATE_BYTES
    requires forall x, y :: 0 <= x < 5 && 0 <= y < 5 ==> h[x][y] == AbsorbedLane(g, block, x, y)
    ensures Bounded(h) && BitsOf(h) == S.XorBits(BitsOf(g), ByteBits(block) + S.Zeros(S.WIDTH - RATE))
  {
    hide Bit, IsLane, BitsOf, S.At, S.XorBits, AbsorbedLane;
    var t := S.XorBits(BitsOf(g), ByteBits(block) + S.Zeros(S.WIDTH - RATE));
    forall x, y, z | 0 <= x < 5 && 0 <= y < 5 && 0 <= z < S.LANE
      ensures IsLane(h[x][y]) && S.At(BitsOf(h), x, y, z) == S.At(t, x, y, z)
    {
      AtBitsOf(h, x, y, z);
      AbsorbedBits(g, block, x, y, z);
    }
    assert forall x, y :: 0 <= x < 5 && 0 <= y < 5 ==> S.At(BitsOf(h), x, y, 0) == S.At(t, x, y, 0) && IsLane(h[x][y]);
    S.SameCells(BitsOf(h), t);
  }

  /** Exclusive-or one block into the rate; the capacity is untouched. */
  method Absorb(state: array2<int>, block: seq<byte>)
    requires Valid(state) && |block| == RATE_BYTES
    modifies state
    ensures Valid(state)
    ensures Bits(state) == S.XorBits(old(Bits(state)), ByteBits(block) + S.Zeros(S.WIDTH - RATE))
  {
    hide XorLane, FromBytes, Bounded, BitsOf, ByteBits, S.XorBits;
    ghost var g := Snapshot(state);
    for position := 0 to RATE_BYTES / LANE_BYTES
      invariant forall x, y :: 0 <= x < 5 && 0 <= y < 5 ==>
                  state[x, y] == if 5 * y + x < position then AbsorbedLane(g, block, x, y) else g[x][y]
    {
      var lane := FromBytes(block[position * LANE_BYTES..(position + 1) * LANE_BYTES]);
      state[position % 5, position / 5] := XorLane(state[position % 5, position / 5], lane);
    }
    AbsorbRefines(g, Snapshot(state), block);
  }

  lemma LaneBytes(g: Lanes, p: nat)
    requires Bounded(g) && p < 25
    ensures IsLane(g[p % 5][p / 5]) && ByteBits(ToBytes(g[p % 5][p / 5], LANE_BYTES)) == BitsOf(g)[S.LANE * p..S.LANE * (p + 1)]
  {
    hide Bit, BitsOf, ToBytes, Power, ByteBits;
    var lane := g[p % 5][p / 5];
    forall z | 0 <= z < S.LANE
      ensures ByteBits(ToBytes(lane, LANE_BYTES))[z] == BitsOf(g)[S.LANE * p..S.LANE * (p + 1)][z]
    {
      ToBytesBits(lane, LANE_BYTES, z);
      AtBitsOf(g, p % 5, p / 5, z);
    }
  }

  /** The first 256 bits of the state; the loop never needs a second permutation. */
  method Squeeze(state: array2<int>) returns (digest: seq<byte>)
    requires Valid(state)
    ensures |digest| == DIGEST_BYTES && ByteBits(digest) == S.Squeeze(Bits(state), 8 * DIGEST_BYTES, RATE)
  {
    hide Power, BitsOf, ByteBits, ToBytes;
    ghost var g := Snapshot(state);
    var out := [];
    var position := 0;
    while |out| < DIGEST_BYTES
      invariant |out| == LANE_BYTES * position <= DIGEST_BYTES
      invariant ByteBits(out) == BitsOf(g)[..S.LANE * position]
    {
      LaneBytes(g, position);
      var bytes := ToBytes(state[position % 5, position / 5], LANE_BYTES);
      ByteBitsConcat(out, bytes);
      assert BitsOf(g)[..S.LANE * position] + BitsOf(g)[S.LANE * position..S.LANE * (position + 1)]
          == BitsOf(g)[..S.LANE * (position + 1)];
      out := out + bytes;
      position := position + 1;
    }
    digest := out[..DIGEST_BYTES];
    assert digest == out;
  }

  lemma ZeroState(g: Lanes)
    requires forall x, y :: 0 <= x < 5 && 0 <= y < 5 ==> g[x][y] == 0
    ensures Bounded(g) && BitsOf(g) == S.Zeros(S.WIDTH)
  {
    hide BitsOf, Bit, Power;
    PowerPositive(S.LANE);
    forall x, y, z | 0 <= x < 5 && 0 <= y < 5 && 0 <= z < S.LANE
      ensures S.At(BitsOf(g), x, y, z) == S.At(S.Zeros(S.WIDTH), x, y, z)
    {
      AtBitsOf(g, x, y, z);
      SignBits(0, z);
    }
    S.SameCells(BitsOf(g), S.Zeros(S.WIDTH));
  }

  /** One more block of the string is one more turn of algorithm 8's loop. */
  lemma AbsorbStep(s: S.State, block: seq<byte>, rest: seq<byte>)
    requires |block| == RATE_BYTES && |rest| % RATE_BYTES == 0
    ensures S.Absorb(s, ByteBits(block + rest), RATE)
         == S.Absorb(S.KeccakF(S.XorBits(s, ByteBits(block) + S.Zeros(S.WIDTH - RATE))), ByteBits(rest), RATE)
  {
    hide ByteBits, S.KeccakF, S.XorBits;
    ByteBitsConcat(block, rest);
    var p := ByteBits(block + rest);
    assert p[..RATE] == ByteBits(block) && p[RATE..] == ByteBits(rest);
  }

  lemma {:induction false} WholeBlocks(blocks: seq<seq<byte>>)
    requires forall i :: 0 <= i < |blocks| ==> |blocks[i]| == RATE_BYTES
    ensures |Joined(blocks)| == RATE_BYTES * |blocks|
  {
    if blocks != [] {
      WholeBlocks(blocks[1..]);
    }
  }

  /** keccak256(data) is KECCAK[512](data, 256), for every byte string. */
  method Keccak256(data: seq<byte>) returns (digest: seq<byte>)
    ensures |digest| == DIGEST_BYTES
    ensures ByteBits(digest) == S.Keccak(512, ByteBits(data), 256)
  {
    hide ByteBits, Joined, S.Pad, Valid, Bits, S.KeccakF, S.XorBits, S.Squeeze, S.Absorb;
    var state := ZeroedState();
    var blocks := Blocks(data);
    ghost var message := ByteBits(Joined(blocks));
    WholeBlocks(blocks);
    for i := 0 to |blocks|
      invariant Valid(state)
      invariant |Joined(blocks[i..])| % RATE_BYTES == 0
      invariant S.Absorb(Bits(state), ByteBits(Joined(blocks[i..])), RATE) == S.Absorb(S.Zeros(S.WIDTH), message, RATE)
    {
      FirstBlock(blocks, i);
      WholeBlocks(blocks[i + 1..]);
      AbsorbStep(Bits(state), blocks[i], Joined(blocks[i + 1..]));
      Absorb(state, blocks[i]);
      Permute(state);
    }
    NothingLeft(Bits(state), blocks);
    digest := Squeeze(state);
  }

  method ZeroedState() returns (state: array2<int>)
    ensures fresh(state) && Valid(state) && Bits(state) == S.Zeros(S.WIDTH)
  {
    hide Bounded, BitsOf;
    state := new int[5, 5]((x, y) => 0);
    ZeroState(Snapshot(state));
  }

  lemma FirstBlock(blocks: seq<seq<byte>>, i: nat)
    requires i < |blocks|
    ensures Joined(blocks[i..]) == blocks[i] + Joined(blocks[i + 1..])
  {
    assert blocks[i..][1..] == blocks[i + 1..];
  }

  lemma NothingLeft(s: S.State, blocks: seq<seq<byte>>)
    ensures S.Absorb(s, ByteBits(Joined(blocks[|blocks|..])), RATE) == s
  {
  }
}
