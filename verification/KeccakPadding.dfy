/** pad10*1 on bytes: the padded bytes are the padded bits, and the padding can be taken off again. */
module KeccakPadding {
  import opened PyInt
  import opened KeccakLanes
  import S = KeccakSpec

  const RATE_BYTES: nat := 136
  const RATE: nat := 1088

  // ---- Taking the padding off -----------------------------------------------

  function StripZeros(p: seq<bool>): seq<bool> {
    if p == [] || p[|p| - 1] then p else StripZeros(p[..|p| - 1])
  }

  /** Drop the final one, the zeros before it, and the first one. */
  function Unpad(p: seq<bool>): seq<bool> {
    if p == [] then [] else
    var q := StripZeros(p[..|p| - 1]);
    if q == [] then [] else q[..|q| - 1]
  }

  lemma {:induction false} StripAddedZeros(p: seq<bool>, k: nat)
    requires p != [] && p[|p| - 1]
    ensures StripZeros(p + S.Zeros(k)) == p
    decreases k
  {
    if k == 0 {
      assert p + S.Zeros(0) == p;
    } else {
      assert (p + S.Zeros(k))[..|p + S.Zeros(k)| - 1] == p + S.Zeros(k - 1);
      StripAddedZeros(p, k - 1);
    }
  }

  lemma UnpadPad(n: seq<bool>, x: nat)
    requires x > 0
    ensures Unpad(n + S.Pad(x, |n|)) == n
  {
    var pad := S.Pad(x, |n|);
    var j := |pad| - 2;
    assert pad == [true] + S.Zeros(j) + [true];
    var p := n + pad;
    assert p[..|p| - 1] == (n + [true]) + S.Zeros(j);
    StripAddedZeros(n + [true], j);
    assert (n + [true])[..|n|] == n;
  }

  // ---- The padded bytes -----------------------------------------------------

  /** How many zero bytes _blocks appends. */
  function Filler(length: nat): nat { (-(length as int) - 1) % RATE_BYTES }

  function ZeroBytes(k: nat): (z: seq<byte>)
    ensures |z| == k
  {
    seq(k, _ => 0)
  }

  lemma FillerIsFirst(length: nat, k: nat)
    ensures (length + 1 + k) % RATE_BYTES == 0 && k <= Filler(length) ==> k == Filler(length)
    ensures (length + 1 + Filler(length)) % RATE_BYTES == 0
  {
  }

  /** The appended bytes, with the final bit set in the last of them. */
  function Tail(length: nat): (tail: seq<byte>)
    ensures |tail| == Filler(length) + 1
  {
    if Filler(length) == 0 then [0x81] else [0x01] + ZeroBytes(Filler(length) - 1) + [0x80]
  }

  lemma PadByteBits(j: nat)
    requires j < 8
    ensures Bit(0x01, j) == (j == 0) && Bit(0x80, j) == (j == 7) && Bit(0x81, j) == (j == 0 || j == 7) && !Bit(0x00, j)
  {
    hide Bit, Shl, Power;
    SignBits(0, j);
    LowBit(j);
    HighByteBit(j);
    LowAndHigh(j);
  }

  lemma {:induction false} LowBit(j: nat)
    ensures Bit(1, j) == (j == 0)
  {
    if j > 0 {
      SignBits(0, j - 1);
    }
  }

  lemma EightyIsShifted()
    ensures 0x80 == Shl(1, 7) && Power(7) == 0x80
  {
    assert Shl(1, 7) == Shl(8, 4);
  }

  lemma HighByteBit(j: nat)
    requires j < 8
    ensures Bit(0x80, j) == (j == 7)
  {
    hide Shl, Bit, Power;
    EightyIsShifted();
    ShlBit(1, 7, j);
    LowBit(0);
  }

  lemma LowAndHigh(j: nat)
    requires j < 8
    ensures Bit(0x81, j) == (j == 0 || j == 7)
  {
    hide Shl, Bit, Power;
    EightyIsShifted();
    ByteOrShift(1, 1, 7, j);
    LowBit(j);
    LowBit(0);
  }

  lemma TailBits(length: nat)
    ensures ByteBits(Tail(length)) == S.Pad(RATE, 8 * length)
  {
    var t := Filler(length);
    var tail := Tail(length);
    PadCount(length);
    forall i | 0 <= i < 8 * (t + 1)
      ensures ByteBits(tail)[i] == S.Pad(RATE, 8 * length)[i]
    {
      TailBit(length, i);
    }
  }

  lemma PadCount(length: nat)
    ensures (-(8 * length) - 2) % RATE == 8 * Filler(length) + 6
    ensures S.Pad(RATE, 8 * length) == [true] + S.Zeros(8 * Filler(length) + 6) + [true]
  {
    FillerQuotient(length);
    hide Filler;
    var q := (-(length as int) - 1) / RATE_BYTES;
    assert -(8 * length) - 2 == RATE * q + (8 * Filler(length) + 6);
    RateRemainder(-(8 * length) - 2, 8 * Filler(length) + 6, q);
  }

  lemma FillerQuotient(length: nat)
    ensures Filler(length) < RATE_BYTES
    ensures -(length as int) - 1 == RATE_BYTES * ((-(length as int) - 1) / RATE_BYTES) + Filler(length)
  {
  }

  lemma RateRemainder(a: int, r: int, q: int)
    requires a == RATE * q + r && 0 <= r < RATE
    ensures a % RATE == r
  {
  }

  lemma TailBit(length: nat, i: nat)
    requires i < 8 * (Filler(length) + 1)
    ensures ByteBits(Tail(length))[i] == (i == 0 || i == 8 * Filler(length) + 7)
  {
    hide Bit, Filler;
    PadByteBits(i % 8);
    assert ByteBits(Tail(length))[i] == Bit(Tail(length)[i / 8], i % 8);
  }

  /** Setting the final bit of the last byte, `padded[-1] |= 0x80`. */
  lemma FinalBit()
    ensures Bitwise(Or, 0x00, 0x80) == 0x80 && Bitwise(Or, 0x01, 0x80) == 0x81
  {
    OrZero(0x80);
    OrZero(0x40);
    assert Bitwise(Or, 0x01, 0x80) == 2 * Bitwise(Or, 0x00, 0x40) + 1;
  }

  lemma {:induction false} OrZero(n: nat)
    ensures Bitwise(Or, 0, n) == n
  {
    if n > 0 {
      OrZero(n / 2);
    }
  }

  // ---- Blocks ---------------------------------------------------------------

  function Joined(blocks: seq<seq<byte>>): seq<byte> {
    if blocks == [] then [] else blocks[0] + Joined(blocks[1..])
  }

  lemma {:induction false} JoinedSnoc(blocks: seq<seq<byte>>, block: seq<byte>)
    ensures Joined(blocks + [block]) == Joined(blocks) + block
  {
    if blocks == [] {
      assert blocks + [block] == [block];
    } else {
      assert (blocks + [block])[1..] == blocks[1..] + [block];
      JoinedSnoc(blocks[1..], block);
    }
  }

  /** Two messages with the same padded bits are the same message: the padding is injective. */
  lemma PaddingInjective(a: seq<byte>, b: seq<byte>)
    requires ByteBits(a) + S.Pad(RATE, 8 * |a|) == ByteBits(b) + S.Pad(RATE, 8 * |b|)
    ensures a == b
  {
    UnpadPad(ByteBits(a), RATE);
    UnpadPad(ByteBits(b), RATE);
    ByteBitsInjective(a, b);
  }
}
