/** Python's unbounded integers as the sponge uses them: two's complement in both directions,
    so that `~` is negation and a shift never loses a bit until a mask takes it away. */
module PyInt {

  type byte = b: int | 0 <= b < 0x100

  /** Bit i of the two's complement form of n; every negative number has ones for ever. */
  function Bit(n: int, i: nat): bool
    decreases i
  {
    if i == 0 then n % 2 == 1 else Bit(n / 2, i - 1)
  }

  datatype Op = And | Or | Xor

  function Gate(op: Op, p: bool, q: bool): bool {
    match op
    case And => p && q
    case Or => p || q
    case Xor => p != q
  }

  function BitValue(b: bool): int { if b then 1 else 0 }

  /** How far n is from being all zeros or all ones. */
  function Magnitude(n: int): nat { if n >= 0 then n else -n - 1 }

  /** The operators `&`, `|` and `^`. */
  function Bitwise(op: Op, a: int, b: int): int
    decreases Magnitude(a) + Magnitude(b)
  {
    var low := BitValue(Gate(op, a % 2 == 1, b % 2 == 1));
    if Magnitude(a) == 0 && Magnitude(b) == 0 then -low
    else 2 * Bitwise(op, a / 2, b / 2) + low
  }

  /** The operator `~`. */
  function Not(n: int): int { -n - 1 }

  /** The operator `<<`. */
  function Shl(n: int, places: nat): int
    decreases places
  {
    if places == 0 then n else Shl(2 * n, places - 1)
  }

  /** The operator `>>`, which rounds towards minus infinity. */
  function Shr(n: int, places: nat): int
    decreases places
  {
    if places == 0 then n else Shr(n / 2, places - 1)
  }

  lemma {:induction false} BitwiseBit(op: Op, a: int, b: int, i: nat)
    ensures Bit(Bitwise(op, a, b), i) == Gate(op, Bit(a, i), Bit(b, i))
    decreases i
  {
    var low := BitValue(Gate(op, a % 2 == 1, b % 2 == 1));
    if Magnitude(a) == 0 && Magnitude(b) == 0 {
      SignBits(a, i);
      SignBits(b, i);
      SignBits(-low, i);
    } else if i > 0 {
      assert Bitwise(op, a, b) / 2 == Bitwise(op, a / 2, b / 2);
      BitwiseBit(op, a / 2, b / 2, i - 1);
    }
  }

  lemma {:induction false} SignBits(n: int, i: nat)
    requires n == 0 || n == -1
    ensures Bit(n, i) == (n == -1)
    decreases i
  {
    if i > 0 {
      SignBits(n / 2, i - 1);
    }
  }

  lemma {:induction false} NotBit(n: int, i: nat)
    ensures Bit(Not(n), i) == !Bit(n, i)
    decreases i
  {
    if i > 0 {
      assert Not(n) / 2 == Not(n / 2);
      NotBit(n / 2, i - 1);
    }
  }

  lemma {:induction false} ShlBit(n: int, places: nat, i: nat)
    ensures Bit(Shl(n, places), i) == (i >= places && Bit(n, i - places))
    decreases places
  {
    if places > 0 {
      ShlBit(2 * n, places - 1, i);
      if i >= places {
        assert (2 * n) / 2 == n;
      }
    }
  }

  lemma {:induction false} ShrBit(n: int, places: nat, i: nat)
    ensures Bit(Shr(n, places), i) == Bit(n, i + places)
    decreases places
  {
    if places > 0 {
      ShrBit(n / 2, places - 1, i);
    }
  }

  /** 2^k, spelled as the source spells it. */
  function Power(k: nat): int { Shl(1, k) }

  lemma {:induction false} ShlDouble(n: int, k: nat)
    ensures Shl(2 * n, k) == 2 * Shl(n, k)
    decreases k
  {
    if k > 0 {
      ShlDouble(2 * n, k - 1);
    }
  }

  lemma PowerStep(k: nat)
    ensures Power(k + 1) == 2 * Power(k)
  {
    ShlDouble(1, k);
  }

  lemma {:induction false} PowerPositive(k: nat)
    ensures Power(k) >= 1
  {
    if k > 0 {
      PowerStep(k - 1);
      PowerPositive(k - 1);
    }
  }

  /** Numbers below 2^k are exactly the ones whose bits from k on are clear. */
  lemma {:induction false} HighBitsClear(n: int, k: nat, i: nat)
    requires 0 <= n < Power(k) && k <= i
    ensures !Bit(n, i)
    decreases i
  {
    if k == 0 {
      SignBits(n, i);
    } else {
      PowerStep(k - 1);
      HighBitsClear(n / 2, k - 1, i - 1);
    }
  }

  /** A mask of k ones keeps the low k bits, whatever the sign of what it is applied to. */
  lemma {:induction false} MaskBounds(n: int, k: nat)
    ensures 0 <= Bitwise(And, n, Power(k) - 1) < Power(k)
    decreases k
  {
    PowerPositive(k);
    if k > 0 {
      PowerStep(k - 1);
      PowerPositive(k - 1);
      MaskBounds(n / 2, k - 1);
      assert (Power(k) - 1) / 2 == Power(k - 1) - 1;
    } else {
      MaskZero(n);
    }
  }

  lemma {:induction false} MaskZero(n: int)
    ensures Bitwise(And, n, 0) == 0
    decreases Magnitude(n)
  {
    if Magnitude(n) > 0 {
      MaskZero(n / 2);
    }
  }

  lemma {:induction false} MaskBit(k: nat, i: nat)
    ensures Bit(Power(k) - 1, i) == (i < k)
    decreases k, i
  {
    PowerPositive(k);
    if i >= k {
      HighBitsClear(Power(k) - 1, k, i);
    } else {
      PowerStep(k - 1);
      PowerPositive(k - 1);
      if i > 0 {
        assert (Power(k) - 1) / 2 == Power(k - 1) - 1;
        MaskBit(k - 1, i - 1);
      }
    }
  }

  /** Exclusive-or of two k-bit numbers is a k-bit number; so are `&` and `|`. */
  lemma {:induction false} BitwiseBounds(op: Op, a: int, b: int, k: nat)
    requires 0 <= a < Power(k) && 0 <= b < Power(k)
    ensures 0 <= Bitwise(op, a, b) < Power(k)
    decreases k
  {
    if k > 0 {
      PowerStep(k - 1);
      PowerPositive(k - 1);
      BitwiseBounds(op, a / 2, b / 2, k - 1);
      if Magnitude(a) == 0 && Magnitude(b) == 0 {
        assert Bitwise(op, a, b) == 0;
      }
    }
  }

  /** Two k-bit numbers with the same k bits are the same number. */
  lemma {:induction false} BitsDetermine(a: int, b: int, k: nat)
    requires 0 <= a < Power(k) && 0 <= b < Power(k)
    requires forall i :: 0 <= i < k ==> Bit(a, i) == Bit(b, i)
    ensures a == b
    decreases k
  {
    if k > 0 {
      PowerStep(k - 1);
      forall i | 0 <= i < k - 1
        ensures Bit(a / 2, i) == Bit(b / 2, i)
      {
        assert Bit(a, i + 1) == Bit(b, i + 1);
      }
      BitsDetermine(a / 2, b / 2, k - 1);
      assert Bit(a, 0) == Bit(b, 0);
    }
  }
}
