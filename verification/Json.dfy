/** JSON values as the comparison sees them after decoding, and RFC 6901 pointers into them. */
module Json {
  import opened Wrappers

  /** Python keeps integers and floats apart; JSON text does not. */
  datatype Json =
    | Null
    | Bool(b: bool)
    | Int(i: int)
    | Float(r: real)
    | Str(s: string)
    | Arr(items: seq<Json>)
    | Obj(members: map<string, Json>)
  {
    /** isinstance(value, int | float): a Python bool is an int. */
    predicate IsNumber() { Bool? || Int? || Float? }

    function Number(): real
      requires IsNumber()
    {
      match this
      case Bool(b) => if b then 1.0 else 0.0
      case Int(i) => i as real
      case Float(r) => r
    }
  }

  /** Python's == between two values of which at least one is no container of the other's kind. */
  predicate PyEqual(a: Json, b: Json) {
    if a.IsNumber() && b.IsNumber() then a.Number() == b.Number()
    else if a.Str? && b.Str? then a.s == b.s
    else a.Null? && b.Null?
  }

  /** _same_scalar */
  predicate SameScalar(a: Json, b: Json) {
    if a.Bool? != b.Bool? then false
    else if a.IsNumber() != b.IsNumber() then false
    else PyEqual(a, b)
  }

  /** Both objects, or both arrays: the only pairs the walk descends into. */
  predicate SameKind(a: Json, b: Json) { (a.Obj? && b.Obj?) || (a.Arr? && b.Arr?) }

  /** The same document: equal up to spelling a number as an integer or as a float. */
  predicate Same(a: Json, b: Json)
    decreases a
  {
    if a.Obj? && b.Obj? then
      a.members.Keys == b.members.Keys && forall k | k in a.members :: Same(a.members[k], b.members[k])
    else if a.Arr? && b.Arr? then
      |a.items| == |b.items| && forall i | 0 <= i < |a.items| :: Same(a.items[i], b.items[i])
    else SameScalar(a, b)
  }

  /** RFC 8785 gives every number one spelling, and decoding it one Python type: integral values
      below 10^21 come back as int, everything else as float. */
  predicate Canonical(a: Json) {
    match a
    case Int(i) => -1_000_000_000_000_000_000_000 < i < 1_000_000_000_000_000_000_000
    case Float(r) => r != r.Floor as real || r >= 1_000_000_000_000_000_000_000.0 || r <= -1_000_000_000_000_000_000_000.0
    case Arr(items) => forall i | 0 <= i < |items| :: Canonical(items[i])
    case Obj(members) => forall k | k in members :: Canonical(members[k])
    case _ => true
  }

  /** On decoded canonical documents, being the same document is equality. */
  lemma {:induction false} SameIsEquality(a: Json, b: Json)
    requires Canonical(a) && Canonical(b)
    ensures Same(a, b) <==> a == b
    decreases a
  {
    if a.Obj? && b.Obj? {
      forall k | k in a.members && k in b.members
        ensures Same(a.members[k], b.members[k]) <==> a.members[k] == b.members[k]
      {
        SameIsEquality(a.members[k], b.members[k]);
      }
      assert a.members == b.members <==>
             a.members.Keys == b.members.Keys && forall k | k in a.members :: a.members[k] == b.members[k];
    } else if a.Arr? && b.Arr? {
      forall i | 0 <= i < |a.items| && i < |b.items|
        ensures Same(a.items[i], b.items[i]) <==> a.items[i] == b.items[i]
      {
        SameIsEquality(a.items[i], b.items[i]);
      }
    }
  }

  /** One spelling for every number: an integral float is the integer. */
  function Normal(a: Json): Json {
    match a
    case Float(r) => if r == r.Floor as real then Int(r.Floor) else a
    case Arr(items) => Arr(seq(|items|, i requires 0 <= i < |items| => Normal(items[i])))
    case Obj(members) => Obj(map k | k in members :: Normal(members[k]))
    case _ => a
  }

  /** Two values of one Python type. */
  predicate SameType(a: Json, b: Json) {
    a.Null? == b.Null? && a.Bool? == b.Bool? && a.Int? == b.Int? && a.Float? == b.Float? && a.Str? == b.Str?
    && a.Arr? == b.Arr? && a.Obj? == b.Obj?
  }

  predicate IntAsFloat(a: Json, b: Json) { a.Int? && b.Float? && a.i as real == b.r }

  /** Scalars that compare as the same may still be of different types, and are exactly when one is the float of
      the other: 1 and 1.0, to begin with. */
  lemma TypesAgreeExactly(a: Json, b: Json)
    requires SameScalar(a, b)
    ensures SameType(a, b) <==> !IntAsFloat(a, b) && !IntAsFloat(b, a)
    ensures SameScalar(Int(1), Float(1.0)) && !SameType(Int(1), Float(1.0)) && IntAsFloat(Int(1), Float(1.0))
  {
  }

  /** Being the same document is equality once integral floats are written as integers, and nothing less. */
  lemma {:induction false} SameIsEqualNormal(a: Json, b: Json)
    ensures Same(a, b) <==> Normal(a) == Normal(b)
    decreases a
  {
    if a.Obj? && b.Obj? {
      forall k | k in a.members && k in b.members
        ensures Same(a.members[k], b.members[k]) <==> Normal(a.members[k]) == Normal(b.members[k])
      {
        SameIsEqualNormal(a.members[k], b.members[k]);
      }
      ObjectsNormal(a, b);
    } else if a.Arr? && b.Arr? {
      forall i | 0 <= i < |a.items| && i < |b.items|
        ensures Same(a.items[i], b.items[i]) <==> Normal(a.items[i]) == Normal(b.items[i])
      {
        SameIsEqualNormal(a.items[i], b.items[i]);
      }
      ArraysNormal(a, b);
    } else {
      SameScalarNormal(a, b);
    }
  }

  lemma ObjectsNormal(a: Json, b: Json)
    requires a.Obj? && b.Obj?
    ensures Normal(a) == Normal(b) <==>
            a.members.Keys == b.members.Keys && forall k | k in a.members :: Normal(a.members[k]) == Normal(b.members[k])
  {
    var m, n := Normal(a).members, Normal(b).members;
    assert m.Keys == a.members.Keys && n.Keys == b.members.Keys;
    assert forall k | k in m :: m[k] == Normal(a.members[k]);
    assert forall k | k in n :: n[k] == Normal(b.members[k]);
    assert m == n <==> m.Keys == n.Keys && forall k | k in m :: m[k] == n[k];
  }

  lemma ArraysNormal(a: Json, b: Json)
    requires a.Arr? && b.Arr?
    ensures Normal(a) == Normal(b) <==>
            |a.items| == |b.items| && forall i | 0 <= i < |a.items| :: Normal(a.items[i]) == Normal(b.items[i])
  {
    var s, t := Normal(a).items, Normal(b).items;
    assert forall i | 0 <= i < |s| :: s[i] == Normal(a.items[i]);
    assert forall i | 0 <= i < |t| :: t[i] == Normal(b.items[i]);
    assert s == t <==> |s| == |t| && forall i | 0 <= i < |s| :: s[i] == t[i];
  }

  lemma SameScalarNormal(a: Json, b: Json)
    requires !(a.Obj? && b.Obj?) && !(a.Arr? && b.Arr?)
    ensures SameScalar(a, b) <==> Normal(a) == Normal(b)
  {
    if a.Int? && b.Float? {
      FloorOfInt(a.i);
    } else if a.Float? && b.Int? {
      FloorOfInt(b.i);
    }
  }

  lemma FloorOfInt(i: int)
    ensures (i as real).Floor == i
  {
  }

  // ---- Children, named by reference tokens ----------------------------------

  function DigitChar(d: nat): char
    requires d < 10
  {
    (d + '0' as int) as char
  }

  /** str(n) */
  function Decimal(n: nat): string {
    if n < 10 then [DigitChar(n)] else Decimal(n / 10) + [DigitChar(n % 10)]
  }

  predicate IsNumeral(s: string) { s != [] && forall i :: 0 <= i < |s| ==> '0' <= s[i] <= '9' }

  lemma {:induction false} DecimalIsNumeral(n: nat)
    ensures IsNumeral(Decimal(n))
  {
    if n >= 10 {
      DecimalIsNumeral(n / 10);
    }
  }

  lemma {:induction false} DecimalInjective(m: nat, n: nat)
    requires Decimal(m) == Decimal(n)
    ensures m == n
  {
    if m >= 10 && n >= 10 {
      var a, b := Decimal(m / 10), Decimal(n / 10);
      assert Decimal(m)[|Decimal(m)| - 1] == DigitChar(m % 10);
      assert Decimal(n)[|Decimal(n)| - 1] == DigitChar(n % 10);
      assert a == Decimal(m)[..|Decimal(m)| - 1] && b == Decimal(n)[..|Decimal(n)| - 1];
      DecimalInjective(m / 10, n / 10);
    } else {
      DecimalIsNumeral(m / 10);
      DecimalIsNumeral(n / 10);
    }
  }

  /** What a numeral means, digit by digit. */
  function NumeralValue(s: string): nat
    requires IsNumeral(s)
  {
    var last := s[|s| - 1] as int - '0' as int;
    if |s| == 1 then last else 10 * NumeralValue(s[..|s| - 1]) + last
  }

  /** str(n) means n, and starts with no needless zero. */
  lemma {:induction false} DecimalReadsBack(n: nat)
    ensures IsNumeral(Decimal(n)) && NumeralValue(Decimal(n)) == n
    ensures n > 0 ==> Decimal(n)[0] != '0'
    ensures n == 0 ==> Decimal(n) == "0"
  {
    DecimalIsNumeral(n);
    if n >= 10 {
      DecimalReadsBack(n / 10);
      assert Decimal(n)[..|Decimal(n)| - 1] == Decimal(n / 10);
    }
  }

  /** The element an index token names, if the array is that long. */
  ghost predicate Indexes(t: string, i: nat, n: nat) { i < n && t == Decimal(i) }

  /** The member or element that one reference token names. */
  ghost function Child(v: Json, t: string): Option<Json> {
    match v
    case Obj(members) => if t in members then Some(members[t]) else None
    case Arr(items) => if i: nat :| Indexes(t, i, |items|) then Some(items[i]) else None
    case _ => None
  }

  lemma ChildOfArray(v: Json, i: nat)
    requires v.Arr?
    ensures Child(v, Decimal(i)) == if i < |v.items| then Some(v.items[i]) else None
  {
    if i < |v.items| {
      assert Indexes(Decimal(i), i, |v.items|);
    }
    forall j: nat | Indexes(Decimal(i), j, |v.items|)
      ensures j == i
    {
      DecimalInjective(i, j);
    }
  }

  lemma ChildSmaller(v: Json, t: string)
    ensures Child(v, t).Some? ==> Child(v, t).value < v
  {
  }

  /** Equal children under every token, and only then, for two containers of one kind. */
  lemma SameByChildren(a: Json, b: Json)
    requires SameKind(a, b)
    ensures Same(a, b) <==> forall t ::
              Child(a, t).Some? == Child(b, t).Some?
              && (Child(a, t).Some? ==> Same(Child(a, t).value, Child(b, t).value))
  {
    if a.Obj? {
      if forall t :: Child(a, t).Some? == Child(b, t).Some? {
        forall t
          ensures t in a.members <==> t in b.members
        {
          assert Child(a, t).Some? == Child(b, t).Some?;
        }
      }
      assert forall t :: t in a.members ==> Child(a, t) == Some(a.members[t]);
      assert forall t :: t in b.members ==> Child(b, t) == Some(b.members[t]);
    } else {
      forall t | Child(a, t).Some? || Child(b, t).Some?
        ensures exists i: nat :: t == Decimal(i) && (i < |a.items| || i < |b.items|)
      {
      }
      forall i: nat
        ensures Child(a, Decimal(i)) == if i < |a.items| then Some(a.items[i]) else None
        ensures Child(b, Decimal(i)) == if i < |b.items| then Some(b.items[i]) else None
      {
        ChildOfArray(a, i);
        ChildOfArray(b, i);
      }
      if forall t :: Child(a, t).Some? == Child(b, t).Some? {
        assert Child(a, Decimal(|a.items|)).Some? == Child(b, Decimal(|a.items|)).Some?;
        assert Child(a, Decimal(|b.items|)).Some? == Child(b, Decimal(|b.items|)).Some?;
        assert |a.items| == |b.items|;
      }
    }
  }
}
