/** Python's string order and its stable sort, as far as the callers below rely on them. */
module Ordering {

  /** Lexicographic order by code point. */
  predicate StrLe(a: string, b: string) {
    a == [] || (b != [] && (a[0] < b[0] || (a[0] == b[0] && StrLe(a[1..], b[1..]))))
  }

  /** The first difference decides, and where there is none the length. */
  lemma {:induction false} StrLeExactly(a: string, b: string)
    ensures StrLe(a, b) <==> a <= b || exists k :: Differs(a, b, k) && a[k] < b[k]
    decreases |a|
  {
    if a != [] && b != [] {
      if a[0] == b[0] {
        StrLeExactly(a[1..], b[1..]);
        assert a <= b <==> a[1..] <= b[1..] by {
          if a[1..] <= b[1..] {
            assert a == [a[0]] + a[1..] && b == [b[0]] + b[1..];
          }
        }
        forall k | Differs(a[1..], b[1..], k)
          ensures Differs(a, b, k + 1) && a[k + 1] == a[1..][k] && b[k + 1] == b[1..][k]
        {
          assert a[..k + 1] == [a[0]] + a[1..][..k] && b[..k + 1] == [b[0]] + b[1..][..k];
        }
        forall k | Differs(a, b, k)
          ensures k > 0 && Differs(a[1..], b[1..], k - 1) && a[k] == a[1..][k - 1] && b[k] == b[1..][k - 1]
        {
          assert k > 0;
          assert a[1..][..k - 1] == a[..k][1..] && b[1..][..k - 1] == b[..k][1..];
        }
      } else {
        assert Differs(a, b, 0);
        forall k
          ensures Differs(a, b, k) ==> k == 0
        {
          SameHeads(a, b, k);
        }
      }
    }
  }

  lemma SameHeads(a: string, b: string, k: int)
    ensures Differs(a, b, k) && k > 0 ==> a[0] == b[0]
  {
    if Differs(a, b, k) && k > 0 {
      assert a[0] == a[..k][0] && b[0] == b[..k][0];
    }
  }

  /** Two strings first differ at k. */
  predicate Differs(a: string, b: string, k: int) {
    0 <= k < |a| && k < |b| && a[..k] == b[..k] && a[k] != b[k]
  }

  lemma {:induction false} StrLeTotal(a: string, b: string)
    ensures StrLe(a, b) || StrLe(b, a)
    decreases |a|
  {
    if a != [] && b != [] && a[0] == b[0] {
      StrLeTotal(a[1..], b[1..]);
    }
  }

  lemma {:induction false} StrLeAntisymmetric(a: string, b: string)
    requires StrLe(a, b) && StrLe(b, a)
    ensures a == b
    decreases |a|
  {
    if a != [] && b != [] {
      StrLeAntisymmetric(a[1..], b[1..]);
      assert a == [a[0]] + a[1..] && b == [b[0]] + b[1..];
    }
  }

  lemma {:induction false} StrLeTransitive(a: string, b: string, c: string)
    requires StrLe(a, b) && StrLe(b, c)
    ensures StrLe(a, c)
    decreases |a|
  {
    if a != [] && a[0] == b[0] && b[0] == c[0] {
      StrLeTransitive(a[1..], b[1..], c[1..]);
    }
  }

  // ---- sorted(..., key=...) -------------------------------------------------

  ghost predicate SortedBy<T(!new)>(xs: seq<T>, key: T -> string) {
    forall i, j :: 0 <= i < j < |xs| ==> StrLe(key(xs[i]), key(xs[j]))
  }

  ghost predicate DistinctBy<T(!new)>(xs: seq<T>, key: T -> string) {
    forall i, j :: 0 <= i < j < |xs| ==> key(xs[i]) != key(xs[j])
  }

  /** Put x before everything that does not sort strictly below it, so equal keys keep their order. */
  function Insert<T>(x: T, xs: seq<T>, key: T -> string): (r: seq<T>)
    ensures multiset(r) == multiset{x} + multiset(xs)
  {
    if xs == [] then [x]
    else if StrLe(key(x), key(xs[0])) then [x] + xs
    else
      assert xs == [xs[0]] + xs[1..];
      [xs[0]] + Insert(x, xs[1..], key)
  }

  function SortBy<T>(xs: seq<T>, key: T -> string): (r: seq<T>)
    ensures multiset(r) == multiset(xs)
  {
    if xs == [] then []
    else
      assert xs == [xs[0]] + xs[1..];
      Insert(xs[0], SortBy(xs[1..], key), key)
  }

  lemma {:induction false} InsertSorts<T(!new)>(x: T, xs: seq<T>, key: T -> string)
    requires SortedBy(xs, key)
    ensures SortedBy(Insert(x, xs, key), key)
    decreases |xs|
  {
    if xs != [] {
      if StrLe(key(x), key(xs[0])) {
        forall i | 0 <= i < |xs|
          ensures StrLe(key(x), key(xs[i]))
        {
          if i > 0 {
            StrLeTransitive(key(x), key(xs[0]), key(xs[i]));
          }
        }
      } else {
        StrLeTotal(key(x), key(xs[0]));
        InsertSorts(x, xs[1..], key);
        var r := Insert(x, xs[1..], key);
        forall i | 0 <= i < |r|
          ensures StrLe(key(xs[0]), key(r[i]))
        {
          assert r[i] in multiset(r);
          assert r[i] == x || r[i] in xs[1..];
        }
      }
    }
  }

  lemma {:induction false} SortBySorts<T(!new)>(xs: seq<T>, key: T -> string)
    ensures SortedBy(SortBy(xs, key), key)
    decreases |xs|
  {
    if xs != [] {
      SortBySorts(xs[1..], key);
      InsertSorts(xs[0], SortBy(xs[1..], key), key);
    }
  }

  lemma SameMembers<T>(xs: seq<T>, key: T -> string)
    ensures forall x :: x in SortBy(xs, key) <==> x in xs
    ensures |SortBy(xs, key)| == |xs|
  {
    forall x
      ensures x in SortBy(xs, key) <==> x in xs
    {
      assert x in multiset(SortBy(xs, key)) <==> x in multiset(xs);
    }
    assert |multiset(SortBy(xs, key))| == |multiset(xs)|;
  }

  /** A strictly sorted list is determined by its members. */
  lemma {:induction false} StrictlySortedUnique<T(!new)>(xs: seq<T>, ys: seq<T>, key: T -> string)
    requires SortedBy(xs, key) && DistinctBy(xs, key) && SortedBy(ys, key) && DistinctBy(ys, key)
    requires forall x :: x in xs <==> x in ys
    ensures xs == ys
    decreases |xs|
  {
    if xs == [] {
      HeadIsMember(ys);
    } else {
      assert xs[0] in ys && ys != [];
      assert ys[0] in xs;
      StrLeAntisymmetricHeads(xs, ys, key);
      StrLeAntisymmetricHeads(ys, xs, key);
      StrLeAntisymmetric(key(xs[0]), key(ys[0]));
      var j :| 0 <= j < |ys| && ys[j] == xs[0];
      assert j == 0;
      TailsAgree(xs, ys, key);
      StrictlySortedUnique(xs[1..], ys[1..], key);
      assert xs == [xs[0]] + xs[1..] && ys == [ys[0]] + ys[1..];
    }
  }

  lemma HeadIsMember<T>(xs: seq<T>)
    ensures xs != [] ==> xs[0] in xs
  {
  }

  lemma StrLeAntisymmetricHeads<T(!new)>(xs: seq<T>, ys: seq<T>, key: T -> string)
    requires xs != [] && ys != [] && SortedBy(xs, key) && ys[0] in xs
    ensures StrLe(key(xs[0]), key(ys[0]))
  {
    StrLeTotal(key(xs[0]), key(xs[0]));
  }

  lemma TailsAgree<T(!new)>(xs: seq<T>, ys: seq<T>, key: T -> string)
    requires xs != [] && ys != [] && xs[0] == ys[0]
    requires DistinctBy(xs, key) && DistinctBy(ys, key)
    requires forall x :: x in xs <==> x in ys
    ensures forall x :: x in xs[1..] <==> x in ys[1..]
  {
    forall x
      ensures x in xs[1..] <==> x in ys[1..]
    {
      if x in xs[1..] {
        assert x in ys && x != xs[0];
      }
      if x in ys[1..] {
        assert x in xs && x != ys[0];
      }
    }
  }

  /** Distinct keys survive a rearrangement. */
  lemma {:induction false} SortByDistinct<T(!new)>(xs: seq<T>, key: T -> string)
    requires DistinctBy(xs, key)
    ensures DistinctBy(SortBy(xs, key), key)
    decreases |xs|
  {
    if xs != [] {
      SortByDistinct(xs[1..], key);
      var ys := SortBy(xs[1..], key);
      SameMembers(xs[1..], key);
      assert forall y :: y in ys ==> key(y) != key(xs[0]);
      InsertDistinct(xs[0], ys, key);
    }
  }

  lemma {:induction false} InsertDistinct<T(!new)>(x: T, xs: seq<T>, key: T -> string)
    requires DistinctBy(xs, key) && forall y :: y in xs ==> key(y) != key(x)
    ensures DistinctBy(Insert(x, xs, key), key)
    decreases |xs|
  {
    if xs != [] && !StrLe(key(x), key(xs[0])) {
      InsertDistinct(x, xs[1..], key);
      var r := Insert(x, xs[1..], key);
      forall i | 0 <= i < |r|
        ensures key(r[i]) != key(xs[0])
      {
        assert r[i] in multiset(r);
        assert r[i] == x || r[i] in xs[1..];
      }
    }
  }

  /** With distinct keys, what sorted() returns depends only on what it was given, not in which order. */
  lemma SortIgnoresOrder<T(!new)>(xs: seq<T>, ys: seq<T>, key: T -> string)
    requires DistinctBy(xs, key) && DistinctBy(ys, key)
    requires forall x :: x in xs <==> x in ys
    ensures SortBy(xs, key) == SortBy(ys, key)
  {
    SortBySorts(xs, key);
    SortBySorts(ys, key);
    SortByDistinct(xs, key);
    SortByDistinct(ys, key);
    SameMembers(xs, key);
    SameMembers(ys, key);
    StrictlySortedUnique(SortBy(xs, key), SortBy(ys, key), key);
  }

  // ---- sorted(keys) ---------------------------------------------------------

  predicate Least(k: string, s: set<string>) {
    k in s && forall j | j in s :: StrLe(k, j)
  }

  lemma {:induction false} LeastExists(s: set<string>)
    requires s != {}
    ensures exists k :: Least(k, s)
    decreases |s|
  {
    var x :| x in s;
    StrLeTotal(x, x);
    if s == {x} {
      assert Least(x, s);
    } else {
      LeastExists(s - {x});
      var k :| Least(k, s - {x});
      StrLeTotal(k, x);
      if StrLe(k, x) {
        assert Least(k, s);
      } else {
        forall j | j in s
          ensures StrLe(x, j)
        {
          if j != x {
            StrLeTransitive(x, k, j);
          }
        }
        assert Least(x, s);
      }
    }
  }

  lemma LeastUnique(k: string, l: string, s: set<string>)
    requires Least(k, s) && Least(l, s)
    ensures k == l
  {
    StrLeAntisymmetric(k, l);
  }

  function SortedKeys(s: set<string>): (keys: seq<string>)
    ensures forall k :: k in keys <==> k in s
    ensures forall i, j :: 0 <= i < j < |keys| ==> keys[i] != keys[j] && StrLe(keys[i], keys[j])
    decreases |s|
  {
    if s == {} then []
    else
      LeastExists(s);
      assert forall k, l :: Least(k, s) && Least(l, s) ==> k == l by {
        forall k, l | Least(k, s) && Least(l, s) ensures k == l { LeastUnique(k, l, s); }
      }
      var k :| k in s && Least(k, s);
      [k] + SortedKeys(s - {k})
  }
}
