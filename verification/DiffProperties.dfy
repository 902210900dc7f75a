/** What the list of differences says about the two documents: it is empty, complete, recoverable
    and confined exactly when it should be. */
module DiffProperties {
  import opened Json
  import opened Wrappers
  import opened Ordering
  import opened Pointer
  import opened Diff

  /** The list is empty iff the two are the same document. */
  lemma EmptyMeansSame(b: Json, c: Json)
    ensures Changes(b, c, []) == [] <==> Same(b, c)
  {
    NoChangeMeansSame(b, c);
    var chs := Changes(b, c, []);
    if chs != [] {
      ChangesExact(b, c, [], chs[0]);
      assert chs[0].path[0..] == chs[0].path;
    } else {
      forall path
        ensures ChangeAt(b, c, path).None?
      {
        if ChangeAt(b, c, path).Some? {
          Reported(b, c, path);
        }
      }
    }
  }

  /** What the reference finds at a path is in the list under that path. */
  lemma Reported(b: Json, c: Json, path: seq<string>)
    requires ChangeAt(b, c, path).Some?
    ensures Change(path, ChangeAt(b, c, path).value.0, ChangeAt(b, c, path).value.1) in Changes(b, c, [])
  {
    var ch := Change(path, ChangeAt(b, c, path).value.0, ChangeAt(b, c, path).value.1);
    assert ch.path[0..] == path;
    ChangesExact(b, c, [], ch);
  }

  lemma FoundByReference(b: Json, c: Json, ch: Change)
    requires ch in Changes(b, c, [])
    ensures ChangeAt(b, c, ch.path) == Some((ch.baseline, ch.candidate))
  {
    ChangesExact(b, c, [], ch);
    assert ch.path[0..] == ch.path;
  }

  // ---- The patch reading: baseline plus differences is the candidate --------

  /** What sits at a path, without what lies below it. */
  datatype Node = Nothing | ObjectHere | ArrayHere | Scalar(value: Json)

  ghost function NodeOf(v: Option<Json>): Node {
    if v.None? then Nothing
    else if v.value.Obj? then ObjectHere
    else if v.value.Arr? then ArrayHere
    else Scalar(v.value)
  }

  ghost predicate SameNode(m: Node, n: Node) {
    m == n || (m.Scalar? && n.Scalar? && SameScalar(m.value, n.value))
  }

  /** Whether a reported change is at the path or above it. */
  ghost predicate Covered(b: Json, c: Json, path: seq<string>) {
    exists k :: 0 <= k <= |path| && ChangeAt(b, c, path[..k]).Some?
  }

  lemma {:induction false} LookupSplit(v: Json, path: seq<string>, k: nat)
    requires k <= |path|
    ensures Lookup(v, path)
         == if Lookup(v, path[..k]).Some? then Lookup(Lookup(v, path[..k]).value, path[k..]) else None
    decreases k
  {
    if k > 0 {
      var x := Child(v, path[0]);
      assert path[..k][0] == path[0] && path[..k][1..] == path[1..][..k - 1] && path[1..][k - 1..] == path[k..];
      if x.Some? {
        LookupSplit(x.value, path[1..], k - 1);
      }
    } else {
      assert path[0..] == path && path[..0] == [];
    }
  }

  /** Under a reported change the candidate holds what the change says, and nothing if it says nothing. */
  lemma CoveredTakesCandidate(b: Json, c: Json, path: seq<string>, k: nat)
    requires k <= |path| && ChangeAt(b, c, path[..k]).Some?
    ensures var y := ChangeAt(b, c, path[..k]).value.1;
            Lookup(c, path) == if y.Some? then Lookup(y.value, path[k..]) else None
  {
    ChangeIsReal(b, c, path[..k]);
    LookupSplit(c, path, k);
  }

  /** Everywhere else the candidate holds what the baseline holds. */
  lemma {:induction false} UncoveredKeepsBaseline(b: Json, c: Json, path: seq<string>)
    requires !Covered(b, c, path)
    ensures SameNode(NodeOf(Lookup(b, path)), NodeOf(Lookup(c, path)))
    decreases |path|
  {
    assert ChangeAt(b, c, path[..0]).None?;
    if path != [] {
      if SameKind(b, c) {
        var x, y := Child(b, path[0]), Child(c, path[0]);
        assert path[..1][0] == path[0] && path[..1][1..] == [];
        assert ChangeAt(b, c, path[..1]) == Beneath(x, y, []);
        if x.Some? && y.Some? {
          forall k | 0 <= k <= |path[1..]|
            ensures ChangeAt(x.value, y.value, path[1..][..k]).None?
          {
            assert path[..k + 1][0] == path[0] && path[..k + 1][1..] == path[1..][..k];
            assert ChangeAt(b, c, path[..k + 1]) == Beneath(x, y, path[1..][..k]);
            assert ChangeAt(b, c, path[..k + 1]).None?;
          }
          UncoveredKeepsBaseline(x.value, y.value, path[1..]);
        }
      } else {
        ScalarsHaveNoChildren(b, path);
        ScalarsHaveNoChildren(c, path);
      }
    }
  }

  lemma ScalarsHaveNoChildren(v: Json, path: seq<string>)
    requires path != [] && !v.Obj? && !v.Arr?
    ensures Lookup(v, path).None?
  {
  }

  /** A change settles what the candidate holds at a path at or below its own. */
  ghost predicate Settles(ch: Change, c: Json, path: seq<string>) {
    ch.path <= path
    && Lookup(c, path) == if ch.candidate.Some? then Lookup(ch.candidate.value, path[|ch.path|..]) else None
  }

  /** The whole patch: one lookup in the candidate, from the baseline and the list alone. */
  lemma PatchGivesCandidate(b: Json, c: Json, path: seq<string>)
    ensures Covered(b, c, path) ==> exists ch :: ch in Changes(b, c, []) && Settles(ch, c, path)
    ensures !Covered(b, c, path) ==> SameNode(NodeOf(Lookup(b, path)), NodeOf(Lookup(c, path)))
  {
    hide Changes, ChangeAt, Lookup, NodeOf, SameNode;
    if Covered(b, c, path) {
      var k :| 0 <= k <= |path| && ChangeAt(b, c, path[..k]).Some?;
      CoveredTakesCandidate(b, c, path, k);
      Reported(b, c, path[..k]);
      var ch := Change(path[..k], ChangeAt(b, c, path[..k]).value.0, ChangeAt(b, c, path[..k]).value.1);
      assert Settles(ch, c, path);
    } else {
      UncoveredKeepsBaseline(b, c, path);
    }
  }

  ghost predicate SameChanges(b: Json, c: Json, d: Json) {
    forall path :: ChangeAt(b, c, path) == ChangeAt(b, d, path)
  }

  lemma SameScalarEuclidean(a: Json, b: Json, c: Json)
    requires SameScalar(a, b) && SameScalar(a, c)
    ensures SameScalar(b, c)
  {
  }

  lemma {:induction false} SameReflexive(a: Json)
    ensures Same(a, a)
    decreases a
  {
    if a.Obj? {
      forall k | k in a.members
        ensures Same(a.members[k], a.members[k])
      {
        SameReflexive(a.members[k]);
      }
    } else if a.Arr? {
      forall i | 0 <= i < |a.items|
        ensures Same(a.items[i], a.items[i])
      {
        SameReflexive(a.items[i]);
      }
    }
  }

  /** With absence told apart from null, the changes from one baseline determine the candidate. */
  lemma {:induction false} ChangesDetermine(b: Json, c: Json, d: Json)
    requires SameChanges(b, c, d)
    ensures Same(c, d)
    decreases b
  {
    assert ChangeAt(b, c, []) == ChangeAt(b, d, []);
    if SameKind(b, c) {
      assert SameKind(b, d);
      forall t
        ensures Child(c, t).Some? == Child(d, t).Some? && (Child(c, t).Some? ==> Same(Child(c, t).value, Child(d, t).value))
      {
        ChildrenDetermined(b, c, d, t);
      }
      SameByChildren(c, d);
    } else if SameScalar(b, c) {
      SameScalarEuclidean(b, c, d);
    } else {
      SameReflexive(c);
    }
  }

  lemma {:induction false} ChildrenDetermined(b: Json, c: Json, d: Json, t: string)
    requires SameKind(b, c) && SameKind(b, d) && SameChanges(b, c, d)
    ensures Child(c, t).Some? == Child(d, t).Some? && (Child(c, t).Some? ==> Same(Child(c, t).value, Child(d, t).value))
    decreases b, 0
  {
    var x, y, z := Child(b, t), Child(c, t), Child(d, t);
    ChildSmaller(b, t);
    forall rest
      ensures Beneath(x, y, rest) == Beneath(x, z, rest)
    {
      UnderToken(b, c, t, rest);
      UnderToken(b, d, t, rest);
      assert ChangeAt(b, c, [t] + rest) == ChangeAt(b, d, [t] + rest);
    }
    assert Beneath(x, y, []) == Beneath(x, z, []);
    if x.Some? && y.Some? && z.Some? {
      forall rest
        ensures ChangeAt(x.value, y.value, rest) == ChangeAt(x.value, z.value, rest)
      {
        assert Beneath(x, y, rest) == Beneath(x, z, rest);
      }
      ChangesDetermine(x.value, y.value, z.value);
    } else if x.None? && y.Some? {
      SameReflexive(y.value);
    }
  }

  // ---- What the reported list says about the candidate ----------------------

  /** A change as it is reported: the absent side has become null. */
  ghost function ReportOf(ch: Option<(Option<Json>, Option<Json>)>): Option<(Json, Json)> {
    if ch.None? then None else Some((OrNull(ch.value.0), OrNull(ch.value.1)))
  }

  /** The same is reported at every path. */
  ghost predicate SameReport(b: Json, c: Json, d: Json) {
    forall path :: ReportOf(ChangeAt(b, c, path)) == ReportOf(ChangeAt(b, d, path))
  }

  ghost predicate ReportsAs(b: Json, c: Json, d: Json) {
    d.Obj? && Emitted(Changes(b, c, [])) == Emitted(Changes(b, d, []))
  }

  /** An object on both sides never disagrees at its own root. */
  lemma ObjectsAgreeAtRoot(b: Json, c: Json, ch: Change)
    requires b.Obj? && c.Obj? && ch in Changes(b, c, [])
    ensures ch.path != []
  {
    FoundByReference(b, c, ch);
  }

  lemma EmittedChange(b: Json, c: Json, d: Json, path: seq<string>)
    requires b.Obj? && c.Obj? && ReportsAs(b, c, d)
    requires ChangeAt(b, c, path).Some?
    ensures ReportOf(ChangeAt(b, d, path)) == ReportOf(ChangeAt(b, c, path))
  {
    hide Changes, ChangeAt, Spell;
    var ch := Change(path, ChangeAt(b, c, path).value.0, ChangeAt(b, c, path).value.1);
    Reported(b, c, path);
    var i :| 0 <= i < |Changes(b, c, [])| && Changes(b, c, [])[i] == ch;
    var dh := Changes(b, d, [])[i];
    assert Emitted(Changes(b, c, []))[i] == Emit(ch) && Emitted(Changes(b, d, []))[i] == Emit(dh);
    FoundByReference(b, d, dh);
    ObjectsAgreeAtRoot(b, c, ch);
    ObjectsAgreeAtRoot(b, d, dh);
    SpellInjective(ch.path, dh.path);
  }

  /** For object documents the list is the report at every path, and no less. */
  lemma ListIsReport(b: Json, c: Json, d: Json)
    requires b.Obj? && c.Obj? && ReportsAs(b, c, d)
    ensures SameReport(b, c, d)
  {
    hide Changes, ChangeAt;
    forall path
      ensures ReportOf(ChangeAt(b, c, path)) == ReportOf(ChangeAt(b, d, path))
    {
      if ChangeAt(b, c, path).Some? {
        EmittedChange(b, c, d, path);
      } else if ChangeAt(b, d, path).Some? {
        EmittedChange(b, d, c, path);
      }
    }
  }

  /** The two documents are null in the same places. */
  ghost predicate SameNulls(c: Json, d: Json) {
    forall path :: Lookup(c, path) == Some(Null) <==> Lookup(d, path) == Some(Null)
  }

  lemma {:induction false} SameLookup(c: Json, d: Json, path: seq<string>)
    requires Same(c, d)
    ensures Lookup(c, path).Some? == Lookup(d, path).Some?
    ensures Lookup(c, path).Some? ==> Same(Lookup(c, path).value, Lookup(d, path).value)
    decreases |path|
  {
    if path != [] {
      if SameKind(c, d) {
        SameByChildren(c, d);
        if Child(c, path[0]).Some? {
          SameLookup(Child(c, path[0]).value, Child(d, path[0]).value, path[1..]);
        }
      } else {
        ScalarsHaveNoChildren(c, path);
        ScalarsHaveNoChildren(d, path);
      }
    }
  }

  /** Two object documents reported alike against one baseline are the same exactly when their nulls are in the
      same places. */
  lemma ReportDetermines(b: Json, c: Json, d: Json)
    requires b.Obj? && c.Obj? && ReportsAs(b, c, d)
    ensures Same(c, d) <==> SameNulls(c, d)
  {
    hide Changes, ChangeAt, Lookup, Same;
    if Same(c, d) {
      forall path
        ensures Lookup(c, path) == Some(Null) <==> Lookup(d, path) == Some(Null)
      {
        SameLookup(c, d, path);
        NullOnlySameAsNull(Lookup(c, path), Lookup(d, path));
      }
    }
    if SameNulls(c, d) {
      ListIsReport(b, c, d);
      forall path
        ensures ChangeAt(b, c, path) == ChangeAt(b, d, path)
      {
        SameReportSameNulls(b, c, d, path);
      }
      ChangesDetermine(b, c, d);
    }
  }

  lemma NullOnlySameAsNull(x: Option<Json>, y: Option<Json>)
    requires x.Some? == y.Some? && (x.Some? ==> Same(x.value, y.value))
    ensures x == Some(Null) <==> y == Some(Null)
  {
  }

  lemma SameReportSameNulls(b: Json, c: Json, d: Json, path: seq<string>)
    requires SameReport(b, c, d) && SameNulls(c, d)
    ensures ChangeAt(b, c, path) == ChangeAt(b, d, path)
  {
    hide ChangeAt, Lookup;
    assert ReportOf(ChangeAt(b, c, path)) == ReportOf(ChangeAt(b, d, path));
    if ChangeAt(b, c, path).Some? {
      ChangeIsReal(b, c, path);
      ChangeIsReal(b, d, path);
      assert Lookup(c, path) == Some(Null) <==> Lookup(d, path) == Some(Null);
    }
  }

  // ---- When it says enough --------------------------------------------------

  /** Reported with null for the candidate although the baseline holds something else. */
  predicate Blanked(x: Option<Json>, y: Option<Json>) {
    x.Some? && !x.value.Null? && (y.None? || y.value.Null?)
  }

  /** A place where a document could as well hold null as nothing: a member, or the end of an array. */
  ghost predicate Loose(c: Json, path: seq<string>)
    decreases |path|
  {
    path != []
    && if |path| == 1 then
         c.Obj? || (c.Arr? && (path[0] == Decimal(|c.items|) || (c.items != [] && path[0] == Decimal(|c.items| - 1))))
       else Child(c, path[0]).Some? && Loose(Child(c, path[0]).value, path[1..])
  }

  ghost predicate Ambiguous(b: Json, c: Json, path: seq<string>) {
    ChangeAt(b, c, path).Some? && Blanked(ChangeAt(b, c, path).value.0, ChangeAt(b, c, path).value.1) && Loose(c, path)
  }

  /** No other object document than the candidate is reported like it. */
  ghost predicate Determined(b: Json, c: Json) { forall d :: ReportsAs(b, c, d) ==> Same(c, d) }

  lemma AmbiguousBelow(b: Json, c: Json, t: string, rest: seq<string>)
    requires SameKind(b, c) && Child(b, t).Some? && Child(c, t).Some?
    requires Ambiguous(Child(b, t).value, Child(c, t).value, rest)
    ensures Ambiguous(b, c, [t] + rest)
  {
    UnderToken(b, c, t, rest);
    assert ([t] + rest)[1..] == rest;
  }

  lemma BeneathAlike(b: Json, c: Json, d: Json, t: string, rest: seq<string>)
    requires SameKind(b, c) && SameKind(b, d) && SameReport(b, c, d)
    ensures ReportOf(Beneath(Child(b, t), Child(c, t), rest)) == ReportOf(Beneath(Child(b, t), Child(d, t), rest))
  {
    UnderToken(b, c, t, rest);
    UnderToken(b, d, t, rest);
    assert ReportOf(ChangeAt(b, c, [t] + rest)) == ReportOf(ChangeAt(b, d, [t] + rest));
  }

  /** One document has a child the other lacks, and the report is the same: it can only be a null. */
  lemma OneSidedIsBlanked(x: Option<Json>, y: Option<Json>, z: Option<Json>)
    requires y.Some? != z.Some? && ReportOf(Beneath(x, y, [])) == ReportOf(Beneath(x, z, []))
    ensures Beneath(x, y, []) == Some((x, y)) && Blanked(x, y)
  {
  }

  lemma OneSidedIsAmbiguous(b: Json, c: Json, d: Json, t: string)
    requires SameKind(b, c) && SameKind(b, d) && SameReport(b, c, d)
    requires Child(c, t).Some? != Child(d, t).Some? && Loose(c, [t])
    ensures Ambiguous(b, c, [t])
  {
    hide ChangeAt, Beneath, Loose, Child, SameReport;
    BeneathAlike(b, c, d, t, []);
    OneSidedIsBlanked(Child(b, t), Child(c, t), Child(d, t));
    UnderToken(b, c, t, []);
    assert [t] + [] == [t];
  }

  lemma ChildrenAlike(b: Json, c: Json, d: Json, t: string)
    requires SameKind(b, c) && SameKind(b, d) && SameReport(b, c, d)
    requires forall path :: !Ambiguous(b, c, path)
    ensures Child(c, t).Some? == Child(d, t).Some?
  {
    hide Ambiguous, SameReport;
    if c.Obj? {
      if Child(c, t).Some? != Child(d, t).Some? {
        OneSidedIsAmbiguous(b, c, d, t);
        assert false;
      }
    } else {
      var m, n := |c.items|, |d.items|;
      if m != n {
        var last := if m < n then m else m - 1;
        ChildOfArray(c, last);
        ChildOfArray(d, last);
        OneSidedIsAmbiguous(b, c, d, Decimal(last));
        assert false;
      }
      if i: nat :| t == Decimal(i) {
        ChildOfArray(c, i);
        ChildOfArray(d, i);
      }
    }
  }

  /** Where nothing is ambiguous the report at every path determines the candidate. */
  lemma {:induction false} Unambiguous(b: Json, c: Json, d: Json)
    requires SameReport(b, c, d) && forall path :: !Ambiguous(b, c, path)
    ensures Same(c, d)
    decreases b
  {
    hide Ambiguous;
    assert ReportOf(ChangeAt(b, c, [])) == ReportOf(ChangeAt(b, d, []));
    if SameKind(b, c) {
      assert SameKind(b, d);
      forall t
        ensures SameChild(Child(c, t), Child(d, t))
      {
        UnambiguousChild(b, c, d, t);
      }
      assert forall t :: SameChild(Child(c, t), Child(d, t)) ==> Child(c, t).Some? == Child(d, t).Some?;
      SameByChildren(c, d);
    } else if SameScalar(b, c) {
      SameScalarEuclidean(b, c, d);
    } else {
      SameReflexive(c);
    }
  }

  lemma {:induction false} UnambiguousChild(b: Json, c: Json, d: Json, t: string)
    requires SameKind(b, c) && SameKind(b, d) && SameReport(b, c, d)
    requires forall path :: !Ambiguous(b, c, path)
    ensures SameChild(Child(c, t), Child(d, t))
    decreases b, 0
  {
    hide Ambiguous, SameReport, ChangeAt, Child;
    var x, y, z := Child(b, t), Child(c, t), Child(d, t);
    ChildSmaller(b, t);
    ChildrenAlike(b, c, d, t);
    if y.Some? && x.Some? {
      forall path
        ensures ReportOf(ChangeAt(x.value, y.value, path)) == ReportOf(ChangeAt(x.value, z.value, path))
        ensures !Ambiguous(x.value, y.value, path)
      {
        BeneathAlike(b, c, d, t, path);
        if Ambiguous(x.value, y.value, path) {
          AmbiguousBelow(b, c, t, path);
        }
      }
      assert SameReport(x.value, y.value, z.value) by { SameReportAll(x.value, y.value, z.value); }
      Unambiguous(x.value, y.value, z.value);
    } else if y.Some? {
      BeneathAlike(b, c, d, t, []);
      SameReflexive(y.value);
    }
  }

  lemma SameReportAll(b: Json, c: Json, d: Json)
    requires forall path :: ReportOf(ChangeAt(b, c, path)) == ReportOf(ChangeAt(b, d, path))
    ensures SameReport(b, c, d)
  {
  }

  /** What can be read off the report alone: where it never puts null against something else, it determines the
      candidate, whatever nulls the documents hold. */
  lemma UnblankedReportDetermines(b: Json, c: Json, d: Json)
    requires b.Obj? && c.Obj? && ReportsAs(b, c, d)
    requires forall r :: r in Emitted(Changes(b, c, [])) && r.candidate.Null? ==> r.baseline.Null?
    ensures Same(c, d)
  {
    hide Changes, ChangeAt, Loose;
    ListIsReport(b, c, d);
    forall path
      ensures !Ambiguous(b, c, path)
    {
      if ChangeAt(b, c, path).Some? {
        var ch := Change(path, ChangeAt(b, c, path).value.0, ChangeAt(b, c, path).value.1);
        Reported(b, c, path);
        var i :| 0 <= i < |Changes(b, c, [])| && Changes(b, c, [])[i] == ch;
        assert Emitted(Changes(b, c, []))[i] == Emit(ch);
        assert Emit(ch) in Emitted(Changes(b, c, []));
      }
    }
    Unambiguous(b, c, d);
  }

  // ---- The other document ---------------------------------------------------

  /** The document with the null at a loose place dropped, or put there where there was nothing. */
  ghost function Flip(c: Json, path: seq<string>): Json
    decreases |path|
  {
    if path == [] then c
    else if |path| == 1 then
      if c.Obj? then Obj(if path[0] in c.members then c.members - {path[0]} else c.members[path[0] := Null])
      else if !c.Arr? then c
      else if path[0] == Decimal(|c.items|) then Arr(c.items + [Null])
      else if c.items != [] then Arr(c.items[..|c.items| - 1])
      else c
    else if c.Obj? && path[0] in c.members then Obj(c.members[path[0] := Flip(c.members[path[0]], path[1..])])
    else if c.Arr? then
      (if i: nat :| Indexes(path[0], i, |c.items|) then Arr(c.items[i := Flip(c.items[i], path[1..])]) else c)
    else c
  }

  /** The child a token names after the flip. */
  ghost function FlippedChild(c: Json, path: seq<string>, t: string): Option<Json>
    requires Loose(c, path)
  {
    if t != path[0] then Child(c, t)
    else if |path| > 1 then Some(Flip(Child(c, t).value, path[1..]))
    else if Child(c, t).Some? then None
    else Some(Null)
  }

  lemma ChildOfFlipped(c: Json, path: seq<string>, t: string)
    requires Loose(c, path)
    ensures SameKind(c, Flip(c, path)) && Child(Flip(c, path), t) == FlippedChild(c, path, t)
  {
    if c.Arr? {
      FlippedArray(c, path, t);
    }
  }

  lemma FlippedArray(c: Json, path: seq<string>, t: string)
    requires Loose(c, path) && c.Arr?
    ensures Flip(c, path).Arr? && Child(Flip(c, path), t) == FlippedChild(c, path, t)
  {
    hide Decimal;
    var d := Flip(c, path);
    if |path| > 1 {
      var k: nat :| Indexes(path[0], k, |c.items|);
      ChildOfArray(c, k);
      forall i: nat | Indexes(path[0], i, |c.items|)
        ensures i == k
      {
        DecimalInjective(i, k);
      }
      assert d == Arr(c.items[k := Flip(c.items[k], path[1..])]);
    } else if |c.items| > 0 {
      LastApart(|c.items|);
    }
    forall i: nat
      ensures t == Decimal(i) ==> Child(d, t) == FlippedChild(c, path, t)
    {
      if t == Decimal(i) {
        ChildOfArray(c, i);
        ChildOfArray(d, i);
        TokenIs(path[0], i, |c.items|);
      }
    }
  }

  lemma LastApart(n: nat)
    requires n > 0
    ensures Decimal(n) != Decimal(n - 1)
  {
    if Decimal(n) == Decimal(n - 1) {
      DecimalInjective(n, n - 1);
    }
  }

  /** One index per numeral, for the index at hand and the two at the end. */
  lemma TokenIs(t: string, i: nat, n: nat)
    ensures t == Decimal(i) && t == Decimal(n) ==> i == n
    ensures n > 0 && t == Decimal(i) && t == Decimal(n - 1) ==> i == n - 1
    ensures forall k: nat :: t == Decimal(i) && t == Decimal(k) ==> i == k
  {
    forall k: nat | t == Decimal(i) && t == Decimal(k)
      ensures i == k
    {
      DecimalInjective(i, k);
    }
  }

  lemma {:induction false} OverAlike(b: Json, c: Json, d: Json, tokens: seq<string>, prefix: seq<string>)
    requires forall t :: t in tokens ==> Emitted(ChangesUnder(b, c, t, prefix)) == Emitted(ChangesUnder(b, d, t, prefix))
    ensures Emitted(ChangesOver(b, c, tokens, prefix)) == Emitted(ChangesOver(b, d, tokens, prefix))
    decreases |tokens|
  {
    hide ChangesUnder, Emitted;
    if tokens != [] {
      assert tokens[0] in tokens;
      OverAlike(b, c, d, tokens[1..], prefix);
      EmittedConcat(ChangesUnder(b, c, tokens[0], prefix), ChangesOver(b, c, tokens[1..], prefix));
      EmittedConcat(ChangesUnder(b, d, tokens[0], prefix), ChangesOver(b, d, tokens[1..], prefix));
    }
  }

  /** A flip at a place the baseline has changes nothing in which tokens are visited. */
  lemma SameTokens(b: Json, c: Json, path: seq<string>)
    requires SameKind(b, c) && Loose(c, path) && Child(b, path[0]).Some?
    ensures SameKind(b, Flip(c, path)) && Tokens(b, Flip(c, path)) == Tokens(b, c)
  {
    hide SortedKeys, Decimal;
    var d := Flip(c, path);
    ChildOfFlipped(c, path, path[0]);
    if c.Obj? {
      assert b.members.Keys + d.members.Keys == b.members.Keys + c.members.Keys;
    } else {
      var i: nat :| Indexes(path[0], i, |b.items|);
      TokenIs(path[0], i, |c.items|);
      assert Longest(|b.items|, |d.items|) == Longest(|b.items|, |c.items|);
    }
  }

  lemma ContainersChange(b: Json, c: Json, path: seq<string>)
    requires path != [] && ChangeAt(b, c, path).Some?
    ensures SameKind(b, c) && Beneath(Child(b, path[0]), Child(c, path[0]), path[1..]) == ChangeAt(b, c, path)
  {
  }

  lemma BlankedHasBaseline(x: Option<Json>, y: Option<Json>, rest: seq<string>)
    requires Beneath(x, y, rest).Some? && Blanked(Beneath(x, y, rest).value.0, Beneath(x, y, rest).value.1)
    requires rest != [] ==> y.Some?
    ensures x.Some?
    ensures rest == [] ==> Beneath(x, y, rest) == Some((x, y))
    ensures rest != [] ==> Beneath(x, y, rest) == ChangeAt(x.value, y.value, rest)
  {
  }

  lemma BlankedUnder(b: Json, c: Json, d: Json, t: string, prefix: seq<string>)
    requires Child(b, t).Some? && !Child(b, t).value.Null?
    requires Child(c, t) == Some(Null) || Child(c, t).None?
    requires Child(d, t) == Some(Null) || Child(d, t).None?
    ensures Emitted(ChangesUnder(b, c, t, prefix)) == Emitted(ChangesUnder(b, d, t, prefix))
  {
    hide Child, Spell;
    BlankedOne(b, c, t, prefix);
    BlankedOne(b, d, t, prefix);
  }

  lemma BlankedOne(b: Json, c: Json, t: string, prefix: seq<string>)
    requires Child(b, t).Some? && !Child(b, t).value.Null? && (Child(c, t) == Some(Null) || Child(c, t).None?)
    ensures Emitted(ChangesUnder(b, c, t, prefix)) == [Difference(Spell(prefix + [t]), Child(b, t).value, Null)]
  {
    hide Child, Spell;
    assert ChangesUnder(b, c, t, prefix) == [Change(prefix + [t], Child(b, t), Child(c, t))];
  }

  /** At an ambiguous place the flipped document is another one with the same report. */
  lemma {:induction false} FlipIsReportedAlike(b: Json, c: Json, path: seq<string>, prefix: seq<string>)
    requires Ambiguous(b, c, path)
    ensures SameKind(b, c) && SameKind(c, Flip(c, path)) && !Same(c, Flip(c, path))
    ensures Emitted(Changes(b, c, prefix)) == Emitted(Changes(b, Flip(c, path), prefix))
    decreases |path|
  {
    hide Tokens, ChangesUnder, ChangesOver, Child, Flip, Emitted;
    var d, t := Flip(c, path), path[0];
    ContainersChange(b, c, path);
    var x, y := Child(b, t), Child(c, t);
    BlankedHasBaseline(x, y, path[1..]);
    ChildOfFlipped(c, path, t);
    SameTokens(b, c, path);
    if |path| == 1 {
      BlankedUnder(b, c, d, t, prefix);
    } else {
      FlipIsReportedAlike(x.value, y.value, path[1..], prefix + [t]);
      UnderBoth(b, c, t, prefix);
      UnderBoth(b, d, t, prefix);
    }
    assert SameChild(y, Child(d, t)) <==> false;
    SameByChildren(c, d);
    forall u | u in Tokens(b, c)
      ensures Emitted(ChangesUnder(b, c, u, prefix)) == Emitted(ChangesUnder(b, d, u, prefix))
    {
      ChildOfFlipped(c, path, u);
      if u != t {
        UnderDependsOnChild(b, c, d, u, prefix);
      }
    }
    OverAlike(b, c, d, Tokens(b, c), prefix);
  }

  lemma UnderBoth(b: Json, c: Json, t: string, prefix: seq<string>)
    requires Child(b, t).Some? && Child(c, t).Some?
    ensures ChangesUnder(b, c, t, prefix) == Changes(Child(b, t).value, Child(c, t).value, prefix + [t])
  {
  }

  lemma UnderDependsOnChild(b: Json, c: Json, d: Json, t: string, prefix: seq<string>)
    requires Child(c, t) == Child(d, t)
    ensures ChangesUnder(b, c, t, prefix) == ChangesUnder(b, d, t, prefix)
  {
  }

  /** The reported list determines the candidate exactly when it is nowhere ambiguous: when no place that may hold
      null as well as nothing, a member or the end of an array, is reported with null against something else. */
  lemma DeterminedExactly(b: Json, c: Json)
    requires b.Obj? && c.Obj?
    ensures Determined(b, c) <==> forall path :: !Ambiguous(b, c, path)
  {
    hide Ambiguous, Changes, Same;
    if forall path :: !Ambiguous(b, c, path) {
      forall d | ReportsAs(b, c, d)
        ensures Same(c, d)
      {
        ListIsReport(b, c, d);
        Unambiguous(b, c, d);
      }
    } else {
      var path :| Ambiguous(b, c, path);
      FlipIsReportedAlike(b, c, path, []);
      assert ReportsAs(b, c, Flip(c, path));
    }
  }

  /** With a null it does not: dropping a member and setting it to null are reported alike. */
  lemma NullHidesAbsence()
    ensures var b, c, d := Obj(map["k" := Int(1)]), Obj(map[]), Obj(map["k" := Null]);
            !Same(c, d) && |Changes(b, c, [])| == 1 && |Changes(b, d, [])| == 1
            && Emitted(Changes(b, c, [])) == Emitted(Changes(b, d, []))
  {
    var b, c, d := Obj(map["k" := Int(1)]), Obj(map[]), Obj(map["k" := Null]);
    OneKey(b, c);
    OneKey(b, d);
  }

  lemma OneKey(b: Json, c: Json)
    requires b == Obj(map["k" := Int(1)]) && (c == Obj(map[]) || c == Obj(map["k" := Null]))
    ensures |Changes(b, c, [])| == 1 && Emitted(Changes(b, c, [])) == [Difference(Spell(["k"]), Int(1), Null)]
  {
    hide Changes, Tokens, Spell, SortedKeys;
    SingleKey();
    assert b.members.Keys + c.members.Keys == {"k"};
    assert Tokens(b, c) == ["k"] by { TokensOfObjects(b, c); }
    OneToken(b, c, "k");
    UnderOneKey(b, c);
  }

  lemma TokensOfObjects(b: Json, c: Json)
    requires b.Obj? && c.Obj?
    ensures Tokens(b, c) == SortedKeys(b.members.Keys + c.members.Keys)
  {
  }

  lemma UnderOneKey(b: Json, c: Json)
    requires b == Obj(map["k" := Int(1)]) && (c == Obj(map[]) || c == Obj(map["k" := Null]))
    ensures exists y :: OrNull(y) == Null && ChangesUnder(b, c, "k", []) == [Change(["k"], Some(Int(1)), y)]
  {
    hide Tokens;
    assert [] + ["k"] == ["k"];
    var y := Child(c, "k");
    assert ChangesUnder(b, c, "k", []) == [Change(["k"], Some(Int(1)), y)];
  }

  lemma SingleKey()
    ensures SortedKeys({"k"}) == ["k"]
  {
    var keys := SortedKeys({"k"});
    assert {"k"} - {"k"} == {};
  }

  lemma OneToken(b: Json, c: Json, t: string)
    requires SameKind(b, c) && Tokens(b, c) == [t]
    ensures Changes(b, c, []) == ChangesUnder(b, c, t, [])
  {
    hide Tokens, ChangesUnder;
    assert [t][1..] == [];
    assert ChangesOver(b, c, [t], []) == ChangesUnder(b, c, t, []) + ChangesOver(b, c, [], []);
  }

  // ---- Non-interference -----------------------------------------------------

  /** The document with the member at one token path removed, where there is one. */
  function Erase(v: Json, root: seq<string>): Json
    requires root != []
    decreases |root|
  {
    if !v.Obj? then v
    else if |root| == 1 then Obj(v.members - {root[0]})
    else if root[0] in v.members then Obj(v.members[root[0] := Erase(v.members[root[0]], root[1..])])
    else v
  }

  /** Every reported pointer is the root or lies below it. */
  ghost predicate AllWithin(b: Json, c: Json, root: seq<string>) {
    forall path :: ChangeAt(b, c, path).Some? ==> root <= path
  }

  ghost predicate AllBeneathWithin(x: Option<Json>, y: Option<Json>, root: seq<string>) {
    forall rest :: Beneath(x, y, rest).Some? ==> root <= rest
  }

  lemma AllBeneathWithinChildren(x: Option<Json>, y: Option<Json>, root: seq<string>)
    requires root != []
    ensures AllBeneathWithin(x, y, root) <==> x.Some? == y.Some? && (x.Some? ==> AllWithin(x.value, y.value, root))
  {
    if x.Some? && y.Some? {
      if AllBeneathWithin(x, y, root) {
        forall path | ChangeAt(x.value, y.value, path).Some?
          ensures root <= path
        {
          assert Beneath(x, y, path).Some?;
        }
      } else {
        var rest :| Beneath(x, y, rest).Some? && !(root <= rest);
        assert ChangeAt(x.value, y.value, rest).Some?;
      }
    } else if x.Some? || y.Some? {
      assert Beneath(x, y, []).Some?;
    }
  }

  lemma PrefixJoins(root: seq<string>, path: seq<string>)
    requires root != [] && path != []
    ensures root <= path <==> root[0] == path[0] && root[1..] <= path[1..]
  {
    if root[0] == path[0] && root[1..] <= path[1..] {
      assert root == [root[0]] + root[1..] && path == [path[0]] + path[1..];
    }
  }

  lemma AllWithinByToken(b: Json, c: Json, root: seq<string>)
    requires SameKind(b, c) && root != []
    ensures AllWithin(b, c, root)
       <==> (forall t :: t != root[0] ==> NoneBeneath(Child(b, t), Child(c, t)))
            && AllBeneathWithin(Child(b, root[0]), Child(c, root[0]), root[1..])
  {
    if AllWithin(b, c, root) {
      forall t, rest | t != root[0]
        ensures Beneath(Child(b, t), Child(c, t), rest).None?
      {
        UnderToken(b, c, t, rest);
        assert ([t] + rest)[0] == t;
      }
      forall rest | Beneath(Child(b, root[0]), Child(c, root[0]), rest).Some?
        ensures root[1..] <= rest
      {
        UnderToken(b, c, root[0], rest);
        assert root <= [root[0]] + rest;
        assert root[1..] == ([root[0]] + rest)[1..|root|];
      }
    } else {
      var path :| ChangeAt(b, c, path).Some? && !(root <= path);
      assert Beneath(Child(b, path[0]), Child(c, path[0]), path[1..]).Some?;
      PrefixJoins(root, path);
      if path[0] != root[0] {
        assert !NoneBeneath(Child(b, path[0]), Child(c, path[0]));
      }
    }
  }

  ghost predicate SameChild(x: Option<Json>, y: Option<Json>) {
    x.Some? == y.Some? && (x.Some? ==> Same(x.value, y.value))
  }

  lemma NoneBeneathMeansSame(x: Option<Json>, y: Option<Json>)
    ensures NoneBeneath(x, y) <==> SameChild(x, y)
  {
    NoneBeneathChildren(x, y);
    if x.Some? && y.Some? {
      NoChangeMeansSame(x.value, y.value);
    }
  }

  /** Erasing leaves every other member alone. */
  lemma ChildOfErased(v: Json, root: seq<string>, t: string)
    requires v.Obj? && root != []
    ensures Erase(v, root).Obj?
    ensures Child(Erase(v, root), t)
         == if t != root[0] then Child(v, t)
            else if |root| == 1 || Child(v, t).None? then None
            else Some(Erase(Child(v, t).value, root[1..]))
  {
  }

  lemma {:induction false} ErasedBeneath(x: Option<Json>, y: Option<Json>, root: seq<string>)
    requires forall i :: 0 <= i < |root| ==> !IsNumeral(root[i])
    ensures AllBeneathWithin(x, y, root)
       <==> root == [] || (x.Some? == y.Some? && (x.Some? ==> Same(Erase(x.value, root), Erase(y.value, root))))
    decreases |root|, 1
  {
    if root != [] {
      AllBeneathWithinChildren(x, y, root);
      if x.Some? && y.Some? {
        NonInterference(x.value, y.value, root);
      }
    }
  }

  /** Every difference lies under the root exactly when the two documents are the same once what is
      there has been taken out of both. Index tokens are excluded: only object members are erased. */
  lemma {:induction false} NonInterference(b: Json, c: Json, root: seq<string>)
    requires root != [] && forall i :: 0 <= i < |root| ==> !IsNumeral(root[i])
    ensures AllWithin(b, c, root) <==> Same(Erase(b, root), Erase(c, root))
    decreases |root|, 0
  {
    if b.Obj? && c.Obj? {
      AllWithinByToken(b, c, root);
      ErasedBeneath(Child(b, root[0]), Child(c, root[0]), root[1..]);
      var eb, ec := Erase(b, root), Erase(c, root);
      forall t
        ensures t != root[0] ==> (NoneBeneath(Child(b, t), Child(c, t)) <==> SameChild(Child(eb, t), Child(ec, t)))
        ensures t == root[0] ==> (AllBeneathWithin(Child(b, t), Child(c, t), root[1..]) <==> SameChild(Child(eb, t), Child(ec, t)))
      {
        ChildOfErased(b, root, t);
        ChildOfErased(c, root, t);
        NoneBeneathMeansSame(Child(b, t), Child(c, t));
      }
      SameByChildren(eb, ec);
      assert Same(eb, ec) <==> forall t :: SameChild(Child(eb, t), Child(ec, t));
    } else if b.Arr? && c.Arr? {
      ArraysHoldNoMember(b, c, root);
      NoChangeMeansSame(b, c);
    } else {
      assert ChangeAt(b, c, []).None? <==> SameScalar(b, c);
    }
  }

  /** A member name never reaches into an array, so nothing under the root can differ there. */
  lemma ArraysHoldNoMember(b: Json, c: Json, root: seq<string>)
    requires b.Arr? && c.Arr? && root != [] && !IsNumeral(root[0])
    ensures AllWithin(b, c, root) <==> NoChange(b, c)
  {
    forall path | ChangeAt(b, c, path).Some?
      ensures !(root <= path)
    {
      var t := path[0];
      assert Beneath(Child(b, t), Child(c, t), path[1..]).Some?;
      var i: nat :| t == Decimal(i);
      DecimalIsNumeral(i);
    }
  }
}
