/** The walk that reports where two JSON documents disagree. */
module Diff {
  import opened Json
  import opened Wrappers
  import opened Ordering
  import opened Pointer

  /** One disagreement by reference tokens; an absent side is None. */
  datatype Change = Change(path: seq<string>, baseline: Option<Json>, candidate: Option<Json>)

  /** One disagreement as it is reported: the absent side has become null. */
  datatype Difference = Difference(pointer: string, baseline: Json, candidate: Json)

  function OrNull(v: Option<Json>): Json { if v.Some? then v.value else Null }

  function Emit(ch: Change): Difference {
    Difference(Spell(ch.path), OrNull(ch.baseline), OrNull(ch.candidate))
  }

  function Emitted(chs: seq<Change>): (ds: seq<Difference>)
    ensures |ds| == |chs|
  {
    seq(|chs|, i requires 0 <= i < |chs| => Emit(chs[i]))
  }

  lemma EmittedConcat(a: seq<Change>, b: seq<Change>)
    ensures Emitted(a + b) == Emitted(a) + Emitted(b)
  {
  }

  // ---- The list, in the order it is built -----------------------------------

  function Longest(a: nat, b: nat): nat { if a >= b then a else b }

  /** The tokens the walk visits: sorted keys, or indexes in order. */
  ghost function Tokens(b: Json, c: Json): seq<string>
    requires SameKind(b, c)
  {
    if b.Obj? then SortedKeys(b.members.Keys + c.members.Keys)
    else seq(Longest(|b.items|, |c.items|), i requires 0 <= i => Decimal(i))
  }

  ghost function Changes(b: Json, c: Json, path: seq<string>): seq<Change>
    decreases b, 2, 0
  {
    if SameKind(b, c) then ChangesOver(b, c, Tokens(b, c), path)
    else if SameScalar(b, c) then []
    else [Change(path, Some(b), Some(c))]
  }

  ghost function ChangesOver(b: Json, c: Json, tokens: seq<string>, path: seq<string>): seq<Change>
    decreases b, 1, |tokens|
  {
    if tokens == [] then [] else ChangesUnder(b, c, tokens[0], path) + ChangesOver(b, c, tokens[1..], path)
  }

  ghost function ChangesUnder(b: Json, c: Json, t: string, path: seq<string>): seq<Change>
    decreases b, 0, 0
  {
    var x, y := Child(b, t), Child(c, t);
    if x.Some? && y.Some? then
      ChildSmaller(b, t);
      Changes(x.value, y.value, path + [t])
    else if x.Some? || y.Some? then [Change(path + [t], x, y)]
    else []
  }

  // ---- The code -------------------------------------------------------------

  /** diff_values */
  method DiffValues(baseline: Json, candidate: Json, pointer: string, ghost path: seq<string>)
    returns (differences: seq<Difference>)
    requires pointer == Render(path)
    ensures differences == Emitted(Changes(baseline, candidate, path))
    decreases baseline, 1
  {
    if baseline.Obj? && candidate.Obj? {
      differences := DiffObjects(baseline, candidate, pointer, path);
    } else if baseline.Arr? && candidate.Arr? {
      differences := DiffArrays(baseline, candidate, pointer, path);
    } else if SameScalar(baseline, candidate) {
      differences := [];
    } else {
      RenderStarts(path);
      differences := [Difference(if pointer == "" then "/" else pointer, baseline, candidate)];
    }
  }

  method DiffObjects(baseline: Json, candidate: Json, pointer: string, ghost path: seq<string>)
    returns (differences: seq<Difference>)
    requires baseline.Obj? && candidate.Obj? && pointer == Render(path)
    ensures differences == Emitted(Changes(baseline, candidate, path))
    decreases baseline, 0
  {
    hide Changes, ChangesOver, ChangesUnder, Emitted, Escape, Render, SortedKeys;
    differences := [];
    var keys := SortedKeys(baseline.members.Keys + candidate.members.Keys);
    WholeWalk(baseline, candidate, path);
    assert keys == Tokens(baseline, candidate);
    for i := 0 to |keys|
      invariant differences + Emitted(ChangesOver(baseline, candidate, keys[i..], path)) == Emitted(Changes(baseline, candidate, path))
    {
      var key := keys[i];
      assert key in keys;
      var child := pointer + "/" + Escape(key);
      RenderSnoc(path, key);
      ReportedUnder(baseline, candidate, key, path);
      ghost var before := differences;
      if key !in baseline.members {
        differences := differences + [Difference(child, Null, candidate.members[key])];
      } else if key !in candidate.members {
        differences := differences + [Difference(child, baseline.members[key], Null)];
      } else {
        var below := DiffValues(baseline.members[key], candidate.members[key], child, path + [key]);
        differences := differences + below;
      }
      assert differences == before + Emitted(ChangesUnder(baseline, candidate, key, path));
      OneMore(baseline, candidate, keys, i, path, before);
    }
  }

  method DiffArrays(baseline: Json, candidate: Json, pointer: string, ghost path: seq<string>)
    returns (differences: seq<Difference>)
    requires baseline.Arr? && candidate.Arr? && pointer == Render(path)
    ensures differences == Emitted(Changes(baseline, candidate, path))
    decreases baseline, 0
  {
    hide Changes, ChangesOver, ChangesUnder, Emitted, Child, Escape, Render, Decimal;
    differences := [];
    ghost var tokens := Tokens(baseline, candidate);
    WholeWalk(baseline, candidate, path);
    for index := 0 to Longest(|baseline.items|, |candidate.items|)
      invariant differences + Emitted(ChangesOver(baseline, candidate, tokens[index..], path)) == Emitted(Changes(baseline, candidate, path))
    {
      var child := pointer + "/" + Decimal(index);
      RenderSnoc(path, Decimal(index));
      DecimalIsNumeral(index);
      NumeralNeedsNoEscape(Decimal(index));
      ChildOfArray(baseline, index);
      ChildOfArray(candidate, index);
      ReportedUnder(baseline, candidate, Decimal(index), path);
      ghost var before := differences;
      if index >= |baseline.items| {
        differences := differences + [Difference(child, Null, candidate.items[index])];
      } else if index >= |candidate.items| {
        differences := differences + [Difference(child, baseline.items[index], Null)];
      } else {
        var below := DiffValues(baseline.items[index], candidate.items[index], child, path + [Decimal(index)]);
        differences := differences + below;
      }
      assert differences == before + Emitted(ChangesUnder(baseline, candidate, Decimal(index), path));
      OneMore(baseline, candidate, tokens, index, path, before);
    }
  }

  lemma WholeWalk(b: Json, c: Json, path: seq<string>)
    requires SameKind(b, c)
    ensures ChangesOver(b, c, Tokens(b, c)[0..], path) == Changes(b, c, path)
    ensures Emitted(ChangesOver(b, c, Tokens(b, c)[|Tokens(b, c)|..], path)) == []
  {
    assert Tokens(b, c)[0..] == Tokens(b, c);
  }

  /** What is reported for one token: the walk below it, or the one side that has it against null. */
  lemma ReportedUnder(b: Json, c: Json, t: string, path: seq<string>)
    requires Child(b, t).Some? || Child(c, t).Some?
    ensures Emitted(ChangesUnder(b, c, t, path))
         == if Child(b, t).Some? && Child(c, t).Some? then Emitted(Changes(Child(b, t).value, Child(c, t).value, path + [t]))
            else [Difference(Render(path + [t]), OrNull(Child(b, t)), OrNull(Child(c, t)))]
  {
    hide Changes, Child, Render;
    var x, y := Child(b, t), Child(c, t);
    if x.None? || y.None? {
      assert Emitted([Change(path + [t], x, y)]) == [Emit(Change(path + [t], x, y))];
    }
  }

  /** Moving one token's changes from the remainder to what has been collected. */
  lemma OneMore(b: Json, c: Json, tokens: seq<string>, i: nat, path: seq<string>, before: seq<Difference>)
    requires i < |tokens|
    ensures before + Emitted(ChangesOver(b, c, tokens[i..], path))
         == (before + Emitted(ChangesUnder(b, c, tokens[i], path))) + Emitted(ChangesOver(b, c, tokens[i + 1..], path))
  {
    assert tokens[i..][1..] == tokens[i + 1..];
    EmittedConcat(ChangesUnder(b, c, tokens[i], path), ChangesOver(b, c, tokens[i + 1..], path));
  }

  // ---- What a document holds at a path --------------------------------------

  ghost function Lookup(v: Json, path: seq<string>): Option<Json> {
    if path == [] then Some(v)
    else match Child(v, path[0])
      case None => None
      case Some(x) => Lookup(x, path[1..])
  }

  /** The reference: which change, if any, two documents have at one path, worked out along that path alone. */
  ghost function ChangeAt(b: Json, c: Json, path: seq<string>): Option<(Option<Json>, Option<Json>)>
    decreases |path|, 0
  {
    if SameKind(b, c) then
      if path == [] then None else Beneath(Child(b, path[0]), Child(c, path[0]), path[1..])
    else if path == [] && !SameScalar(b, c) then Some((Some(b), Some(c)))
    else None
  }

  /** The same for two children of which either may be absent. */
  ghost function Beneath(x: Option<Json>, y: Option<Json>, rest: seq<string>): Option<(Option<Json>, Option<Json>)>
    decreases |rest|, 1
  {
    if x.Some? && y.Some? then ChangeAt(x.value, y.value, rest)
    else if rest == [] && (x.Some? || y.Some?) then Some((x, y))
    else None
  }

  lemma TokensCover(b: Json, c: Json, t: string)
    requires SameKind(b, c)
    requires Child(b, t).Some? || Child(c, t).Some?
    ensures t in Tokens(b, c)
  {
    if b.Arr? {
      var n := Longest(|b.items|, |c.items|);
      var i: nat :| i < n && t == Decimal(i);
      assert Tokens(b, c)[i] == t;
    }
  }

  /** The list holds exactly the changes the reference finds, at every path. */
  lemma {:induction false} ChangesExact(b: Json, c: Json, path: seq<string>, ch: Change)
    ensures ch in Changes(b, c, path)
       <==> path <= ch.path && ChangeAt(b, c, ch.path[|path|..]) == Some((ch.baseline, ch.candidate))
    decreases b, 2, 0
  {
    if SameKind(b, c) {
      var tokens := Tokens(b, c);
      ChangesOverExact(b, c, tokens, path, ch);
      if path <= ch.path && |ch.path| > |path| {
        var t := ch.path[|path|];
        assert ch.path[|path|..][0] == t && ch.path[|path|..][1..] == ch.path[|path| + 1..];
        if Child(b, t).Some? || Child(c, t).Some? {
          TokensCover(b, c, t);
        }
      }
    } else if path <= ch.path && ch.path[|path|..] == [] {
      assert ch.path == path;
    }
  }

  lemma {:induction false} ChangesOverExact(b: Json, c: Json, tokens: seq<string>, path: seq<string>, ch: Change)
    requires SameKind(b, c)
    ensures ch in ChangesOver(b, c, tokens, path)
       <==> path < ch.path && ch.path[|path|] in tokens
            && ChangeAt(b, c, ch.path[|path|..]) == Some((ch.baseline, ch.candidate))
    decreases b, 1, |tokens|
  {
    if tokens != [] {
      ChangesUnderExact(b, c, tokens[0], path, ch);
      ChangesOverExact(b, c, tokens[1..], path, ch);
      assert tokens == [tokens[0]] + tokens[1..];
    }
  }

  lemma {:induction false} ChangesUnderExact(b: Json, c: Json, t: string, path: seq<string>, ch: Change)
    requires SameKind(b, c)
    ensures ch in ChangesUnder(b, c, t, path)
       <==> path < ch.path && ch.path[|path|] == t
            && ChangeAt(b, c, ch.path[|path|..]) == Some((ch.baseline, ch.candidate))
    decreases b, 0, 0
  {
    var x, y := Child(b, t), Child(c, t);
    ChildSmaller(b, t);
    if path < ch.path && ch.path[|path|] == t {
      assert ch.path[|path|..][0] == t;
      assert ch.path[|path|..][1..] == ch.path[|path| + 1..] == ch.path[|path + [t]|..];
      assert path + [t] <= ch.path;
      if |ch.path| == |path| + 1 {
        assert ch.path == path + [t];
      }
    }
    if x.Some? && y.Some? {
      ChangesExact(x.value, y.value, path + [t], ch);
      if path + [t] <= ch.path {
        assert ch.path[|path|] == (path + [t])[|path|];
        assert path == (path + [t])[..|path|] == ch.path[..|path|];
      }
    } else if x.Some? || y.Some? {
      if ch == Change(path + [t], x, y) {
        assert ch.path[|path|..] == [t];
      }
    }
  }

  // ---- No pointer reported twice, none within another -----------------------

  /** A change at a path rules out every change below it. */
  lemma {:induction false} NothingBelow(b: Json, c: Json, path: seq<string>, longer: seq<string>)
    requires ChangeAt(b, c, path).Some? && path < longer
    ensures ChangeAt(b, c, longer).None?
    decreases |path|
  {
    if SameKind(b, c) {
      assert path[0] == longer[0] && path[1..] < longer[1..] by { PrefixSplits(path, longer); }
      var x, y := Child(b, path[0]), Child(c, path[0]);
      if x.Some? && y.Some? {
        NothingBelow(x.value, y.value, path[1..], longer[1..]);
      }
    }
  }

  ghost predicate PathsDistinct(chs: seq<Change>) {
    forall i, j :: 0 <= i < j < |chs| ==> chs[i].path != chs[j].path
  }

  lemma TokensDistinct(b: Json, c: Json)
    requires SameKind(b, c)
    ensures forall i, j :: 0 <= i < j < |Tokens(b, c)| ==> Tokens(b, c)[i] != Tokens(b, c)[j]
  {
    if b.Arr? {
      forall i: nat, j: nat | i < j < |Tokens(b, c)|
        ensures Decimal(i) != Decimal(j)
      {
        if Decimal(i) == Decimal(j) {
          DecimalInjective(i, j);
        }
      }
    }
  }

  lemma {:induction false} ChangesDistinct(b: Json, c: Json, path: seq<string>)
    ensures PathsDistinct(Changes(b, c, path))
    decreases b, 2, 0
  {
    if SameKind(b, c) {
      TokensDistinct(b, c);
      ChangesOverDistinct(b, c, Tokens(b, c), path);
    }
  }

  lemma {:induction false} ChangesOverDistinct(b: Json, c: Json, tokens: seq<string>, path: seq<string>)
    requires SameKind(b, c)
    requires forall i, j :: 0 <= i < j < |tokens| ==> tokens[i] != tokens[j]
    ensures PathsDistinct(ChangesOver(b, c, tokens, path))
    decreases b, 1, |tokens|
  {
    if tokens != [] {
      var t := tokens[0];
      var here, rest := ChangesUnder(b, c, t, path), ChangesOver(b, c, tokens[1..], path);
      ChangesUnderDistinct(b, c, t, path);
      ChangesOverDistinct(b, c, tokens[1..], path);
      forall x, y | x in here && y in rest
        ensures x.path != y.path
      {
        ChangesUnderExact(b, c, t, path, x);
        ChangesOverExact(b, c, tokens[1..], path, y);
      }
      forall i, j | 0 <= i < j < |here + rest|
        ensures (here + rest)[i].path != (here + rest)[j].path
      {
        if i < |here| <= j {
          assert (here + rest)[i] in here && (here + rest)[j] in rest;
        }
      }
    }
  }

  lemma {:induction false} ChangesUnderDistinct(b: Json, c: Json, t: string, path: seq<string>)
    ensures PathsDistinct(ChangesUnder(b, c, t, path))
    decreases b, 0, 0
  {
    var x, y := Child(b, t), Child(c, t);
    ChildSmaller(b, t);
    if x.Some? && y.Some? {
      ChangesDistinct(x.value, y.value, path + [t]);
    }
  }

  /** No reported path is another one or lies below it. */
  lemma NoneWithinAnother(b: Json, c: Json, i: nat, j: nat)
    requires i < |Changes(b, c, [])| && j < |Changes(b, c, [])| && i != j
    ensures !(Changes(b, c, [])[i].path <= Changes(b, c, [])[j].path)
  {
    var chs := Changes(b, c, []);
    ChangesDistinct(b, c, []);
    ChangesExact(b, c, [], chs[i]);
    ChangesExact(b, c, [], chs[j]);
    assert chs[i].path[0..] == chs[i].path && chs[j].path[0..] == chs[j].path;
    if chs[i].path < chs[j].path {
      NothingBelow(b, c, chs[i].path, chs[j].path);
    }
  }

  // ---- Every report is a real disagreement ----------------------------------

  ghost predicate Disagree(x: Option<Json>, y: Option<Json>) {
    (x.Some? || y.Some?) && (x.Some? && y.Some? ==> !Same(x.value, y.value))
  }

  lemma {:induction false} ChangeIsReal(b: Json, c: Json, path: seq<string>)
    requires ChangeAt(b, c, path).Some?
    ensures ChangeAt(b, c, path) == Some((Lookup(b, path), Lookup(c, path)))
    ensures Disagree(Lookup(b, path), Lookup(c, path))
    decreases |path|
  {
    if SameKind(b, c) {
      var x, y := Child(b, path[0]), Child(c, path[0]);
      if x.Some? && y.Some? {
        ChangeIsReal(x.value, y.value, path[1..]);
      }
    }
  }

  ghost predicate NoChange(b: Json, c: Json) { forall path :: ChangeAt(b, c, path).None? }

  ghost predicate NoneBeneath(x: Option<Json>, y: Option<Json>) { forall rest :: Beneath(x, y, rest).None? }

  lemma NoneBeneathChildren(x: Option<Json>, y: Option<Json>)
    ensures NoneBeneath(x, y) <==> x.Some? == y.Some? && (x.Some? ==> NoChange(x.value, y.value))
  {
    if x.Some? && y.Some? {
      if NoneBeneath(x, y) {
        forall path
          ensures ChangeAt(x.value, y.value, path).None?
        {
          assert Beneath(x, y, path).None?;
        }
      } else {
        var rest :| Beneath(x, y, rest).Some?;
        assert ChangeAt(x.value, y.value, rest).Some?;
      }
    } else if x.Some? || y.Some? {
      assert Beneath(x, y, []).Some?;
    }
  }

  lemma NoneBeneathTokens(b: Json, c: Json)
    requires SameKind(b, c)
    ensures NoChange(b, c) <==> forall t :: NoneBeneath(Child(b, t), Child(c, t))
  {
    if NoChange(b, c) {
      forall t, rest
        ensures Beneath(Child(b, t), Child(c, t), rest).None?
      {
        UnderToken(b, c, t, rest);
      }
    } else {
      var path :| ChangeAt(b, c, path).Some?;
      assert Beneath(Child(b, path[0]), Child(c, path[0]), path[1..]).Some?;
      assert !NoneBeneath(Child(b, path[0]), Child(c, path[0]));
    }
  }

  /** Nothing is reported exactly when the two are the same document. */
  lemma {:induction false} NoChangeMeansSame(b: Json, c: Json)
    ensures NoChange(b, c) <==> Same(b, c)
    decreases b
  {
    if SameKind(b, c) {
      SameByChildren(b, c);
      NoneBeneathTokens(b, c);
      forall t
        ensures NoneBeneath(Child(b, t), Child(c, t))
           <==> Child(b, t).Some? == Child(c, t).Some?
                && (Child(b, t).Some? ==> Same(Child(b, t).value, Child(c, t).value))
      {
        NoneBeneathChildren(Child(b, t), Child(c, t));
        ChildSmaller(b, t);
        if Child(b, t).Some? && Child(c, t).Some? {
          NoChangeMeansSame(Child(b, t).value, Child(c, t).value);
        }
      }
    } else {
      assert ChangeAt(b, c, []).None? <==> SameScalar(b, c);
    }
  }

  /** What the reference says below one token. */
  lemma UnderToken(b: Json, c: Json, t: string, rest: seq<string>)
    requires SameKind(b, c)
    ensures ChangeAt(b, c, [t] + rest) == Beneath(Child(b, t), Child(c, t), rest)
  {
    assert ([t] + rest)[1..] == rest;
  }
}
