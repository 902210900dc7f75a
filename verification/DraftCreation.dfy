/** Creating one draft: a private staging tree, verification, and a rename, raced by any number of processes. */
module DraftCreation {
  import opened Wrappers
  import Snapshot

  /** A directory's files by relative path. */
  type Tree = map<string, string>

  datatype StagedFile = StagedFile(path: string, content: string)

  /** What one process is creating, and how far it has got. `next` files have been written. */
  datatype Creator =
    | Fresh(plan: seq<StagedFile>)
    | Writing(plan: seq<StagedFile>, next: nat)
    | Verified(plan: seq<StagedFile>)
    | Placed(plan: seq<StagedFile>)
    | Raising(plan: seq<StagedFile>)
    | Failed(plan: seq<StagedFile>)
    | Gone(plan: seq<StagedFile>)

  /** The draft's final directory, and each process's own staging directory. */
  datatype State = State(final: Option<Tree>, staging: seq<Option<Tree>>, creators: seq<Creator>)

  datatype Action =
    | Start(i: nat)
    | WriteFile(i: nat)
    | Verify(i: nat)
    | Place(i: nat)
    | Raise(i: nat)
    | CleanUp(i: nat)
    | Die(i: nat, residue: Option<Tree>)

  function Contents(plan: seq<StagedFile>): Tree {
    if plan == [] then map[] else Contents(plan[..|plan| - 1])[plan[|plan| - 1].path := plan[|plan| - 1].content]
  }

  function Move(s: State, i: nat, c: Creator, tree: Option<Tree>): State
    requires i < |s.creators| == |s.staging|
  {
    s.(creators := s.creators[i := c], staging := s.staging[i := tree])
  }

  /** os.rename of a directory: onto nothing, or onto an empty directory. */
  predicate CanRename(final: Option<Tree>) { final.None? || final.value == map[] }

  /** One step of one process. Any step of create may raise instead; raising removes the staging tree. */
  function Apply(s: State, a: Action, passes: Tree -> bool): Option<State>
    requires |s.creators| == |s.staging|
  {
    if a.i >= |s.creators| then None
    else
      var c, tree := s.creators[a.i], s.staging[a.i];
      match a
      case Start(i) =>
        if !c.Fresh? then None
        else if s.final.Some? then Some(Move(s, i, Failed(c.plan), tree))
        else Some(Move(s, i, Writing(c.plan, 0), Some(map[])))
      case WriteFile(i) =>
        if c.Writing? && c.next < |c.plan| && tree.Some? && c.plan[c.next].path !in tree.value
        then Some(Move(s, i, Writing(c.plan, c.next + 1), Some(tree.value[c.plan[c.next].path := c.plan[c.next].content])))
        else None
      case Verify(i) =>
        if c.Writing? && c.next == |c.plan| && tree.Some?
        then Some(Move(s, i, if passes(tree.value) then Verified(c.plan) else Raising(c.plan), tree))
        else None
      case Place(i) =>
        if !c.Verified? then None
        else if CanRename(s.final) then Some(Move(s, i, Placed(c.plan), None).(final := tree))
        else Some(Move(s, i, Raising(c.plan), tree))
      case Raise(i) => if c.Writing? || c.Verified? then Some(Move(s, i, Raising(c.plan), tree)) else None
      case CleanUp(i) => if c.Raising? then Some(Move(s, i, Failed(c.plan), None)) else None
      case Die(i, residue) =>
        if c.Placed? || c.Failed? then None else Some(Move(s, i, Gone(c.plan), if tree.Some? then residue else None))
  }

  function Execute(s: State, actions: seq<Action>, passes: Tree -> bool): Option<State>
    requires |s.creators| == |s.staging|
    decreases |actions|
  {
    if actions == [] then Some(s)
    else match Apply(s, actions[0], passes)
      case None => None
      case Some(t) => Execute(t, actions[1..], passes)
  }

  function Initial(plans: seq<seq<StagedFile>>): State {
    State(None, seq(|plans|, i => None), seq(|plans|, i requires 0 <= i < |plans| => Fresh(plans[i])))
  }

  // ---- The invariant --------------------------------------------------------

  /** No file is written twice. */
  predicate Distinct(plan: seq<StagedFile>) { forall i, j :: 0 <= i < j < |plan| ==> plan[i].path != plan[j].path }

  /** What a process's own staging tree holds at each point. */
  predicate Staged(c: Creator, tree: Option<Tree>, passes: Tree -> bool) {
    match c
    case Fresh(_) => tree.None?
    case Writing(plan, n) => n <= |plan| && tree == Some(Contents(plan[..n])) && Distinct(plan[..n])
    case Verified(plan) => tree == Some(Contents(plan)) && passes(Contents(plan)) && Distinct(plan)
    case Placed(plan) => tree.None? && passes(Contents(plan)) && Distinct(plan)
    case Failed(_) => tree.None?
    case _ => true
  }

  ghost predicate PlacedBy(s: State, i: int) { 0 <= i < |s.creators| && s.creators[i].Placed? }

  /** The final directory is absent, or is exactly what one process staged and verified; nobody else has placed. */
  ghost predicate Inv(s: State, passes: Tree -> bool) {
    |s.creators| == |s.staging|
    && (forall i :: 0 <= i < |s.creators| ==> s.creators[i].plan != [] && Staged(s.creators[i], s.staging[i], passes))
    && (s.final.None? ==> forall i :: !PlacedBy(s, i))
    && (s.final.Some? ==> exists i :: PlacedBy(s, i) && s.final == Some(Contents(s.creators[i].plan)))
    && (s.final.Some? ==> s.final.value != map[] && passes(s.final.value))
    && forall i, j :: PlacedBy(s, i) && PlacedBy(s, j) ==> i == j
  }

  lemma InitialInv(plans: seq<seq<StagedFile>>, passes: Tree -> bool)
    requires forall p :: p in plans ==> p != []
    ensures Inv(Initial(plans), passes)
  {
    assert forall i :: 0 <= i < |plans| ==> plans[i] in plans;
  }

  lemma ContentsSnoc(plan: seq<StagedFile>, n: nat)
    requires n < |plan|
    ensures Contents(plan[..n + 1]) == Contents(plan[..n])[plan[n].path := plan[n].content]
    ensures Distinct(plan[..n + 1]) <==> Distinct(plan[..n]) && plan[n].path !in Contents(plan[..n])
  {
    var init := plan[..n];
    assert plan[..n + 1] == init + [plan[n]] && plan[..n + 1][..n] == init;
    PathsOf(init, plan[n].path);
    if Distinct(plan[..n + 1]) {
      assert forall i :: 0 <= i < n ==> plan[..n + 1][i] == init[i];
      assert plan[..n + 1][n] == plan[n];
    }
  }

  lemma {:induction false} PathsOf(plan: seq<StagedFile>, path: string)
    ensures path in Contents(plan) <==> exists i :: 0 <= i < |plan| && plan[i].path == path
  {
    if plan != [] {
      var init := plan[..|plan| - 1];
      PathsOf(init, path);
      assert forall i :: 0 <= i < |init| ==> init[i] == plan[i];
    }
  }

  /** What one step does, seen from everybody else. */
  lemma AppliedAt(s: State, a: Action, passes: Tree -> bool)
    requires Inv(s, passes) && Apply(s, a, passes).Some?
    ensures var t := Apply(s, a, passes).value;
            |t.creators| == |s.creators| == |t.staging| && a.i < |t.creators|
            && (forall j :: 0 <= j < |t.creators| && j != a.i ==> t.creators[j] == s.creators[j] && t.staging[j] == s.staging[j])
            && t.creators[a.i].plan == s.creators[a.i].plan
            && Staged(t.creators[a.i], t.staging[a.i], passes)
            && (t.creators[a.i].Placed? <==> t.final != s.final)
            && (t.final != s.final ==> s.final.None? && t.final == Some(Contents(t.creators[a.i].plan))
                                       && t.final.value != map[] && passes(t.final.value))
            && !s.creators[a.i].Placed?
  {
    hide Contents;
    var c := s.creators[a.i];
    assert Staged(c, s.staging[a.i], passes);
    if c.Writing? {
      assert c.plan[..|c.plan|] == c.plan;
      if c.next < |c.plan| {
        ContentsSnoc(c.plan, c.next);
      }
    } else if c.Fresh? {
      assert Contents(c.plan[..0]) == map[] by { NothingYet(c.plan); }
    }
    NotEmpty(c.plan);
  }

  lemma NothingYet(plan: seq<StagedFile>)
    ensures Contents(plan[..0]) == map[]
  {
  }

  lemma NotEmpty(plan: seq<StagedFile>)
    requires plan != []
    ensures Contents(plan) != map[]
  {
    assert plan[|plan| - 1].path in Contents(plan);
  }

  /** Every step keeps the invariant, and the final directory once there never changes. */
  lemma StepKeeps(s: State, a: Action, passes: Tree -> bool)
    requires Inv(s, passes) && Apply(s, a, passes).Some?
    ensures Inv(Apply(s, a, passes).value, passes)
    ensures s.final.Some? ==> Apply(s, a, passes).value.final == s.final
  {
    AppliedAt(s, a, passes);
    hide Apply, Staged, Contents;
    var t := Apply(s, a, passes).value;
    forall i: int
      ensures PlacedBy(t, i) <==> PlacedBy(s, i) || (i == a.i && t.final != s.final)
    {
      if 0 <= i < |t.creators| && i != a.i {
        assert t.creators[i] == s.creators[i];
      }
    }
    if s.final.Some? {
      var i :| PlacedBy(s, i) && s.final == Some(Contents(s.creators[i].plan));
      assert PlacedBy(t, i) && t.creators[i] == s.creators[i];
    } else if t.final.Some? {
      assert PlacedBy(t, a.i);
    }
    forall j | 0 <= j < |t.creators|
      ensures t.creators[j].plan != [] && Staged(t.creators[j], t.staging[j], passes)
    {
      assert j != a.i ==> t.creators[j] == s.creators[j] && t.staging[j] == s.staging[j];
    }
  }

  lemma {:induction false} RunKeeps(s: State, actions: seq<Action>, passes: Tree -> bool)
    requires Inv(s, passes) && Execute(s, actions, passes).Some?
    ensures Inv(Execute(s, actions, passes).value, passes)
    ensures s.final.Some? ==> Execute(s, actions, passes).value.final == s.final
    decreases |actions|
  {
    hide Apply, Staged, Contents;
    if actions != [] {
      StepKeeps(s, actions[0], passes);
      RunKeeps(Apply(s, actions[0], passes).value, actions[1..], passes);
    }
  }

  /** A creation that succeeded has succeeded for good. */
  lemma {:induction false} PlacedStays(s: State, actions: seq<Action>, passes: Tree -> bool, i: nat)
    requires Inv(s, passes) && Execute(s, actions, passes).Some? && PlacedBy(s, i)
    ensures PlacedBy(Execute(s, actions, passes).value, i)
    decreases |actions|
  {
    hide Apply, Staged, Contents;
    if actions != [] {
      AppliedAt(s, actions[0], passes);
      StepKeeps(s, actions[0], passes);
      PlacedStays(Apply(s, actions[0], passes).value, actions[1..], passes, i);
    }
  }

  lemma {:induction false} SamePlan(s: State, actions: seq<Action>, passes: Tree -> bool, i: nat)
    requires Inv(s, passes) && i < |s.creators| && Execute(s, actions, passes).Some?
    ensures var t := Execute(s, actions, passes).value; i < |t.creators| && t.creators[i].plan == s.creators[i].plan
    decreases |actions|
  {
    hide Apply, Staged, Contents;
    if actions != [] {
      AppliedAt(s, actions[0], passes);
      StepKeeps(s, actions[0], passes);
      SamePlan(Apply(s, actions[0], passes).value, actions[1..], passes, i);
    }
  }

  // ---- When a creation succeeds ---------------------------------------------

  function Writes(i: nat, n: nat): seq<Action> { if n == 0 then [] else Writes(i, n - 1) + [WriteFile(i)] }

  /** The steps of a creation that nothing disturbs. */
  function StepsOf(final: Option<Tree>, plan: seq<StagedFile>, i: nat, passes: Tree -> bool): seq<Action> {
    if final.Some? then [Start(i)]
    else [Start(i)] + Writes(i, |plan|) + [Verify(i)] + [if passes(Contents(plan)) then Place(i) else CleanUp(i)]
  }

  lemma {:induction false} ExecuteConcat(s: State, first: seq<Action>, more: seq<Action>, passes: Tree -> bool)
    requires Inv(s, passes)
    ensures Execute(s, first + more, passes)
         == match Execute(s, first, passes)
            case None => None
            case Some(t) => if |t.creators| == |t.staging| then Execute(t, more, passes) else None
    decreases |first|
  {
    hide Apply, Staged, Contents;
    if first == [] {
      assert first + more == more;
    } else {
      assert (first + more)[1..] == first[1..] + more;
      if Apply(s, first[0], passes).Some? {
        StepKeeps(s, first[0], passes);
        ExecuteConcat(Apply(s, first[0], passes).value, first[1..], more, passes);
      }
    }
  }

  /** One step more at the end of a run. */
  lemma OneMore(s: State, first: seq<Action>, t: State, a: Action, passes: Tree -> bool) returns (u: State)
    requires Inv(s, passes) && Execute(s, first, passes) == Some(t) && |t.creators| == |t.staging| && Apply(t, a, passes).Some?
    ensures Apply(t, a, passes) == Some(u) && Execute(s, first + [a], passes) == Some(u) && Inv(u, passes)
    ensures |u.creators| == |u.staging|
  {
    hide Apply, Staged, Contents;
    RunKeeps(s, first, passes);
    StepKeeps(t, a, passes);
    ExecuteConcat(s, first, [a], passes);
    u := Apply(t, a, passes).value;
    assert [a][1..] == [];
    assert Execute(u, [], passes) == Some(u);
  }

  lemma {:induction false} AfterWrites(s: State, i: nat, n: nat, passes: Tree -> bool) returns (t: State)
    requires Inv(s, passes) && i < |s.creators| && s.creators[i].Fresh? && s.final.None?
    requires n <= |s.creators[i].plan| && Distinct(s.creators[i].plan)
    ensures Execute(s, [Start(i)] + Writes(i, n), passes) == Some(t)
    ensures t == Move(s, i, Writing(s.creators[i].plan, n), Some(Contents(s.creators[i].plan[..n])))
    decreases n
  {
    hide Execute, Contents, Staged;
    var plan := s.creators[i].plan;
    if n == 0 {
      assert [] + [Start(i)] == [Start(i)] + Writes(i, 0);
      NothingYet(plan);
      assert Execute(s, [], passes) == Some(s) by { Nothing(s, passes); }
      t := OneMore(s, [], s, Start(i), passes);
    } else {
      var u := AfterWrites(s, i, n - 1, passes);
      ContentsSnoc(plan, n - 1);
      assert Distinct(plan[..n - 1 + 1]);
      t := OneMore(s, [Start(i)] + Writes(i, n - 1), u, WriteFile(i), passes);
      assert [Start(i)] + Writes(i, n - 1) + [WriteFile(i)] == [Start(i)] + Writes(i, n);
    }
  }

  lemma Nothing(s: State, passes: Tree -> bool)
    requires |s.creators| == |s.staging|
    ensures Execute(s, [], passes) == Some(s)
  {
  }

  /** A creation that is over: its tree placed, or nothing of it left. */
  function Over(s: State, i: nat, placed: bool): State
    requires i < |s.creators|
  {
    var plan := s.creators[i].plan;
    if placed then State(Some(Contents(plan)), s.staging, s.creators[i := Placed(plan)])
    else State(s.final, s.staging, s.creators[i := Failed(plan)])
  }

  /** A creation that nothing disturbs succeeds where there is no draft yet and its tree passes, and places just that
      tree; otherwise it fails, and nothing of it is left. */
  lemma UndisturbedCreation(s: State, i: nat, passes: Tree -> bool)
    requires Inv(s, passes) && i < |s.creators| && s.creators[i].Fresh? && Distinct(s.creators[i].plan)
    ensures Execute(s, StepsOf(s.final, s.creators[i].plan, i, passes), passes)
         == Some(Over(s, i, s.final.None? && passes(Contents(s.creators[i].plan))))
  {
    hide Execute, Contents;
    var plan := s.creators[i].plan;
    assert Staged(s.creators[i], s.staging[i], passes);
    if s.final.Some? {
      Nothing(s, passes);
      var t := OneMore(s, [], s, Start(i), passes);
      assert [] + [Start(i)] == [Start(i)];
      assert t.staging == s.staging;
    } else {
      var t := AfterWrites(s, i, |plan|, passes);
      assert plan[..|plan|] == plan;
      UndisturbedEnd(s, [Start(i)] + Writes(i, |plan|), t, i, passes);
    }
  }

  lemma UndisturbedEnd(s: State, first: seq<Action>, t: State, i: nat, passes: Tree -> bool)
    requires Inv(s, passes) && i < |s.creators| && s.creators[i].Fresh? && s.final.None?
    requires Execute(s, first, passes) == Some(t)
    requires t == Move(s, i, Writing(s.creators[i].plan, |s.creators[i].plan|), Some(Contents(s.creators[i].plan)))
    ensures var passed := passes(Contents(s.creators[i].plan));
            Execute(s, first + [Verify(i)] + [if passed then Place(i) else CleanUp(i)], passes) == Some(Over(s, i, passed))
  {
    hide Execute, Contents;
    var plan := s.creators[i].plan;
    assert Staged(s.creators[i], s.staging[i], passes);
    var u := OneMore(s, first, t, Verify(i), passes);
    var v := OneMore(s, first + [Verify(i)], u, if passes(Contents(plan)) then Place(i) else CleanUp(i), passes);
    assert v.staging == s.staging;
    assert v.creators == Over(s, i, passes(Contents(plan))).creators;
  }

  ghost predicate Places(s: State, actions: seq<Action>, passes: Tree -> bool, i: nat)
    requires |s.creators| == |s.staging|
  {
    Execute(s, actions, passes).Some? && PlacedBy(Execute(s, actions, passes).value, i)
  }

  /** Whatever the others do, a creation that has not begun can still succeed exactly when there is no draft yet, it
      writes no file twice, and its tree passes. */
  lemma CreatableExactly(s: State, i: nat, passes: Tree -> bool)
    requires Inv(s, passes) && i < |s.creators| && s.creators[i].Fresh?
    ensures (exists actions :: Places(s, actions, passes, i))
       <==> s.final.None? && Distinct(s.creators[i].plan) && passes(Contents(s.creators[i].plan))
  {
    hide Execute, Contents, Distinct;
    var plan := s.creators[i].plan;
    if s.final.None? && Distinct(plan) && passes(Contents(plan)) {
      UndisturbedCreation(s, i, passes);
      assert Places(s, StepsOf(s.final, plan, i, passes), passes, i);
    }
    forall actions | Places(s, actions, passes, i)
      ensures s.final.None? && Distinct(plan) && passes(Contents(plan))
    {
      RunKeeps(s, actions, passes);
      SamePlan(s, actions, passes, i);
      var t := Execute(s, actions, passes).value;
      assert Staged(t.creators[i], t.staging[i], passes);
      if s.final.Some? {
        var j :| PlacedBy(s, j);
        PlacedStays(s, actions, passes, j);
      }
    }
  }

  /** All or nothing: after any steps and deaths of any number of racing creations, the draft is absent or is one
      creation's complete and verified tree, at most one creation has succeeded, and one that failed left nothing. */
  lemma AllOrNothing(plans: seq<seq<StagedFile>>, actions: seq<Action>, passes: Tree -> bool)
    requires forall p :: p in plans ==> p != []
    requires Execute(Initial(plans), actions, passes).Some?
    ensures var t := Execute(Initial(plans), actions, passes).value;
            |t.creators| == |t.staging|
            && (t.final.Some? <==> exists i :: PlacedBy(t, i))
            && (forall i :: PlacedBy(t, i) ==> t.final == Some(Contents(t.creators[i].plan)) && passes(t.final.value))
            && (forall i, j :: PlacedBy(t, i) && PlacedBy(t, j) ==> i == j)
            && (forall i :: 0 <= i < |t.creators| && t.creators[i].Failed? ==> t.staging[i].None?)
  {
    hide Execute, Contents;
    InitialInv(plans, passes);
    RunKeeps(Initial(plans), actions, passes);
    var t := Execute(Initial(plans), actions, passes).value;
    assert t.final.Some? ==> exists i :: PlacedBy(t, i);
    forall i | 0 <= i < |t.creators| && t.creators[i].Failed?
      ensures t.staging[i].None?
    {
      assert Staged(t.creators[i], t.staging[i], passes);
    }
  }

  /** With verify_snapshot as the check, over whatever a staged tree is read as: a draft that is there is one that
      verifies. */
  lemma PlacedDraftVerifies(
    plans: seq<seq<StagedFile>>, actions: seq<Action>, load: Tree -> Snapshot.DraftSnapshot, seals: Snapshot.Seals)
    requires forall p :: p in plans ==> p != []
    requires Execute(Initial(plans), actions, t => Snapshot.SnapshotFailure(load(t), seals).None?).Some?
    ensures var s := Execute(Initial(plans), actions, t => Snapshot.SnapshotFailure(load(t), seals).None?).value;
            s.final.Some? ==>
              Snapshot.SnapshotFailure(load(s.final.value), seals).None?
              && exists i :: PlacedBy(s, i) && s.final == Some(Contents(s.creators[i].plan))
  {
    hide Execute, Contents, Snapshot.SnapshotFailure;
    var passes: Tree -> bool := t => Snapshot.SnapshotFailure(load(t), seals).None?;
    AllOrNothing(plans, actions, passes);
    var s := Execute(Initial(plans), actions, passes).value;
    if s.final.Some? {
      var i :| PlacedBy(s, i);
      assert s.final == Some(Contents(s.creators[i].plan)) && passes(s.final.value);
    }
  }
}
