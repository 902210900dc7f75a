/** Spending a draft on one run: any number of processes, one lock, one file, and a death possible at any step. */
module StartClaim {
  import opened Wrappers

  datatype StartStatus = Claimed | Launched | LaunchFailed

  datatype StartRecord = StartRecord(
    draftId: string, runId: string, status: StartStatus, claimedAt: int, launchedAt: Option<int>, errorCode: Option<string>)

  /** start.json: not there, created but not (wholly) written, or holding a record. */
  datatype StartFile = Absent | Torn | Whole(record: StartRecord)

  datatype Call =
    | ClaimStart(runId: string)
    | MarkLaunched(runId: string, at: int)
    | MarkFailed(runId: string, code: string)

  datatype StartError = Unreadable | NotStarted | OtherRun(claimed: string) | SnapshotInvalid | AlreadyThere | LockHeld

  /** Where one process is in its call. From Entered to Leaving it holds the draft's lock. */
  datatype Process =
    | Idle
    | Waiting(call: Call)
    | Entered(call: Call)
    | Unclaimed(call: Call)
    | Verified(call: Call)
    | Creating(call: Call, record: StartRecord)
    | Updating(call: Call, record: StartRecord)
    | Leaving(call: Call, answer: Result<StartRecord, StartError>)

  /** What a call came back with. */
  datatype Returned = Returned(call: Call, answer: Result<StartRecord, StartError>)

  predicate IsClaim(x: Returned) { x.call.ClaimStart? && x.answer.Ok? }

  /** Everything that has been returned is kept, in order. */
  datatype State = State(file: StartFile, holder: Option<nat>, processes: seq<Process>, returned: seq<Returned>)

  datatype Action =
    | Begin(i: nat, call: Call)
    | Acquire(i: nat)
    | TimeOut(i: nat)
    | Look(i: nat)
    | LoadSnapshot(i: nat, valid: bool)
    | Create(i: nat, now: int)
    | Write(i: nat)
    | Replace(i: nat)
    | Release(i: nat)
    | Die(i: nat)

  predicate Critical(p: Process) { !p.Idle? && !p.Waiting? }

  function Move(s: State, i: nat, p: Process): State
    requires i < |s.processes|
  {
    s.(processes := s.processes[i := p])
  }

  function Return(s: State, call: Call, answer: Result<StartRecord, StartError>): State {
    s.(returned := s.returned + [Returned(call, answer)])
  }

  /** _update_start's new record. */
  function Updated(r: StartRecord, call: Call): StartRecord
    requires !call.ClaimStart?
  {
    match call
    case MarkLaunched(_, at) => StartRecord(r.draftId, r.runId, Launched, r.claimedAt, Some(at), None)
    case MarkFailed(_, code) => StartRecord(r.draftId, r.runId, LaunchFailed, r.claimedAt, r.launchedAt, Some(code))
  }

  /** _read_start_record under the lock, and the branch that follows it. */
  function AfterLook(call: Call, file: StartFile): Process {
    match file
    case Torn => Leaving(call, Err(Unreadable))
    case Absent => if call.ClaimStart? then Unclaimed(call) else Leaving(call, Err(NotStarted))
    case Whole(r) =>
      if call.ClaimStart? then Leaving(call, Ok(r))
      else if r.runId != call.runId then Leaving(call, Err(OtherRun(r.runId)))
      else Updating(call, r)
  }

  /** One step of one process, where it can take it. */
  function Apply(s: State, a: Action, draftId: string): Option<State> {
    if a.i >= |s.processes| then None
    else
      var p := s.processes[a.i];
      match a
      case Begin(i, call) => if p.Idle? then Some(Move(s, i, Waiting(call))) else None
      case Acquire(i) => if p.Waiting? && s.holder.None? then Some(Move(s, i, Entered(p.call)).(holder := Some(i))) else None
      case TimeOut(i) => if p.Waiting? then Some(Return(Move(s, i, Idle), p.call, Err(LockHeld))) else None
      case Look(i) => if p.Entered? then Some(Move(s, i, AfterLook(p.call, s.file))) else None
      case LoadSnapshot(i, valid) =>
        if p.Unclaimed? then Some(Move(s, i, if valid then Verified(p.call) else Leaving(p.call, Err(SnapshotInvalid)))) else None
      case Create(i, now) =>
        if !p.Verified? then None
        else if s.file.Absent?
        then Some(Move(s, i, Creating(p.call, StartRecord(draftId, p.call.runId, Claimed, now, None, None))).(file := Torn))
        else Some(Move(s, i, Leaving(p.call, Err(AlreadyThere))))
      case Write(i) => if p.Creating? then Some(Move(s, i, Leaving(p.call, Ok(p.record))).(file := Whole(p.record))) else None
      case Replace(i) =>
        if p.Updating? && !p.call.ClaimStart?
        then Some(Move(s, i, Leaving(p.call, Ok(Updated(p.record, p.call)))).(file := Whole(Updated(p.record, p.call))))
        else None
      case Release(i) =>
        if p.Leaving? then Some(Return(Move(s, i, Idle).(holder := None), p.call, p.answer)) else None
      case Die(i) => Some(Move(s, i, Idle).(holder := if s.holder == Some(i) then None else s.holder))
  }

  function Execute(s: State, actions: seq<Action>, draftId: string): Option<State>
    decreases |actions|
  {
    if actions == [] then Some(s)
    else match Apply(s, actions[0], draftId)
      case None => None
      case Some(t) => Execute(t, actions[1..], draftId)
  }

  /** Any number of processes, none of them doing anything, and a draft nobody has started. */
  function Initial(n: nat): State { State(Absent, None, seq(n, i => Idle), []) }

  // ---- The invariant --------------------------------------------------------

  /** What never changes about a claim. */
  predicate SameClaim(r: StartRecord, t: StartRecord) {
    r.draftId == t.draftId && r.runId == t.runId && r.claimedAt == t.claimedAt
  }

  predicate Holds(file: StartFile, r: StartRecord) { file.Whole? && SameClaim(file.record, r) }

  /** An answer is about the file as it is when the call gives up the lock. */
  predicate Explains(call: Call, answer: Result<StartRecord, StartError>, file: StartFile) {
    match answer
    case Ok(r) => Holds(file, r)
    case Err(Unreadable) => file.Torn?
    case Err(NotStarted) => !call.ClaimStart? && file.Absent?
    case Err(OtherRun(claimed)) => !call.ClaimStart? && file.Whole? && file.record.runId == claimed && claimed != call.runId
    case Err(SnapshotInvalid) => call.ClaimStart? && file.Absent?
    case Err(AlreadyThere) => false
    case Err(LockHeld) => false
  }

  /** What one process knows about the file from where it stands. */
  predicate Knows(p: Process, file: StartFile) {
    match p
    case Unclaimed(call) => call.ClaimStart? && file.Absent?
    case Verified(call) => call.ClaimStart? && file.Absent?
    case Creating(call, r) => call.ClaimStart? && file.Torn? && r.runId == call.runId
    case Updating(call, r) => !call.ClaimStart? && file == Whole(r) && r.runId == call.runId
    case Leaving(call, answer) => Explains(call, answer, file)
    case _ => true
  }

  predicate Inv(s: State) {
    (s.holder.Some? ==> s.holder.value < |s.processes|)
    && (forall i :: 0 <= i < |s.processes| ==> (Critical(s.processes[i]) <==> s.holder == Some(i)))
    && (forall i :: 0 <= i < |s.processes| ==> Knows(s.processes[i], s.file))
    && forall x :: x in s.returned && IsClaim(x) ==> Holds(s.file, x.answer.value)
  }

  lemma InitialInv(n: nat)
    ensures Inv(Initial(n))
  {
  }

  /** A file that has changed only as a claim may. */
  predicate Grows(f: StartFile, g: StartFile) {
    f == g || (f.Absent? && g.Torn?) || (f.Torn? && g.Whole?)
    || (f.Whole? && g.Whole? && SameClaim(f.record, g.record)
        && (f.record.launchedAt.Some? ==> g.record.launchedAt.Some?))
  }

  /** Every step of every process keeps the invariant, and moves the file only the way a claim may move. */
  lemma StepKeeps(s: State, a: Action, draftId: string)
    requires Inv(s) && Apply(s, a, draftId).Some?
    ensures Inv(Apply(s, a, draftId).value) && Grows(s.file, Apply(s, a, draftId).value.file)
  {
    var t := Apply(s, a, draftId).value;
    var p := s.processes[a.i];
    hide Apply;
    AppliedAt(s, a, draftId);
    forall j | 0 <= j < |t.processes|
      ensures Critical(t.processes[j]) <==> t.holder == Some(j)
      ensures Knows(t.processes[j], t.file)
    {
      if j != a.i {
        assert t.processes[j] == s.processes[j];
        assert Critical(s.processes[j]) ==> s.holder == Some(j);
        assert Critical(p) ==> s.holder == Some(a.i);
      }
    }
  }

  /** Only the acting process moves, and the file changes only in three kinds of step. */
  lemma AppliedAt(s: State, a: Action, draftId: string)
    requires Inv(s) && Apply(s, a, draftId).Some?
    ensures var t, p := Apply(s, a, draftId).value, s.processes[a.i];
            |t.processes| == |s.processes| && a.i < |t.processes|
            && (forall j :: 0 <= j < |t.processes| && j != a.i ==> t.processes[j] == s.processes[j])
            && (t.file != s.file ==> Critical(p) && Critical(t.processes[a.i]))
            && (t.holder == s.holder || s.holder == Some(a.i) || t.holder == Some(a.i))
            && (Critical(t.processes[a.i]) <==> t.holder == Some(a.i))
            && (s.holder.Some? && s.holder != Some(a.i) ==> t.holder == s.holder)
            && Knows(t.processes[a.i], t.file) && Grows(s.file, t.file)
            && (forall x :: x in t.returned && IsClaim(x) ==> Holds(t.file, x.answer.value))
  {
  }

  // ---- Whole runs -----------------------------------------------------------

  /** What any number of steps may do to the file. */
  predicate Evolves(f: StartFile, g: StartFile) {
    f.Absent? || (f.Torn? && !g.Absent?)
    || (f.Whole? && g.Whole? && SameClaim(f.record, g.record) && (f.record.launchedAt.Some? ==> g.record.launchedAt.Some?))
  }

  /** Over every interleaving and every death: the invariant holds, a claim keeps its draft, its run and its time,
      and a launch once recorded stays recorded. */
  lemma {:induction false} RunKeeps(s: State, actions: seq<Action>, draftId: string)
    requires Inv(s) && Execute(s, actions, draftId).Some?
    ensures Inv(Execute(s, actions, draftId).value)
    ensures Evolves(s.file, Execute(s, actions, draftId).value.file)
    decreases |actions|
  {
    hide Apply, Inv;
    if actions != [] {
      StepKeeps(s, actions[0], draftId);
      RunKeeps(Apply(s, actions[0], draftId).value, actions[1..], draftId);
    }
  }

  /** Exactly once: however many processes with whatever run ids, every claim_start that returns names one run. */
  lemma ClaimsAgree(n: nat, actions: seq<Action>, draftId: string)
    requires Execute(Initial(n), actions, draftId).Some?
    ensures var returned := Execute(Initial(n), actions, draftId).value.returned;
            forall x, y :: x in returned && y in returned && IsClaim(x) && IsClaim(y) ==> SameClaim(x.answer.value, y.answer.value)
  {
    hide Execute, Knows;
    InitialInv(n);
    RunKeeps(Initial(n), actions, draftId);
  }

  /** Whatever comes back is true when it does: a call that waited too long says so, and any other answer is about the
      file as the call leaves it. */
  lemma ReturnExplained(s: State, a: Action, draftId: string)
    requires Inv(s) && Apply(s, a, draftId).Some? && Apply(s, a, draftId).value.returned != s.returned
    ensures var t := Apply(s, a, draftId).value;
            |t.returned| == |s.returned| + 1 && t.returned[..|s.returned|] == s.returned && t.file == s.file
            && var last := t.returned[|s.returned|];
               last.call == s.processes[a.i].call
               && if s.processes[a.i].Waiting? then last.answer == Err(LockHeld) else Explains(last.call, last.answer, t.file)
  {
    assert Knows(s.processes[a.i], s.file);
  }

  /** Once a record is there, only a call by the claimed run changes it, and only in what the call reports. */
  lemma OnlyClaimedRunWrites(s: State, a: Action, draftId: string)
    requires Inv(s) && s.file.Whole? && Apply(s, a, draftId).Some? && Apply(s, a, draftId).value.file != s.file
    ensures var p, was, now := s.processes[a.i], s.file.record, Apply(s, a, draftId).value.file;
            p.Updating? && p.call.runId == was.runId && now.Whole? && SameClaim(was, now.record)
            && (p.call.MarkLaunched? ==> now.record.status == Launched && now.record.launchedAt == Some(p.call.at) && now.record.errorCode.None?)
            && (p.call.MarkFailed? ==> now.record.status == LaunchFailed && now.record.launchedAt == was.launchedAt
                                       && now.record.errorCode == Some(p.call.code))
  {
  }

  /** The runs that some call of a run of steps asks to claim for. */
  function Asked(actions: seq<Action>): set<string> {
    set a | a in actions && a.Begin? && a.call.ClaimStart? :: a.call.runId
  }

  /** The times at which start.json was created. */
  function CreatedAt(actions: seq<Action>): set<int> { set a | a in actions && a.Create? :: a.now }

  /** What a claim starts out as. */
  predicate Fresh(r: StartRecord, draftId: string, runs: set<string>, times: set<int>) {
    r.draftId == draftId && r.runId in runs && r.claimedAt in times && r.status == Claimed && r.launchedAt.None? && r.errorCode.None?
  }

  /** Every claim in sight, wherever it has got to, is for this draft, one of these runs and one of these times. */
  predicate For(s: State, draftId: string, runs: set<string>, times: set<int>) {
    (s.file.Whole? ==> s.file.record.draftId == draftId && s.file.record.runId in runs && s.file.record.claimedAt in times)
    && forall i :: 0 <= i < |s.processes| && !s.processes[i].Idle? ==>
         var p := s.processes[i];
         (p.call.ClaimStart? ==> p.call.runId in runs) && (p.Creating? ==> Fresh(p.record, draftId, runs, times))
  }

  lemma StepStaysFor(s: State, a: Action, draftId: string, runs: set<string>, times: set<int>)
    requires Inv(s) && For(s, draftId, runs, times) && Apply(s, a, draftId).Some?
    requires a.Begin? && a.call.ClaimStart? ==> a.call.runId in runs
    requires a.Create? ==> a.now in times
    ensures For(Apply(s, a, draftId).value, draftId, runs, times)
    ensures a.Write? ==> Apply(s, a, draftId).value.file.Whole? && Fresh(Apply(s, a, draftId).value.file.record, draftId, runs, times)
  {
    var t := Apply(s, a, draftId).value;
    var p := s.processes[a.i];
    assert Knows(p, s.file);
    forall j | 0 <= j < |t.processes| && !t.processes[j].Idle?
      ensures t.processes[j].call.ClaimStart? ==> t.processes[j].call.runId in runs
      ensures t.processes[j].Creating? ==> Fresh(t.processes[j].record, draftId, runs, times)
    {
      if j != a.i {
        assert t.processes[j] == s.processes[j];
      }
    }
  }

  lemma {:induction false} RunStaysFor(s: State, actions: seq<Action>, draftId: string, runs: set<string>, times: set<int>)
    requires Inv(s) && For(s, draftId, runs, times) && Execute(s, actions, draftId).Some?
    requires Asked(actions) <= runs && CreatedAt(actions) <= times
    ensures For(Execute(s, actions, draftId).value, draftId, runs, times)
    decreases |actions|
  {
    hide Apply, Inv, For, Fresh;
    if actions != [] {
      assert actions[0] in actions;
      assert Asked(actions[1..]) <= Asked(actions) && CreatedAt(actions[1..]) <= CreatedAt(actions);
      StepKeeps(s, actions[0], draftId);
      StepStaysFor(s, actions[0], draftId, runs, times);
      RunStaysFor(Apply(s, actions[0], draftId).value, actions[1..], draftId, runs, times);
    }
  }

  /** A draft is spent under its own id, on a run that some call asked to start, at the time its file was created. */
  lemma ClaimedRunWasAsked(n: nat, actions: seq<Action>, draftId: string)
    requires Execute(Initial(n), actions, draftId).Some?
    ensures forall x :: x in Execute(Initial(n), actions, draftId).value.returned && IsClaim(x) ==>
              x.answer.value.draftId == draftId && x.answer.value.runId in Asked(actions)
              && x.answer.value.claimedAt in CreatedAt(actions)
  {
    hide Execute, Knows, Asked, CreatedAt;
    InitialInv(n);
    RunKeeps(Initial(n), actions, draftId);
    RunStaysFor(Initial(n), actions, draftId, Asked(actions), CreatedAt(actions));
  }

  /** And every record written for the first time, at any point of any run, is claimed, not launched, and without error. */
  lemma WrittenFresh(n: nat, actions: seq<Action>, a: Action, draftId: string)
    requires Execute(Initial(n), actions, draftId).Some? && a.Write?
    requires Apply(Execute(Initial(n), actions, draftId).value, a, draftId).Some?
    ensures var file := Apply(Execute(Initial(n), actions, draftId).value, a, draftId).value.file;
            file.Whole? && Fresh(file.record, draftId, Asked(actions), CreatedAt(actions))
  {
    hide Execute, Knows, Asked, CreatedAt, Apply, Fresh;
    InitialInv(n);
    RunKeeps(Initial(n), actions, draftId);
    RunStaysFor(Initial(n), actions, draftId, Asked(actions), CreatedAt(actions));
    StepStaysFor(Execute(Initial(n), actions, draftId).value, a, draftId, Asked(actions), CreatedAt(actions));
  }

  // ---- No claim without a snapshot that verified ----------------------------

  predicate NoneVerified(s: State) {
    s.file.Absent? && forall i :: 0 <= i < |s.processes| ==> !s.processes[i].Verified?
  }

  predicate LoadsNothing(actions: seq<Action>) { forall a :: a in actions && a.LoadSnapshot? ==> !a.valid }

  lemma StepVerifiesNothing(s: State, a: Action, draftId: string)
    requires Inv(s) && NoneVerified(s) && Apply(s, a, draftId).Some? && (a.LoadSnapshot? ==> !a.valid)
    ensures NoneVerified(Apply(s, a, draftId).value)
  {
    var t := Apply(s, a, draftId).value;
    assert Knows(s.processes[a.i], s.file);
    forall j | 0 <= j < |t.processes|
      ensures !t.processes[j].Verified?
    {
      assert j != a.i ==> t.processes[j] == s.processes[j];
    }
  }

  lemma {:induction false} RunVerifiesNothing(s: State, actions: seq<Action>, draftId: string)
    requires Inv(s) && NoneVerified(s) && LoadsNothing(actions) && Execute(s, actions, draftId).Some?
    ensures Inv(Execute(s, actions, draftId).value) && NoneVerified(Execute(s, actions, draftId).value)
    decreases |actions|
  {
    hide Apply, Inv, NoneVerified;
    if actions != [] {
      assert actions[0] in actions;
      assert forall a :: a in actions[1..] ==> a in actions;
      StepKeeps(s, actions[0], draftId);
      StepVerifiesNothing(s, actions[0], draftId);
      RunVerifiesNothing(Apply(s, actions[0], draftId).value, actions[1..], draftId);
    }
  }

  /** Where no snapshot ever verifies, nothing is written and no claim is returned, in any run. */
  lemma NoClaimWithoutSnapshot(n: nat, actions: seq<Action>, draftId: string)
    requires Execute(Initial(n), actions, draftId).Some? && LoadsNothing(actions)
    ensures var t := Execute(Initial(n), actions, draftId).value;
            t.file.Absent? && forall x :: x in t.returned ==> !IsClaim(x)
  {
    hide Execute, Knows;
    InitialInv(n);
    RunVerifiesNothing(Initial(n), actions, draftId);
  }

  /** While one process has the lock, whatever the others do, it stays where it is and so does the file. */
  lemma {:induction false} LockedOut(s: State, i: nat, others: seq<Action>, draftId: string)
    requires Inv(s) && i < |s.processes| && Critical(s.processes[i]) && (forall a :: a in others ==> a.i != i)
    requires Execute(s, others, draftId).Some?
    ensures var t := Execute(s, others, draftId).value;
            Inv(t) && t.file == s.file && i < |t.processes| && t.processes[i] == s.processes[i]
    decreases |others|
  {
    hide Apply, Execute, Knows, Critical;
    if others == [] {
      Nothing(s, draftId);
    } else {
      assert Apply(s, others[0], draftId).Some? && others[0] in others by { Opened(s, others, draftId); }
      StepKeeps(s, others[0], draftId);
      AppliedAt(s, others[0], draftId);
      assert forall a :: a in others[1..] ==> a in others;
      Opened(s, others, draftId);
      LockedOut(Apply(s, others[0], draftId).value, i, others[1..], draftId);
    }
  }

  lemma Opened(s: State, actions: seq<Action>, draftId: string)
    requires actions != [] && Execute(s, actions, draftId).Some?
    ensures Apply(s, actions[0], draftId).Some?
    ensures Execute(s, actions, draftId) == Execute(Apply(s, actions[0], draftId).value, actions[1..], draftId)
  {
    hide Apply;
  }

  /** A call whose snapshot does not verify leaves the file alone for as long as it is there, whatever the others do,
      and all it can then do is to come back with that refusal, or die. */
  lemma FailedLoadRefuses(s: State, i: nat, others: seq<Action>, last: Action, draftId: string)
    requires Inv(s) && last.i == i && (forall a :: a in others ==> a.i != i)
    requires Execute(s, [LoadSnapshot(i, false)] + others + [last], draftId).Some?
    ensures var t := Execute(s, [LoadSnapshot(i, false)] + others + [last], draftId).value;
            i < |s.processes| == |t.processes| && t.file == s.file && t.processes[i].Idle? && !s.processes[i].Idle?
            && (last.Die? || (last.Release? && t.returned != []
                              && t.returned[|t.returned| - 1] == Returned(s.processes[i].call, Err(SnapshotInvalid))))
  {
    hide Execute, Inv, Knows;
    var load := LoadSnapshot(i, false);
    ExecuteConcat(s, [load] + others, [last], draftId);
    ExecuteConcat(s, [load], others, draftId);
    ExecuteOne(s, load, draftId);
    StepKeeps(s, load, draftId);
    var t := Apply(s, load, draftId).value;
    LockedOut(t, i, others, draftId);
    var u := Execute(t, others, draftId).value;
    ExecuteOne(u, last, draftId);
    SameNumber(t, others, draftId);
  }

  lemma {:induction false} SameNumber(s: State, actions: seq<Action>, draftId: string)
    requires Execute(s, actions, draftId).Some?
    ensures |Execute(s, actions, draftId).value.processes| == |s.processes|
    decreases |actions|
  {
    if actions != [] {
      SameNumber(Apply(s, actions[0], draftId).value, actions[1..], draftId);
    }
  }

  // ---- A death between creating and writing ---------------------------------

  ghost predicate SomeoneWrites(s: State) { exists i :: 0 <= i < |s.processes| && s.processes[i].Creating? }

  /** A claim that died after creating start.json and before writing it. */
  ghost predicate Stuck(s: State) { s.file.Torn? && !SomeoneWrites(s) }

  predicate NoNewClaim(s: State, t: State) {
    s.returned <= t.returned && forall i :: |s.returned| <= i < |t.returned| ==> !IsClaim(t.returned[i])
  }

  lemma StuckStep(s: State, a: Action, draftId: string)
    requires Inv(s) && Stuck(s) && Apply(s, a, draftId).Some?
    ensures var t := Apply(s, a, draftId).value; Stuck(t) && NoNewClaim(s, t)
  {
    var t, p := Apply(s, a, draftId).value, s.processes[a.i];
    assert !p.Creating?;
    assert Knows(p, s.file);
    assert t.file == s.file && !t.processes[a.i].Creating?;
    forall j | 0 <= j < |t.processes|
      ensures !t.processes[j].Creating?
    {
      assert j != a.i ==> t.processes[j] == s.processes[j];
    }
  }

  /** After that no call ever returns a claim again. */
  lemma {:induction false} StuckForGood(s: State, actions: seq<Action>, draftId: string)
    requires Inv(s) && Stuck(s) && Execute(s, actions, draftId).Some?
    ensures var t := Execute(s, actions, draftId).value; Stuck(t) && NoNewClaim(s, t)
    decreases |actions|
  {
    hide Apply, Inv, Stuck;
    if actions != [] {
      StuckStep(s, actions[0], draftId);
      StepKeeps(s, actions[0], draftId);
      StuckForGood(Apply(s, actions[0], draftId).value, actions[1..], draftId);
    }
  }

  lemma {:induction false} ExecuteConcat(s: State, first: seq<Action>, more: seq<Action>, draftId: string)
    ensures Execute(s, first + more, draftId)
         == match Execute(s, first, draftId) case None => None case Some(t) => Execute(t, more, draftId)
    decreases |first|
  {
    hide Apply;
    if first == [] {
      assert first + more == more;
    } else {
      assert (first + more)[1..] == first[1..] + more;
      if Apply(s, first[0], draftId).Some? {
        ExecuteConcat(Apply(s, first[0], draftId).value, first[1..], more, draftId);
      }
    }
  }

  lemma ExecuteOne(s: State, a: Action, draftId: string)
    ensures Execute(s, [a], draftId) == Apply(s, a, draftId)
  {
    hide Apply;
    assert [a][1..] == [];
    if Apply(s, a, draftId).Some? {
      assert Execute(Apply(s, a, draftId).value, [], draftId) == Apply(s, a, draftId);
    }
  }

  /** A call that can still return: the draft was never claimed, or its record can be read. */
  ghost predicate Returns(s: State, actions: seq<Action>, draftId: string) {
    Execute(s, actions, draftId).Some? && !NoNewClaim(s, Execute(s, actions, draftId).value)
  }

  /** A draft can still be started, or its start returned, exactly when no claim died between creating start.json
      and writing it. */
  lemma StartableExactly(s: State, runId: string, draftId: string)
    requires Inv(s) && s.processes != []
    ensures (exists actions :: Returns(s, actions, draftId)) <==> !Stuck(s)
  {
    hide Inv, Execute, Apply;
    if Stuck(s) {
      forall actions
        ensures !Returns(s, actions, draftId)
      {
        if Execute(s, actions, draftId).Some? {
          StuckForGood(s, actions, draftId);
        }
      }
    } else {
      var first, t := Quiet(s, draftId);
      var more := ClaimNow(t, runId, draftId);
      ExecuteConcat(s, first, more, draftId);
      assert Returns(s, first + more, draftId);
    }
  }

  /** Let a half-way writer finish and whoever holds the lock die, and the first process too. */
  lemma Quiet(s: State, draftId: string) returns (actions: seq<Action>, t: State)
    requires Inv(s) && s.processes != [] && !Stuck(s)
    ensures Execute(s, actions, draftId) == Some(t) && Inv(t) && |t.processes| == |s.processes|
    ensures t.holder.None? && t.processes[0].Idle? && !t.file.Torn? && t.returned == s.returned
  {
    hide Execute;
    if s.file.Torn? {
      var i: nat :| i < |s.processes| && s.processes[i].Creating?;
      ExecuteOne(s, Write(i), draftId);
      StepKeeps(s, Write(i), draftId);
      var u := Apply(s, Write(i), draftId).value;
      var rest;
      rest, t := Settle(u, i, draftId);
      ExecuteConcat(s, [Write(i)], rest, draftId);
      actions := [Write(i)] + rest;
    } else {
      var i := if s.holder.Some? then s.holder.value else 0;
      actions, t := Settle(s, i, draftId);
    }
  }

  lemma Settle(s: State, i: nat, draftId: string) returns (actions: seq<Action>, t: State)
    requires Inv(s) && s.processes != [] && !s.file.Torn? && (s.holder.Some? ==> s.holder == Some(i))
    ensures Execute(s, actions, draftId) == Some(t) && Inv(t) && |t.processes| == |s.processes|
    ensures t.holder.None? && t.processes[0].Idle? && !t.file.Torn? && t.returned == s.returned
  {
    hide Execute;
    actions, t := [], s;
    Nothing(s, draftId);
    if s.holder.Some? {
      ExecuteOne(s, Die(i), draftId);
      StepKeeps(s, Die(i), draftId);
      actions, t := [Die(i)], Apply(s, Die(i), draftId).value;
    }
    StepKeeps(t, Die(0), draftId);
    ExecuteOne(t, Die(0), draftId);
    ExecuteConcat(s, actions, [Die(0)], draftId);
    actions, t := actions + [Die(0)], Apply(t, Die(0), draftId).value;
  }

  lemma Nothing(s: State, draftId: string)
    ensures Execute(s, [], draftId) == Some(s)
  {
  }

  /** What a call that nobody disturbs answers, and the file it leaves. */
  function Undisturbed(file: StartFile, call: Call, valid: bool, now: int, draftId: string)
    : (Result<StartRecord, StartError>, StartFile)
  {
    match call
    case ClaimStart(runId) =>
      (match file
       case Whole(r) => (Ok(r), file)
       case Torn => (Err(Unreadable), file)
       case Absent =>
         if !valid then (Err(SnapshotInvalid), file)
         else
           var r := StartRecord(draftId, runId, Claimed, now, None, None);
           (Ok(r), Whole(r)))
    case MarkLaunched(runId, at) =>
      if file.Absent? then (Err(NotStarted), file)
      else if file.Torn? then (Err(Unreadable), file)
      else if file.record.runId != runId then (Err(OtherRun(file.record.runId)), file)
      else
        var r := file.record.(status := Launched, launchedAt := Some(at), errorCode := None);
        (Ok(r), Whole(r))
    case MarkFailed(runId, code) =>
      if file.Absent? then (Err(NotStarted), file)
      else if file.Torn? then (Err(Unreadable), file)
      else if file.record.runId != runId then (Err(OtherRun(file.record.runId)), file)
      else
        var r := file.record.(status := LaunchFailed, errorCode := Some(code));
        (Ok(r), Whole(r))
  }

  /** The steps of such a call. */
  function StepsOf(file: StartFile, call: Call, i: nat, valid: bool, now: int): seq<Action> {
    [Begin(i, call), Acquire(i), Look(i)]
    + (if call.ClaimStart? && file.Absent? then [LoadSnapshot(i, valid)] + (if valid then [Create(i, now), Write(i)] else [])
       else if !call.ClaimStart? && file.Whole? && file.record.runId == call.runId then [Replace(i)]
       else [])
    + [Release(i)]
  }

  /** A state with one call answered, and nothing else of it left. */
  function ReturnedTo(s: State, call: Call, outcome: (Result<StartRecord, StartError>, StartFile)): State {
    State(outcome.1, None, s.processes, s.returned + [Returned(call, outcome.0)])
  }

  /** One undisturbed call, from beginning to end: what it answers, and that it leaves nothing else behind. */
  lemma UndisturbedCall(s: State, i: nat, call: Call, valid: bool, now: int, draftId: string)
    requires Inv(s) && i < |s.processes| && s.holder.None? && s.processes[i].Idle?
    ensures Execute(s, StepsOf(s.file, call, i, valid, now), draftId)
         == Some(ReturnedTo(s, call, Undisturbed(s.file, call, valid, now, draftId)))
  {
    hide Execute, Undisturbed, AfterLook;
    var opening, s3 := Opening(s, i, call, draftId);
    var middle, s4 := Middle(s3, i, call, valid, now, draftId);
    var last := Take(s4, Release(i), draftId);
    ExecuteConcat(s, opening, middle, draftId);
    ExecuteConcat(s, opening + middle, [Release(i)], draftId);
    assert opening + middle + [Release(i)] == StepsOf(s.file, call, i, valid, now);
    assert last.processes == s.processes;
  }

  lemma Opening(s: State, i: nat, call: Call, draftId: string) returns (actions: seq<Action>, t: State)
    requires i < |s.processes| && s.holder.None? && s.processes[i].Idle?
    ensures actions == [Begin(i, call), Acquire(i), Look(i)] && Execute(s, actions, draftId) == Some(t)
    ensures t == Move(s, i, AfterLook(call, s.file)).(holder := Some(i))
  {
    hide Execute, AfterLook;
    var s1 := Take(s, Begin(i, call), draftId);
    var s2 := Take(s1, Acquire(i), draftId);
    t := Take(s2, Look(i), draftId);
    ExecuteConcat(s, [Begin(i, call)], [Acquire(i)], draftId);
    ExecuteConcat(s, [Begin(i, call)] + [Acquire(i)], [Look(i)], draftId);
    actions := [Begin(i, call)] + [Acquire(i)] + [Look(i)];
  }

  lemma Middle(s: State, i: nat, call: Call, valid: bool, now: int, draftId: string) returns (actions: seq<Action>, t: State)
    requires i < |s.processes| && s.processes[i] == AfterLook(call, s.file)
    ensures var outcome := Undisturbed(s.file, call, valid, now, draftId);
            Execute(s, actions, draftId) == Some(t)
            && t == Move(s, i, Leaving(call, outcome.0)).(file := outcome.1)
    ensures actions
         == if call.ClaimStart? && s.file.Absent? then [LoadSnapshot(i, valid)] + (if valid then [Create(i, now), Write(i)] else [])
            else if !call.ClaimStart? && s.file.Whole? && s.file.record.runId == call.runId then [Replace(i)]
            else []
  {
    hide Execute;
    Nothing(s, draftId);
    actions, t := [], s;
    if call.ClaimStart? && s.file.Absent? {
      var s1 := Take(s, LoadSnapshot(i, valid), draftId);
      actions, t := [LoadSnapshot(i, valid)], s1;
      if valid {
        var s2 := Take(s1, Create(i, now), draftId);
        t := Take(s2, Write(i), draftId);
        ExecuteConcat(s, [LoadSnapshot(i, valid)], [Create(i, now)], draftId);
        ExecuteConcat(s, [LoadSnapshot(i, valid)] + [Create(i, now)], [Write(i)], draftId);
        actions := [LoadSnapshot(i, valid)] + [Create(i, now)] + [Write(i)];
      }
    } else if !call.ClaimStart? && s.file.Whole? && s.file.record.runId == call.runId {
      t := Take(s, Replace(i), draftId);
      actions := [Replace(i)];
    } else {
      assert Move(s, i, s.processes[i]) == s;
    }
  }

  /** One undisturbed claim_start. */
  lemma ClaimNow(s: State, runId: string, draftId: string) returns (actions: seq<Action>)
    requires Inv(s) && s.processes != [] && s.holder.None? && s.processes[0].Idle? && !s.file.Torn?
    ensures Returns(s, actions, draftId)
  {
    hide Execute;
    actions := StepsOf(s.file, ClaimStart(runId), 0, true, 0);
    UndisturbedCall(s, 0, ClaimStart(runId), true, 0, draftId);
    var t := Execute(s, actions, draftId).value;
    assert IsClaim(t.returned[|s.returned|]);
  }

  lemma Take(s: State, a: Action, draftId: string) returns (t: State)
    requires Apply(s, a, draftId).Some?
    ensures Apply(s, a, draftId) == Some(t) && Execute(s, [a], draftId) == Some(t)
  {
    hide Apply;
    t := Apply(s, a, draftId).value;
    ExecuteOne(s, a, draftId);
  }
}
