/** Installing, recovering and removing engines, with a process free to die after every step. */
module Installer {
  import opened Wrappers
  import opened Ordering
  import opened Bundle

  /** How far a directory's build got. */
  datatype Progress = Copying | Copied | Synced | Checked

  datatype Record = Record(digest: string, verified: bool)

  /** An engine directory: its files, how far it was built, and its installed.json. A record that is missing or cannot
      be read is None. */
  datatype EngineDir = EngineDir(files: seq<Named>, progress: Progress, record: Option<Record>)

  /** The engines directory, one entry for each digest. */
  type Dirs = map<string, EngineDir>

  /** uv sync in a copied bundle: the directory it leaves, or a failure. */
  type Sync = seq<Named> -> Option<seq<Named>>

  type ManifestDigest = seq<BundleFile> -> string

  /** What an install finds on the machine: whether the host is one the engine supports, whether an installation that
      is already there still answers, whether the copy goes through, what the sync makes of it, whether the new engine
      answers as it should, and whether the process may die. */
  datatype Host = Host(supported: bool, stillAnswers: bool, copies: bool, sync: Sync, answers: bool, mortal: bool)

  datatype InstallError = UnknownDigest | UnsupportedHost | BuildFailed

  datatype Outcome = Installed(digest: string) | Refused(error: InstallError) | Dead

  datatype VerifyError = NotInstalled | BundleModified(recomputed: string) | EnvironmentWrong

  datatype ActivateError = Absent | NeverVerified

  /** registry.installation: a record that does not name its own directory is no record. */
  predicate Recorded(dirs: Dirs, digest: string) {
    digest in dirs && Names(dirs[digest], digest)
  }

  predicate Names(e: EngineDir, digest: string) { e.record.Some? && e.record.value.digest == digest }

  /** The markers of installs that never published. */
  function Interrupted(dirs: Dirs, markers: set<string>): set<string> {
    set d | d in markers && !Recorded(dirs, d)
  }

  // ---- The invariants -------------------------------------------------------

  /** A directory without a valid record always has its marker beside it. */
  predicate UnfinishedMarked(dirs: Dirs, markers: set<string>) {
    forall d | d in dirs :: Recorded(dirs, d) || d in markers
  }

  /** A directory whose record is valid was fully copied, synced and checked. */
  predicate RecordsEarned(dirs: Dirs) {
    forall d | d in dirs :: Names(dirs[d], d) ==> dirs[d].progress == Checked && dirs[d].record.value.verified
  }

  predicate Sound(dirs: Dirs, markers: set<string>) { UnfinishedMarked(dirs, markers) && RecordsEarned(dirs) }

  /** A directory whose record is valid hashes to its own name. */
  predicate HashesStand(dirs: Dirs, sha: string -> string, digestManifest: ManifestDigest) {
    forall d | d in dirs :: Names(dirs[d], d) ==> HashesTo(dirs[d].files, d, sha, digestManifest)
  }

  predicate HashesTo(files: seq<Named>, digest: string, sha: string -> string, digestManifest: ManifestDigest) {
    WellFormed(files) && BundleDigest(files, sha, digestManifest) == digest
  }

  predicate OnlyRecorded(dirs: Dirs) { forall d | d in dirs :: Recorded(dirs, d) }

  /** What nothing but a command for that very engine may touch: complete installations, and whatever has no marker. */
  predicate Keeps(was: Dirs, markers: set<string>, now: Dirs, except: set<string>) {
    forall d | d in was && (Recorded(was, d) || d !in markers) && d !in except :: d in now && now[d] == was[d]
  }

  // ---- What recovery rests on -----------------------------------------------

  /** Discarding leaves no unfinished directory exactly when every unfinished one was marked. */
  lemma DiscardingCleansExactly(dirs: Dirs, markers: set<string>)
    ensures OnlyRecorded(dirs - Interrupted(dirs, markers)) <==> UnfinishedMarked(dirs, markers)
  {
    var left := dirs - Interrupted(dirs, markers);
    forall d | d in left
      ensures Recorded(left, d) <==> Recorded(dirs, d)
    {
      assert left[d] == dirs[d];
    }
    if OnlyRecorded(left) {
      forall d | d in dirs
        ensures Recorded(dirs, d) || d in markers
      {
        assert d in left || d in Interrupted(dirs, markers);
      }
    }
  }

  /** Tree removal is many steps, and recovery takes it for one. Caught half-way, in any state e of the directory, it
      keeps the invariants exactly when the record is still there over a finished build, or the record is gone and
      there happens to be a marker; and the digest exactly when what is still recorded still hashes to its name. */
  lemma TornRemovalExactly(
    dirs: Dirs, markers: set<string>, d: string, e: EngineDir, sha: string -> string, digestManifest: ManifestDigest)
    requires Sound(dirs, markers) && HashesStand(dirs, sha, digestManifest) && d in dirs
    ensures Sound(dirs[d := e], markers)
       <==> if Names(e, d) then e.progress == Checked && e.record.value.verified else d in markers
    ensures HashesStand(dirs[d := e], sha, digestManifest) <==> (Names(e, d) ==> HashesTo(e.files, d, sha, digestManifest))
  {
    hide HashesTo;
    var torn := dirs[d := e];
    assert forall k :: k in dirs && k != d ==> torn[k] == dirs[k] && (Recorded(torn, k) <==> Recorded(dirs, k));
    if Sound(torn, markers) {
      assert d in torn && (Recorded(torn, d) <==> Names(e, d));
    }
    if HashesStand(torn, sha, digestManifest) {
      assert d in torn;
    }
  }

  // ---- One change of the directory ------------------------------------------

  lemma RemoveDir(dirs: Dirs, markers: set<string>, d: string, sha: string -> string, digestManifest: ManifestDigest)
    ensures Sound(dirs, markers) ==> Sound(dirs - {d}, markers)
    ensures HashesStand(dirs, sha, digestManifest) ==> HashesStand(dirs - {d}, sha, digestManifest)
  {
    hide HashesTo;
  }

  /** Everything but one engine's directory. */
  predicate Aside(dirs: Dirs, d: string, rest: Dirs) { dirs - {d} == rest }

  lemma AddMarker(dirs: Dirs, markers: set<string>, d: string)
    ensures Sound(dirs, markers) ==> Sound(dirs, markers + {d})
  {
  }

  lemma RemoveMarker(dirs: Dirs, markers: set<string>, d: string)
    requires d !in dirs || Recorded(dirs, d)
    ensures Sound(dirs, markers) ==> Sound(dirs, markers - {d})
  {
  }

  lemma PutDir(
    dirs: Dirs, markers: set<string>, d: string, e: EngineDir, sha: string -> string, digestManifest: ManifestDigest)
    requires if Names(e, d) then e.progress == Checked && e.record.value.verified else d in markers
    ensures Sound(dirs, markers) ==> Sound(dirs[d := e], markers)
    ensures HashesStand(dirs, sha, digestManifest) && (Names(e, d) ==> HashesTo(e.files, d, sha, digestManifest)) ==>
              HashesStand(dirs[d := e], sha, digestManifest)
  {
    hide HashesTo;
    var now := dirs[d := e];
    assert forall k :: k in now && k != d ==> (Recorded(now, k) <==> Recorded(dirs, k));
  }

  lemma KeepsItself(dirs: Dirs, markers: set<string>, except: set<string>)
    ensures Keeps(dirs, markers, dirs, except)
  {
  }

  /** One thing after another, each keeping what it does not name. */
  lemma KeepsThrough(
    was: Dirs, markers: set<string>, mid: Dirs, left: set<string>, now: Dirs, named: set<string>, all: set<string>)
    requires Keeps(was, markers, mid, all) && left <= markers + all
    requires Keeps(mid, left, now, named) && named <= all
    ensures Keeps(was, markers, now, all)
  {
    forall d | d in was && (Recorded(was, d) || d !in markers) && d !in all
      ensures d in now && now[d] == was[d]
    {
      assert d in mid && mid[d] == was[d];
      assert Recorded(mid, d) <==> Recorded(was, d);
    }
  }

  // ---- Sets from lists ------------------------------------------------------

  function Elements(xs: seq<string>): set<string> { set x | x in xs }

  lemma ElementsSnoc(xs: seq<string>, i: nat)
    requires i < |xs|
    ensures Elements(xs[..i + 1]) == Elements(xs[..i]) + {xs[i]}
  {
    assert xs[..i + 1] == xs[..i] + [xs[i]];
  }

  lemma AllElements(xs: seq<string>, s: set<string>)
    requires forall x :: x in xs <==> x in s
    ensures Elements(xs[..|xs|]) == s
  {
    assert xs[..|xs|] == xs;
  }

  lemma SameSortedKeys(found: seq<string>, s: set<string>)
    requires forall d :: d in found <==> d in s
    requires forall j, k :: 0 <= j < k < |found| ==> found[j] != found[k] && StrLe(found[j], found[k])
    ensures found == SortedKeys(s)
  {
    var key := (x: string) => x;
    StrictlySortedUnique(found, SortedKeys(s), key);
  }

  // ---- What a build leaves --------------------------------------------------

  /** A sync that adds nothing the bundle digest covers, and changes nothing it covers. */
  ghost predicate SyncsBeside(sync: Sync) {
    forall files :: WellFormed(files) && sync(files).Some? ==> WellFormed(sync(files).value) && Alike(files, sync(files).value)
  }

  /** A copy of the source, synced: whatever the sync made of it. */
  ghost predicate Built(files: seq<Named>, source: seq<Named>, sync: Sync) {
    exists copied :: WellFormed(copied) && CopyOf(copied, source) && sync(copied) == Some(files)
  }

  /** A copy of the source that the sync fails on. */
  ghost predicate SyncFails(source: seq<Named>, sync: Sync) {
    exists copied :: WellFormed(copied) && CopyOf(copied, source) && sync(copied).None?
  }

  /** A finished installation under its own digest, built here from the source. */
  ghost predicate FreshlyBuilt(e: EngineDir, digest: string, source: seq<Named>, host: Host) {
    e.progress == Checked && e.record == Some(Record(digest, true))
    && host.copies && host.answers && Built(e.files, source, host.sync)
  }

  /** How far a directory says it was built is how far it was. */
  ghost predicate Truthful(e: EngineDir, source: seq<Named>, host: Host) {
    (!e.progress.Copying? ==> host.copies)
    && (e.progress.Synced? || e.progress.Checked? ==> Built(e.files, source, host.sync))
    && (e.progress.Checked? ==> host.answers)
  }

  /** Why a build can fail. */
  ghost predicate BuildMayFail(source: seq<Named>, host: Host) {
    !host.copies || !host.answers || SyncFails(source, host.sync)
  }

  lemma BuiltHashes(
    files: seq<Named>, source: seq<Named>, sync: Sync, digest: string, sha: string -> string, digestManifest: ManifestDigest)
    requires WellFormed(source) && digest == BundleDigest(source, sha, digestManifest)
    requires Built(files, source, sync) && SyncsBeside(sync)
    ensures HashesTo(files, digest, sha, digestManifest)
  {
    hide WellFormed, CopyOf, BundleDigest, Alike;
    var copied :| WellFormed(copied) && CopyOf(copied, source) && sync(copied) == Some(files);
    CopyRoundTrip(source, copied, files, sha, digestManifest);
  }

  /** A recorded build hashes to its name exactly when the sync left what the digest covers as it was in the source. */
  lemma BuildHashesExactly(
    files: seq<Named>, source: seq<Named>, digest: string, sha: string -> string, digestManifest: ManifestDigest)
    requires WellFormed(source) && WellFormed(files) && digest == BundleDigest(source, sha, digestManifest)
    requires Injective(sha) && Injective(digestManifest)
    ensures HashesTo(files, digest, sha, digestManifest) <==> SameIncluded(files, source)
  {
    hide WellFormed, BundleDigest, SameIncluded;
    ChangedInstallationIsCaught(source, files, sha, digestManifest);
  }

  /** The engines directory and the settings, at one moment. */
  datatype Moment = Moment(dirs: Dirs, markers: set<string>, active: Option<string>)

  /** What one install answers and does, its request being for this digest. */
  ghost predicate Installs(
    source: seq<Named>, digest: string, requested: Option<string>, host: Host, r: Outcome, was: Moment, now: Moment)
  {
    (r == Refused(UnknownDigest) <==> requested.Some? && requested.value != digest)
    && (r == Refused(UnsupportedHost) <==> (requested.None? || requested.value == digest) && !host.supported)
    && if r == Refused(UnknownDigest) || r == Refused(UnsupportedHost) then now == was else Builds(source, digest, host, r, was, now)
  }

  /** What it does under the lock: what was interrupted goes, an installation that answers stays, and any other is built. */
  ghost predicate Builds(source: seq<Named>, digest: string, host: Host, r: Outcome, was: Moment, now: Moment) {
    var kept := Recorded(was.dirs, digest) && host.stillAnswers;
    now.active == was.active
    && (r.Dead? ==> host.mortal)
    && (r.Installed? ==> r.digest == digest && Recorded(now.dirs, digest)
                         && if kept then digest in was.dirs && now.dirs[digest] == was.dirs[digest]
                            else FreshlyBuilt(now.dirs[digest], digest, source, host))
    && (r.Refused? ==> r.error.BuildFailed? && !kept && BuildMayFail(source, host) && digest !in now.dirs)
    && (!r.Dead? ==> now.markers == {} && now.dirs - {digest} == was.dirs - Interrupted(was.dirs, was.markers) - {digest})
  }

  /** What one command answers and does. */
  ghost predicate Does(c: Command, answer: Answer, was: Moment, now: Moment, sha: string -> string, digestManifest: ManifestDigest) {
    match c
    case InstallEngine(source, requested, host) =>
      answer.InstallAnswer?
      && Installs(source, BundleDigest(source, sha, digestManifest), requested, host, answer.outcome, was, now)
    case UninstallEngine(digest) =>
      answer.UninstallAnswer? && (answer.removed <==> was.active != Some(digest))
      && now == if answer.removed then was.(dirs := was.dirs - {digest}) else was
    case ActivateEngine(digest) =>
      answer.ActivateAnswer?
      && (answer.activated == Err(Absent) <==> !Recorded(was.dirs, digest))
      && (answer.activated.Ok? <==> Recorded(was.dirs, digest) && was.dirs[digest].record.value.verified)
      && now == if answer.activated.Ok? then was.(active := Some(digest)) else was
    case DiscardUnfinished(mortal) =>
      answer.DiscardAnswer? && now.active == was.active && (answer.discarded.None? ==> mortal)
      && (answer.discarded.Some? ==>
            answer.discarded.value == SortedKeys(Interrupted(was.dirs, was.markers))
            && now.dirs == was.dirs - Interrupted(was.dirs, was.markers) && now.markers == {})
  }

  /** Where a process that may die at all may die. */
  method Dies(mortal: bool) returns (dead: bool)
    ensures dead ==> mortal
  {
    dead := false;
    if mortal {
      dead := *;
    }
  }

  datatype Command =
    | InstallEngine(source: seq<Named>, requested: Option<string>, host: Host)
    | UninstallEngine(digest: string)
    | ActivateEngine(digest: string)
    | DiscardUnfinished(mortal: bool)

  datatype Answer =
    | InstallAnswer(outcome: Outcome)
    | UninstallAnswer(removed: bool)
    | ActivateAnswer(activated: Result<(), ActivateError>)
    | DiscardAnswer(discarded: Option<seq<string>>)

  class Engines {
    var dirs: Dirs
    var markers: set<string>
    var active: Option<string>
    const sha: string -> string
    const digestManifest: ManifestDigest

    predicate Valid()
      reads this
    {
      Sound(dirs, markers)
    }

    predicate Standing()
      reads this
    {
      HashesStand(dirs, sha, digestManifest)
    }

    function Now(): Moment
      reads this
    {
      Moment(dirs, markers, active)
    }

    constructor (sha: string -> string, digestManifest: ManifestDigest)
      ensures Valid() && Standing() && dirs == map[] && markers == {} && active == None
      ensures this.sha == sha && this.digestManifest == digestManifest
    {
      dirs := map[];
      markers := {};
      active := None;
      this.sha := sha;
      this.digestManifest := digestManifest;
    }

    /** interrupted_installs, in directory order. */
    method InterruptedInstalls() returns (found: seq<string>)
      ensures found == SortedKeys(Interrupted(dirs, markers))
      ensures forall d :: d in found <==> d in markers && (d !in dirs || dirs[d].record.None? || dirs[d].record.value.digest != d)
      ensures forall i, j :: 0 <= i < j < |found| ==> found[i] != found[j] && StrLe(found[i], found[j])
    {
      var names := SortedKeys(markers);
      found := [];
      for i := 0 to |names|
        invariant forall d :: d in found <==> d in names[..i] && !Recorded(dirs, d)
        invariant forall j, k :: 0 <= j < k < |found| ==> found[j] != found[k] && StrLe(found[j], found[k])
        invariant forall d :: d in found ==> d in names[..i]
      {
        var digest := names[i];
        assert names[..i + 1] == names[..i] + [digest];
        assert forall d :: d in names[..i] ==> d != digest && StrLe(d, digest);
        if !Recorded(dirs, digest) {
          found := found + [digest];
        }
      }
      assert names[..|names|] == names;
      SameSortedKeys(found, Interrupted(dirs, markers));
    }

    /** _stale_markers_of_complete_installs */
    function StaleMarkers(): set<string>
      reads this
    {
      set d | d in markers && Recorded(dirs, d)
    }

    /** discard_interrupted: unfinished directories go before their markers; finished ones lose only the marker. */
    method DiscardInterrupted(mortal: bool) returns (r: Option<seq<string>>)
      modifies `dirs, `markers
      ensures r.None? ==> mortal
      ensures old(Valid()) ==> Valid()
      ensures old(Standing()) ==> Standing()
      ensures Keeps(old(dirs), old(markers), dirs, {}) && dirs.Keys <= old(dirs).Keys && markers <= old(markers)
      ensures r.Some? ==> r.value == SortedKeys(Interrupted(old(dirs), old(markers)))
                          && dirs == old(dirs) - Interrupted(old(dirs), old(markers)) && markers == {}
    {
      hide Sound, HashesStand, Recorded, Interrupted, Keeps, SortedKeys;
      var discarded := InterruptedInstalls();
      KeepsItself(dirs, markers, {});
      for i := 0 to |discarded|
        invariant old(Valid()) ==> Valid()
        invariant old(Standing()) ==> Standing()
        invariant Keeps(old(dirs), old(markers), dirs, {})
        invariant dirs == old(dirs) - Elements(discarded[..i])
        invariant markers == old(markers) - Elements(discarded[..i])
      {
        var digest := discarded[i];
        ElementsSnoc(discarded, i);
        assert digest in discarded;
        InterruptedIsUnfinished(old(dirs), old(markers), digest);
        KeepsWithout(old(dirs), old(markers), dirs, digest);
        RemoveDir(dirs, markers, digest, sha, digestManifest);
        dirs := dirs - {digest};
        var dead := Dies(mortal);
        if dead {
          return None;
        }
        RemoveMarker(dirs, markers, digest);
        markers := markers - {digest};
        dead := Dies(mortal);
        if dead {
          return None;
        }
      }
      AllElements(discarded, Interrupted(old(dirs), old(markers)));
      MarkedAreRecorded(old(dirs), old(markers));
      var stale := SortedKeys(StaleMarkers());
      ghost var kept, left := dirs, markers;
      for i := 0 to |stale|
        invariant (old(Valid()) ==> Valid()) && dirs == kept
        invariant markers == left - Elements(stale[..i])
      {
        assert stale[i] in stale;
        assert Recorded(dirs, stale[i]);
        ElementsSnoc(stale, i);
        RemoveMarker(dirs, markers, stale[i]);
        markers := markers - {stale[i]};
        var dead := Dies(mortal);
        if dead {
          return None;
        }
      }
      AllElements(stale, left);
      r := Some(discarded);
    }

    /** What _install_fresh does when a step of the build fails: the directory goes, then its marker. */
    method Abandon(digest: string, mortal: bool, ghost rest: Dirs) returns (r: Outcome)
      requires Aside(dirs, digest, rest)
      modifies `dirs, `markers
      ensures r.Dead? ==> mortal
      ensures old(Valid()) ==> Valid()
      ensures old(Standing()) ==> Standing()
      ensures Aside(dirs, digest, rest) && digest !in dirs && old(markers) - {digest} <= markers <= old(markers)
      ensures r.Dead? || (r == Refused(BuildFailed) && markers == old(markers) - {digest})
    {
      hide Sound, HashesStand, Recorded;
      RemoveDir(dirs, markers, digest, sha, digestManifest);
      dirs := dirs - {digest};
      var dead := Dies(mortal);
      if dead {
        return Dead;
      }
      RemoveMarker(dirs, markers, digest);
      markers := markers - {digest};
      dead := Dies(mortal);
      if dead {
        return Dead;
      }
      r := Refused(BuildFailed);
    }

    /** copy_engine_bundle into the fresh directory, where the disk takes it. */
    method CopyInto(source: seq<Named>, copies: bool) returns (files: Option<seq<Named>>)
      requires WellFormed(source)
      ensures files.Some? <==> copies
      ensures files.Some? ==> WellFormed(files.value) && CopyOf(files.value, source)
    {
      hide WellFormed, CopyOf;
      if !copies {
        return None;
      }
      var target := new Directory();
      var copied := target.CopyBundle(source, sha);
      files := Some(target.entries);
    }

    /** One state of the directory that is being built, under its marker. */
    method Build(digest: string, files: seq<Named>, progress: Progress, ghost rest: Dirs)
      requires digest in markers && Aside(dirs, digest, rest)
      modifies `dirs
      ensures old(Valid()) ==> Valid()
      ensures old(Standing()) ==> Standing()
      ensures Aside(dirs, digest, rest) && digest in dirs && dirs[digest] == EngineDir(files, progress, None)
    {
      hide Sound, HashesStand;
      PutDir(dirs, markers, digest, EngineDir(files, progress, None), sha, digestManifest);
      dirs := dirs[digest := EngineDir(files, progress, None)];
    }

    /** The steps of the build: copy, sync, check. A failure is cleaned up; a death is not. */
    method BuildAll(source: seq<Named>, digest: string, host: Host, ghost rest: Dirs) returns (r: Option<Outcome>)
      requires digest in markers && WellFormed(source) && Aside(dirs, digest, rest)
      modifies `dirs, `markers
      ensures old(Valid()) ==> Valid()
      ensures old(Standing()) ==> Standing()
      ensures Aside(dirs, digest, rest) && old(markers) - {digest} <= markers <= old(markers)
      ensures digest in dirs ==> Truthful(dirs[digest], source, host)
      ensures r.None? ==> markers == old(markers) && digest in dirs && dirs[digest].progress == Checked
                          && dirs[digest].record.None? && host.copies && host.answers
                          && Built(dirs[digest].files, source, host.sync)
      ensures r.Some? ==> (r.value.Dead? && host.mortal)
                          || (r.value == Refused(BuildFailed) && digest !in dirs && digest !in markers && BuildMayFail(source, host))
    {
      hide Sound, HashesStand, WellFormed, CopyOf, Aside;
      var unfinished: seq<Named> := *;
      Build(digest, unfinished, Copying, rest);
      var dead := Dies(host.mortal);
      if dead {
        return Some(Dead);
      }
      var copied := CopyInto(source, host.copies);
      if copied.None? {
        var failed := Abandon(digest, host.mortal, rest);
        return Some(failed);
      }
      Build(digest, copied.value, Copied, rest);
      dead := Dies(host.mortal);
      if dead {
        return Some(Dead);
      }

      unfinished := *;
      Build(digest, unfinished, Copied, rest);
      dead := Dies(host.mortal);
      if dead {
        return Some(Dead);
      }
      var synced := host.sync(copied.value);
      if synced.None? {
        var failed := Abandon(digest, host.mortal, rest);
        return Some(failed);
      }
      Build(digest, synced.value, Synced, rest);
      dead := Dies(host.mortal);
      if dead {
        return Some(Dead);
      }

      if !host.answers {
        var failed := Abandon(digest, host.mortal, rest);
        return Some(failed);
      }
      Build(digest, synced.value, Checked, rest);
      r := None;
    }

    /** The end of _install_fresh: the record, and only then the marker's removal. */
    method Conclude(source: seq<Named>, digest: string, host: Host, ghost rest: Dirs) returns (r: Outcome)
      requires WellFormed(source) && digest == BundleDigest(source, sha, digestManifest)
      requires Aside(dirs, digest, rest) && digest in dirs && dirs[digest].progress == Checked
      requires host.copies && host.answers && Built(dirs[digest].files, source, host.sync)
      modifies `dirs, `markers
      ensures old(Valid()) ==> Valid()
      ensures old(Standing()) && SyncsBeside(host.sync) ==> Standing()
      ensures Aside(dirs, digest, rest) && old(markers) - {digest} <= markers <= old(markers)
      ensures if r.Dead? then host.mortal else r == Installed(digest) && markers == old(markers) - {digest}
      ensures Recorded(dirs, digest) && FreshlyBuilt(dirs[digest], digest, source, host)
    {
      hide Sound, HashesStand, HashesTo, Recorded, WellFormed, BundleDigest, SyncsBeside, Built;
      var complete := EngineDir(dirs[digest].files, Checked, Some(Record(digest, true)));
      if SyncsBeside(host.sync) {
        BuiltHashes(complete.files, source, host.sync, digest, sha, digestManifest);
      }
      PutDir(dirs, markers, digest, complete, sha, digestManifest);
      dirs := dirs[digest := complete];
      RecordedHere(dirs, digest);
      var dead := Dies(host.mortal);
      if dead {
        return Dead;
      }
      RemoveMarker(dirs, markers, digest);
      markers := markers - {digest};
      dead := Dies(host.mortal);
      r := if dead then Dead else Installed(digest);
    }

    /** _install_fresh: marker, copy, sync, check, record, and the marker's removal. */
    method InstallFresh(source: seq<Named>, digest: string, host: Host) returns (r: Outcome)
      requires WellFormed(source) && digest == BundleDigest(source, sha, digestManifest)
      modifies `dirs, `markers
      ensures old(Valid()) ==> Valid()
      ensures old(Standing()) && SyncsBeside(host.sync) ==> Standing()
      ensures dirs - {digest} == old(dirs) - {digest} && markers <= old(markers) + {digest}
      ensures r.Dead? ==> host.mortal
      ensures r.Installed? ==> r.digest == digest && Recorded(dirs, digest) && FreshlyBuilt(dirs[digest], digest, source, host)
      ensures r.Refused? ==> r.error.BuildFailed? && digest !in dirs && BuildMayFail(source, host)
      ensures digest in dirs ==> Truthful(dirs[digest], source, host)
      ensures !r.Dead? ==> markers == old(markers) - {digest}
    {
      hide Sound, HashesStand, HashesTo, Recorded, WellFormed, BundleDigest, SyncsBeside, Built;
      RemoveDir(dirs, markers, digest, sha, digestManifest);
      dirs := dirs - {digest};
      assert dirs - {digest} == old(dirs) - {digest};
      var dead := Dies(host.mortal);
      if dead {
        return Dead;
      }
      AddMarker(dirs, markers, digest);
      markers := markers + {digest};
      dead := Dies(host.mortal);
      if dead {
        return Dead;
      }
      var failed := BuildAll(source, digest, host, dirs);
      if failed.Some? {
        return failed.value;
      }
      r := Conclude(source, digest, host, dirs - {digest});
    }

    /** install: a request for another engine, or on another host, is refused before anything is touched. Otherwise
        what is left of killed installs goes first; an installation that still answers is kept as it is, and any other
        is built again. Returning at all means no marker is left, and no unfinished directory but what had no marker;
        where the invariants hold, that is none. */
    method Install(source: seq<Named>, requested: Option<string>, host: Host) returns (r: Outcome)
      requires WellFormed(source)
      modifies `dirs, `markers
      ensures old(Valid()) ==> Valid()
      ensures old(Standing()) && SyncsBeside(host.sync) ==> Standing()
      ensures Installs(source, BundleDigest(source, sha, digestManifest), requested, host, r, old(Now()), Now())
      ensures r.Installed? ==> host.supported && (requested.None? || requested.value == r.digest)
      ensures var digest := BundleDigest(source, sha, digestManifest);
              Keeps(old(dirs), old(markers), dirs, {digest}) && dirs.Keys <= old(dirs).Keys + {digest}
              && markers <= old(markers) + {digest}
      ensures old(Valid()) && (r.Installed? || r == Refused(BuildFailed)) ==> OnlyRecorded(dirs)
    {
      hide Sound, HashesStand, Keeps, OnlyRecorded, WellFormed, BundleDigest, SyncsBeside, FreshlyBuilt, BuildMayFail;
      var digest := BundleDigest(source, sha, digestManifest);
      KeepsItself(dirs, markers, {digest});
      if requested.Some? && requested.value != digest {
        return Refused(UnknownDigest);
      }
      if !host.supported {
        return Refused(UnsupportedHost);
      }
      r := InstallLocked(source, digest, host);
    }

    /** The part of install that holds the lock. */
    method InstallLocked(source: seq<Named>, digest: string, host: Host) returns (r: Outcome)
      requires WellFormed(source) && digest == BundleDigest(source, sha, digestManifest)
      modifies `dirs, `markers
      ensures old(Valid()) ==> Valid()
      ensures old(Standing()) && SyncsBeside(host.sync) ==> Standing()
      ensures Builds(source, digest, host, r, old(Now()), Now())
      ensures Keeps(old(dirs), old(markers), dirs, {digest}) && dirs.Keys <= old(dirs).Keys + {digest}
              && markers <= old(markers) + {digest}
      ensures old(Valid()) && !r.Dead? ==> OnlyRecorded(dirs)
    {
      hide Sound, HashesStand, Keeps, Recorded, OnlyRecorded, WellFormed, BundleDigest, SyncsBeside, Interrupted;
      hide FreshlyBuilt, BuildMayFail;
      KeepsItself(dirs, markers, {digest});
      var discarded := DiscardInterrupted(host.mortal);
      ghost var cleaned := dirs;
      KeepsFewer(old(dirs), old(markers), cleaned, {digest});
      if discarded.None? {
        return Dead;
      }
      LeftUnmarked(old(dirs), old(markers));
      StillRecorded(old(dirs), old(markers), digest);
      if Recorded(dirs, digest) {
        if host.stillAnswers {
          RecordedIsThere(dirs, digest);
          FinishedOnly(old(dirs), old(markers), dirs, digest);
          return Installed(digest);
        }
        RemoveDir(dirs, markers, digest, sha, digestManifest);
        dirs := dirs - {digest};
      }
      r := InstallFresh(source, digest, host);
      KeepsAside(old(dirs), old(markers), cleaned, dirs, digest);
      if !r.Dead? {
        RecordedAside(cleaned, dirs, digest);
        FinishedOnly(old(dirs), old(markers), dirs, digest);
      }
    }

    /** verify, with what the environment answers. */
    method Verify(digest: string, answers: bool) returns (r: Result<(), VerifyError>)
      ensures r == Err(NotInstalled)
         <==> digest !in dirs || dirs[digest].record.None? || dirs[digest].record.value.digest != digest
      ensures r != Err(NotInstalled) ==>
                var recomputed := BundleDigest(dirs[digest].files, sha, digestManifest);
                r == if recomputed != digest then Err(BundleModified(recomputed))
                     else if !answers then Err(EnvironmentWrong) else Ok(())
      ensures Standing() && r != Err(NotInstalled) && answers ==> r.Ok?
    {
      hide BundleDigest, WellFormed;
      if !Recorded(dirs, digest) {
        return Err(NotInstalled);
      }
      var recomputed := BundleDigest(dirs[digest].files, sha, digestManifest);
      if recomputed != digest {
        return Err(BundleModified(recomputed));
      }
      r := if answers then Ok(()) else Err(EnvironmentWrong);
    }

    /** uninstall refuses the active engine, and takes nothing but the one it was asked for. */
    method Uninstall(digest: string) returns (ok: bool)
      modifies `dirs
      ensures old(Valid()) ==> Valid()
      ensures old(Standing()) ==> Standing()
      ensures Keeps(old(dirs), markers, dirs, {digest})
      ensures ok <==> old(active) != Some(digest)
      ensures dirs == if ok then old(dirs) - {digest} else old(dirs)
    {
      hide Sound, HashesStand;
      RemoveDir(dirs, markers, digest, sha, digestManifest);
      if active == Some(digest) {
        return false;
      }
      dirs := dirs - {digest};
      ok := true;
    }

    /** set_active takes only an engine that is installed and whose record says it was verified. */
    method SetActive(digest: string) returns (r: Result<(), ActivateError>)
      modifies `active
      ensures r == Err(Absent) <==> digest !in dirs || dirs[digest].record.None? || dirs[digest].record.value.digest != digest
      ensures r != Err(Absent) ==> r == if dirs[digest].record.value.verified then Ok(()) else Err(NeverVerified)
      ensures Valid() && Recorded(dirs, digest) ==> r.Ok?
      ensures active == if r.Ok? then Some(digest) else old(active)
    {
      if !Recorded(dirs, digest) {
        return Err(Absent);
      }
      if !dirs[digest].record.value.verified {
        return Err(NeverVerified);
      }
      active := Some(digest);
      r := Ok(());
    }

    function Named(c: Command): set<string> {
      match c
      case InstallEngine(source, _, _) => {BundleDigest(source, sha, digestManifest)}
      case UninstallEngine(digest) => {digest}
      case _ => {}
    }

    ghost function NamedBy(commands: seq<Command>): set<string> { set c, d | c in commands && d in Named(c) :: d }

    /** Any commands in any order, each free to die: the invariants hold throughout, recorded engines hash to their
        names as long as no sync touches what the digest covers, and whatever no command names is there at the end as
        it was at the start, unless it was unfinished and marked. What was left unfinished without a marker stays so. */
    method RunAll(commands: seq<Command>) returns (answers: seq<Answer>, ghost moments: seq<Moment>)
      requires forall c :: c in commands && c.InstallEngine? ==> WellFormed(c.source)
      modifies this
      ensures old(Valid()) ==> Valid()
      ensures old(Standing()) && (forall c :: c in commands && c.InstallEngine? ==> SyncsBeside(c.host.sync)) ==> Standing()
      ensures |answers| == |commands| == |moments| - 1 && moments[0] == old(Now()) && moments[|commands|] == Now()
      ensures forall i :: 0 <= i < |commands| ==> Does(commands[i], answers[i], moments[i], moments[i + 1], sha, digestManifest)
      ensures Keeps(old(dirs), old(markers), dirs, NamedBy(commands))
      ensures forall d :: d in old(dirs) && !Recorded(old(dirs), d) && d !in old(markers) && d !in NamedBy(commands) ==>
                d in dirs && dirs[d] == old(dirs)[d] && !Recorded(dirs, d) && d !in markers
    {
      hide Sound, HashesStand, Keeps, BundleDigest, SyncsBeside, WellFormed, NamedBy, Named, Does;
      ghost var all := NamedBy(commands);
      KeepsItself(dirs, markers, all);
      answers, moments := [], [Now()];
      for i := 0 to |commands|
        invariant |answers| == i == |moments| - 1 && moments[0] == old(Now()) && moments[i] == Now()
        invariant forall j :: 0 <= j < i ==> Does(commands[j], answers[j], moments[j], moments[j + 1], sha, digestManifest)
        invariant old(Valid()) ==> Valid()
        invariant old(Standing()) && (forall c :: c in commands && c.InstallEngine? ==> SyncsBeside(c.host.sync)) ==> Standing()
        invariant Keeps(old(dirs), old(markers), dirs, all) && markers <= old(markers) + all
      {
        assert commands[i] in commands;
        NamedAmong(commands, commands[i]);
        ghost var mid, left := dirs, markers;
        var answer := RunOne(commands[i]);
        answers, moments := answers + [answer], moments + [Now()];
        KeepsThrough(old(dirs), old(markers), mid, left, dirs, Named(commands[i]), all);
      }
      UnmarkedStays(old(dirs), old(markers), dirs, all);
    }

    lemma NamedAmong(commands: seq<Command>, c: Command)
      requires c in commands
      ensures Named(c) <= NamedBy(commands)
    {
      hide Named;
    }

    method RunOne(c: Command) returns (answer: Answer)
      requires c.InstallEngine? ==> WellFormed(c.source)
      modifies this
      ensures old(Valid()) ==> Valid()
      ensures old(Standing()) && (c.InstallEngine? ==> SyncsBeside(c.host.sync)) ==> Standing()
      ensures Keeps(old(dirs), old(markers), dirs, Named(c)) && markers <= old(markers) + Named(c)
      ensures Does(c, answer, old(Now()), Now(), sha, digestManifest)
    {
      hide Sound, HashesStand, Keeps, BundleDigest, SyncsBeside, WellFormed, FreshlyBuilt, BuildMayFail;
      KeepsItself(dirs, markers, Named(c));
      match c {
        case InstallEngine(source, requested, host) =>
          var outcome := Install(source, requested, host);
          answer := InstallAnswer(outcome);
        case UninstallEngine(digest) =>
          var removed := Uninstall(digest);
          answer := UninstallAnswer(removed);
        case ActivateEngine(digest) =>
          var activated := SetActive(digest);
          answer := ActivateAnswer(activated);
        case DiscardUnfinished(mortal) =>
          var discarded := DiscardInterrupted(mortal);
          answer := DiscardAnswer(discarded);
      }
    }
  }

  // ---- Helpers --------------------------------------------------------------

  lemma InterruptedIsUnfinished(dirs: Dirs, markers: set<string>, d: string)
    requires d in SortedKeys(Interrupted(dirs, markers))
    ensures d in markers && !Recorded(dirs, d)
  {
    hide SortedKeys;
  }

  lemma KeepsWithout(was: Dirs, markers: set<string>, now: Dirs, d: string)
    requires Keeps(was, markers, now, {}) && d in markers && !Recorded(was, d)
    ensures Keeps(was, markers, now - {d}, {})
  {
  }

  /** After discarding, what is still marked is recorded. */
  lemma MarkedAreRecorded(dirs: Dirs, markers: set<string>)
    ensures var left := dirs - Interrupted(dirs, markers);
            forall d :: d in markers - Interrupted(dirs, markers) ==> Recorded(left, d)
  {
  }

  /** After discarding, what is unrecorded had no marker. */
  lemma LeftUnmarked(dirs: Dirs, markers: set<string>)
    ensures var left := dirs - Interrupted(dirs, markers);
            forall d :: d in left && !Recorded(left, d) ==> d in dirs && !Recorded(dirs, d) && d !in markers
    ensures UnfinishedMarked(dirs, markers) ==> OnlyRecorded(dirs - Interrupted(dirs, markers))
  {
    DiscardingCleansExactly(dirs, markers);
  }

  /** Discarding neither makes a record nor loses one. */
  lemma StillRecorded(dirs: Dirs, markers: set<string>, d: string)
    ensures var left := dirs - Interrupted(dirs, markers);
            (Recorded(left, d) <==> Recorded(dirs, d)) && (Recorded(left, d) ==> d in dirs && left[d] == dirs[d])
  {
  }

  lemma KeepsFewer(was: Dirs, markers: set<string>, now: Dirs, except: set<string>)
    requires Keeps(was, markers, now, {})
    ensures Keeps(was, markers, now, except)
  {
  }

  lemma KeepsAside(was: Dirs, markers: set<string>, mid: Dirs, now: Dirs, d: string)
    requires Keeps(was, markers, mid, {d}) && now - {d} == mid - {d}
    ensures Keeps(was, markers, now, {d}) && now.Keys <= mid.Keys + {d}
  {
    forall k | k in now
      ensures k in mid.Keys + {d}
    {
      assert k != d ==> k in now - {d};
    }
    forall k | k in was && (Recorded(was, k) || k !in markers) && k !in {d}
      ensures k in now && now[k] == was[k]
    {
      assert k in mid - {d} && (mid - {d})[k] == mid[k];
      assert (now - {d})[k] == now[k];
    }
  }

  lemma RecordedAside(mid: Dirs, now: Dirs, d: string)
    requires now - {d} == mid - {d}
    ensures forall k :: k in now && k != d ==> k in mid && (Recorded(now, k) <==> Recorded(mid, k))
  {
    forall k | k in now && k != d
      ensures k in mid && now[k] == mid[k]
    {
      assert k in now - {d} && (now - {d})[k] == (mid - {d})[k];
    }
  }

  lemma FinishedOnly(was: Dirs, markers: set<string>, now: Dirs, d: string)
    requires d in now ==> Recorded(now, d)
    requires forall k :: k in now && !Recorded(now, k) && k != d ==> k in was && !Recorded(was, k) && k !in markers
    ensures Sound(was, markers) ==> OnlyRecorded(now)
  {
  }

  lemma RecordedHere(dirs: Dirs, d: string)
    requires d in dirs && Names(dirs[d], d)
    ensures Recorded(dirs, d)
  {
  }

  lemma RecordedIsThere(dirs: Dirs, d: string)
    requires Recorded(dirs, d)
    ensures d in dirs
  {
  }

  lemma UnmarkedStays(was: Dirs, markers: set<string>, now: Dirs, all: set<string>)
    requires Keeps(was, markers, now, all)
    ensures forall d :: d in was && !Recorded(was, d) && d !in markers && d !in all ==>
              d in now && now[d] == was[d] && !Recorded(now, d)
  {
  }
}
