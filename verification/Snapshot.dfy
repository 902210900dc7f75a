/** Verifying a draft offline, and what a draft that verifies is committed to. */
module Snapshot {
  import opened Json
  import opened Wrappers
  import opened Manifests
  import opened Builder
  import opened Compare

  datatype Climb = Climb(campaignDigest: string, rest: Json)

  datatype Receipt = Receipt(evidenceDigest: Option<string>, rest: Json)

  datatype Artifact = Artifact(name: string, rootDigest: string, archiveDigest: string, files: seq<SkillFile>, parent: Option<string>)

  /** An artifact, the archive beside it, and the bytes found at each path under its files directory. */
  datatype StagedSkill = StagedSkill(artifact: Artifact, archive: string, tree: map<string, string>)

  datatype Draft = Draft(
    id: string, campaignDigest: string, programRef: Option<Json>, climbDigest: Option<string>, dataPolicyDigest: string,
    acceptedPolicyDigest: string, outcomeContractDigest: Option<string>, skillArtifact: Artifact,
    baselineDigest: string, candidateDigest: string, includedFiles: seq<string>, rest: Json)

  /** A Climb is there together with the digest it was resolved under, or not at all. */
  datatype ClimbSource = ClimbSource(climb: Climb, digest: string)

  datatype DraftSnapshot = DraftSnapshot(
    draft: Draft, climb: Option<ClimbSource>, campaign: Campaign, dataPolicy: Json, receipt: Receipt, evidence: Json,
    baseline: Manifest, candidate: Manifest, comparison: Comparison, candidateSkill: StagedSkill, baselineSkill: Option<StagedSkill>)

  /** The digest of each kind of object, and what verify_archive finds when it opens an archive: the members the
      artifact lists, in normal form. */
  datatype Seals = Seals(
    climb: Climb -> string, campaign: Campaign -> string, policy: Json -> string, receipt: Receipt -> string, evidence: Json -> string,
    manifest: Manifest -> string, artifact: Artifact -> string, files: seq<SkillFile> -> string, bytes: string -> string,
    archiveListsFiles: (string, Artifact) -> bool)

  datatype Failure =
    | GraphInvalid | CampaignMismatch | PolicyMismatch | ValidationMissing | EvidenceMissing | ManifestMismatch
    | ComparisonInvalid | SkillInvalid | FileInvalid(path: string)

  // ---- One skill ------------------------------------------------------------

  predicate FileStands(file: SkillFile, tree: map<string, string>, seals: Seals) {
    file.path in tree && |tree[file.path]| == file.size && seals.bytes(tree[file.path]) == file.digest
  }

  function FirstBadFile(files: seq<SkillFile>, tree: map<string, string>, seals: Seals): Option<string> {
    if files == [] then None
    else if !FileStands(files[0], tree, seals) then Some(files[0].path)
    else FirstBadFile(files[1..], tree, seals)
  }

  /** verify_archive */
  predicate ArchiveStands(staged: StagedSkill, seals: Seals) {
    seals.bytes(staged.archive) == staged.artifact.archiveDigest && seals.archiveListsFiles(staged.archive, staged.artifact)
  }

  function SkillFailure(staged: StagedSkill, seals: Seals): Option<Failure> {
    if seals.files(staged.artifact.files) != staged.artifact.rootDigest then Some(SkillInvalid)
    else match FirstBadFile(staged.artifact.files, staged.tree, seals)
      case Some(path) => Some(FileInvalid(path))
      case None => if !ArchiveStands(staged, seals) then Some(SkillInvalid) else None
  }

  /** _verify_skill */
  method VerifySkill(staged: StagedSkill, seals: Seals) returns (r: Option<Failure>)
    ensures r == SkillFailure(staged, seals)
    ensures r.None? ==> forall f :: f in staged.artifact.files ==> FileStands(f, staged.tree, seals)
  {
    var files := staged.artifact.files;
    if seals.files(files) != staged.artifact.rootDigest {
      return Some(SkillInvalid);
    }
    assert files[0..] == files;
    for i := 0 to |files|
      invariant FirstBadFile(files, staged.tree, seals) == FirstBadFile(files[i..], staged.tree, seals)
      invariant forall f :: f in files[..i] ==> FileStands(f, staged.tree, seals)
    {
      assert files[i..][1..] == files[i + 1..];
      assert files[..i + 1] == files[..i] + [files[i]];
      if !FileStands(files[i], staged.tree, seals) {
        return Some(FileInvalid(files[i].path));
      }
    }
    assert files[..|files|] == files;
    if !ArchiveStands(staged, seals) {
      return Some(SkillInvalid);
    }
    return None;
  }

  lemma {:induction false} NoBadFile(files: seq<SkillFile>, tree: map<string, string>, seals: Seals)
    ensures FirstBadFile(files, tree, seals).None? <==> forall f :: f in files ==> FileStands(f, tree, seals)
  {
    if files != [] {
      NoBadFile(files[1..], tree, seals);
      assert forall f :: f in files <==> f == files[0] || f in files[1..];
    }
  }

  // ---- The whole draft ------------------------------------------------------

  /** taskset.validation_receipt_digest */
  function ReceiptDigest(c: Campaign): Option<string> {
    if c.taskset.Obj? && "validation_receipt_digest" in c.taskset.members && c.taskset.members["validation_receipt_digest"].Str?
    then Some(c.taskset.members["validation_receipt_digest"].s) else None
  }

  /** _verify_public_context */
  function PublicContextFailure(s: DraftSnapshot, seals: Seals): Option<Failure> {
    if s.climb.None? then if s.draft.climbDigest.Some? then Some(GraphInvalid) else None
    else if s.draft.climbDigest.None? then Some(GraphInvalid)
    else
      var digest := seals.climb(s.climb.value.climb);
      if digest != s.draft.climbDigest.value || digest != s.climb.value.digest then Some(GraphInvalid)
      else if seals.campaign(s.campaign) != s.climb.value.climb.campaignDigest then Some(CampaignMismatch)
      else None
  }

  function DeclaredBaselineSkill(m: Manifest): Option<ArtifactRef> {
    if SUBJECT in m.configuration.agents && m.configuration.agents[SUBJECT].harness.skills != []
    then Some(m.configuration.agents[SUBJECT].harness.skills[0]) else None
  }

  /** _verify_baseline_skill */
  function BaselineSkillFailure(s: DraftSnapshot, seals: Seals): Option<Failure> {
    var declared := DeclaredBaselineSkill(s.baseline);
    if declared.None? then if s.baselineSkill.Some? then Some(SkillInvalid) else None
    else if s.baselineSkill.None? then Some(SkillInvalid)
    else match SkillFailure(s.baselineSkill.value, seals)
      case Some(f) => Some(f)
      case None => if s.baselineSkill.value.artifact.rootDigest != declared.value.digest then Some(SkillInvalid) else None
  }

  /** _verify_manifests */
  function ManifestsFailure(s: DraftSnapshot, seals: Seals): Option<Failure> {
    if seals.manifest(s.baseline) != s.draft.baselineDigest || seals.manifest(s.candidate) != s.draft.candidateDigest
    then Some(ManifestMismatch)
    else if s.comparison.baselineDigest != s.baseline.configurationDigest
         || s.comparison.candidateDigest != s.candidate.configurationDigest || !s.comparison.controlled
    then Some(ComparisonInvalid)
    else None
  }

  function Paths(files: seq<SkillFile>): seq<string> { seq(|files|, i requires 0 <= i < |files| => files[i].path) }

  /** verify_snapshot; None when everything stands. */
  function SnapshotFailure(s: DraftSnapshot, seals: Seals): Option<Failure> {
    var draft := s.draft;
    var context := PublicContextFailure(s, seals);
    if context.Some? then context
    else if seals.campaign(s.campaign) != draft.campaignDigest then Some(CampaignMismatch)
    else if seals.policy(s.dataPolicy) != s.campaign.dataPolicyDigest then Some(PolicyMismatch)
    else if seals.policy(s.dataPolicy) != draft.dataPolicyDigest then Some(PolicyMismatch)
    else if draft.acceptedPolicyDigest != seals.policy(s.dataPolicy) then Some(PolicyMismatch)
    else if ReceiptDigest(s.campaign) != Some(seals.receipt(s.receipt)) then Some(ValidationMissing)
    else if s.receipt.evidenceDigest != Some(seals.evidence(s.evidence)) then Some(EvidenceMissing)
    else if draft.outcomeContractDigest != s.campaign.outcomeContractDigest then Some(GraphInvalid)
    else if draft.programRef != s.campaign.programRef then Some(GraphInvalid)
    else
      var manifests := ManifestsFailure(s, seals);
      if manifests.Some? then manifests
      else
        var skill := SkillFailure(s.candidateSkill, seals);
        if skill.Some? then skill
        else if draft.includedFiles != Paths(s.candidateSkill.artifact.files) then Some(SkillInvalid)
        else if seals.artifact(draft.skillArtifact) != seals.artifact(s.candidateSkill.artifact) then Some(SkillInvalid)
        else BaselineSkillFailure(s, seals)
  }

  // ---- Every check, in the order they are made ------------------------------

  function FileChecks(files: seq<SkillFile>, tree: map<string, string>, seals: Seals): seq<Check<Failure>> {
    seq(|files|, i requires 0 <= i < |files| =>
      Check(files[i].path in tree && |tree[files[i].path]| == files[i].size && seals.bytes(tree[files[i].path]) == files[i].digest,
            FileInvalid(files[i].path)))
  }

  function SkillChecks(k: StagedSkill, seals: Seals): seq<Check<Failure>> {
    [Check(seals.files(k.artifact.files) == k.artifact.rootDigest, SkillInvalid)]
    + FileChecks(k.artifact.files, k.tree, seals)
    + [Check(seals.bytes(k.archive) == k.artifact.archiveDigest, SkillInvalid),
       Check(seals.archiveListsFiles(k.archive, k.artifact), SkillInvalid)]
  }

  function ContextChecks(s: DraftSnapshot, seals: Seals): seq<Check<Failure>> {
    var climb, named := s.climb, s.draft.climbDigest;
    [Check(climb.Some? <==> named.Some?, GraphInvalid),
     Check(climb.Some? && named.Some? ==> seals.climb(climb.value.climb) == named.value, GraphInvalid),
     Check(climb.Some? ==> seals.climb(climb.value.climb) == climb.value.digest, GraphInvalid),
     Check(climb.Some? ==> seals.campaign(s.campaign) == climb.value.climb.campaignDigest, CampaignMismatch)]
  }

  function DigestChecks(s: DraftSnapshot, seals: Seals): seq<Check<Failure>> {
    var policy, taskset := seals.policy(s.dataPolicy), s.campaign.taskset;
    [Check(seals.campaign(s.campaign) == s.draft.campaignDigest, CampaignMismatch),
     Check(policy == s.campaign.dataPolicyDigest, PolicyMismatch),
     Check(policy == s.draft.dataPolicyDigest, PolicyMismatch),
     Check(policy == s.draft.acceptedPolicyDigest, PolicyMismatch),
     Check(taskset.Obj? && "validation_receipt_digest" in taskset.members
           && taskset.members["validation_receipt_digest"] == Str(seals.receipt(s.receipt)), ValidationMissing),
     Check(s.receipt.evidenceDigest.Some? && s.receipt.evidenceDigest.value == seals.evidence(s.evidence), EvidenceMissing),
     Check(s.draft.outcomeContractDigest == s.campaign.outcomeContractDigest, GraphInvalid),
     Check(s.draft.programRef == s.campaign.programRef, GraphInvalid)]
  }

  function ManifestChecks(s: DraftSnapshot, seals: Seals): seq<Check<Failure>> {
    [Check(seals.manifest(s.baseline) == s.draft.baselineDigest, ManifestMismatch),
     Check(seals.manifest(s.candidate) == s.draft.candidateDigest, ManifestMismatch),
     Check(s.comparison.baselineDigest == s.baseline.configurationDigest, ComparisonInvalid),
     Check(s.comparison.candidateDigest == s.candidate.configurationDigest, ComparisonInvalid),
     Check(s.comparison.controlled, ComparisonInvalid)]
  }

  function ArtifactChecks(s: DraftSnapshot, seals: Seals): seq<Check<Failure>> {
    var files := s.candidateSkill.artifact.files;
    [Check(|s.draft.includedFiles| == |files| && forall i | 0 <= i < |files| :: s.draft.includedFiles[i] == files[i].path, SkillInvalid),
     Check(seals.artifact(s.draft.skillArtifact) == seals.artifact(s.candidateSkill.artifact), SkillInvalid)]
  }

  /** The baseline's skill is there exactly when its manifest lists one for the subject, and is that one. */
  function BaselineSkillChecks(s: DraftSnapshot, seals: Seals): seq<Check<Failure>> {
    var agents := s.baseline.configuration.agents;
    var lists := "subject" in agents && |agents["subject"].harness.skills| > 0;
    [Check(s.baselineSkill.Some? <==> lists, SkillInvalid)]
    + if s.baselineSkill.Some? && lists
      then SkillChecks(s.baselineSkill.value, seals)
           + [Check(s.baselineSkill.value.artifact.rootDigest == agents["subject"].harness.skills[0].digest, SkillInvalid)]
      else []
  }

  function Checks(s: DraftSnapshot, seals: Seals): seq<Check<Failure>> {
    ContextChecks(s, seals) + DigestChecks(s, seals) + ManifestChecks(s, seals) + SkillChecks(s.candidateSkill, seals)
    + ArtifactChecks(s, seals) + BaselineSkillChecks(s, seals)
  }

  lemma {:induction false} FilesReported(files: seq<SkillFile>, tree: map<string, string>, seals: Seals)
    ensures var bad := FirstBadFile(files, tree, seals);
            Reports(FileChecks(files, tree, seals), if bad.None? then None else Some(FileInvalid(bad.value)))
  {
    if files != [] {
      FilesReported(files[1..], tree, seals);
      var first := FileChecks(files, tree, seals)[..1];
      assert FileChecks(files, tree, seals) == first + FileChecks(files[1..], tree, seals);
      var bad := FirstBadFile(files, tree, seals);
      assert first[0].holds <==> FileStands(files[0], tree, seals);
      ReportsConcat(first, FileChecks(files[1..], tree, seals), if bad.None? then None else Some(FileInvalid(bad.value)));
    }
  }

  lemma SkillReported(k: StagedSkill, seals: Seals)
    ensures Reports(SkillChecks(k, seals), SkillFailure(k, seals))
  {
    var files, failure := FileChecks(k.artifact.files, k.tree, seals), SkillFailure(k, seals);
    FilesReported(k.artifact.files, k.tree, seals);
    hide FileChecks, FirstBadFile;
    var opening := [Check(seals.files(k.artifact.files) == k.artifact.rootDigest, SkillInvalid)];
    var archive := [Check(seals.bytes(k.archive) == k.artifact.archiveDigest, SkillInvalid),
                    Check(seals.archiveListsFiles(k.archive, k.artifact), SkillInvalid)];
    assert !opening[0].holds ==> Reports(opening, failure);
    assert opening[0].holds && Reports(files, None) ==> Reports(archive, failure) by {
      assert archive[0].holds && archive[1].holds <==> ArchiveStands(k, seals);
    }
    ReportsConcat(files, archive, failure);
    ReportsConcat(opening, files + archive, failure);
    assert opening + files + archive == opening + (files + archive);
    assert SkillChecks(k, seals) == opening + files + archive;
  }

  lemma ContextReported(s: DraftSnapshot, seals: Seals)
    ensures Reports(ContextChecks(s, seals), PublicContextFailure(s, seals))
  {
    var c := ContextChecks(s, seals);
    assert !c[0].holds || !c[1].holds || !c[2].holds || !c[3].holds || PublicContextFailure(s, seals).None?;
  }

  /** Where the Climb's checks hold, the digests' are next. */
  lemma DigestsReported(s: DraftSnapshot, seals: Seals)
    requires PublicContextFailure(s, seals).None?
    ensures Reports(DigestChecks(s, seals), None) || Reports(DigestChecks(s, seals), SnapshotFailure(s, seals))
    ensures Reports(DigestChecks(s, seals), None) ==> SnapshotFailure(s, seals) == AfterDigests(s, seals)
  {
    hide PublicContextFailure, ManifestsFailure, SkillFailure, BaselineSkillFailure, Paths;
    var c := DigestChecks(s, seals);
    assert c[4].holds <==> ReceiptDigest(s.campaign) == Some(seals.receipt(s.receipt));
    assert c[0].holds && c[1].holds && c[2].holds && c[3].holds && c[4].holds && c[5].holds && c[6].holds && c[7].holds
      <==> Reports(c, None);
  }

  function AfterDigests(s: DraftSnapshot, seals: Seals): Option<Failure> {
    if ManifestsFailure(s, seals).Some? then ManifestsFailure(s, seals)
    else if SkillFailure(s.candidateSkill, seals).Some? then SkillFailure(s.candidateSkill, seals)
    else AfterSkill(s, seals)
  }

  function AfterSkill(s: DraftSnapshot, seals: Seals): Option<Failure> {
    if s.draft.includedFiles != Paths(s.candidateSkill.artifact.files) then Some(SkillInvalid)
    else if seals.artifact(s.draft.skillArtifact) != seals.artifact(s.candidateSkill.artifact) then Some(SkillInvalid)
    else BaselineSkillFailure(s, seals)
  }

  lemma ManifestsReported(s: DraftSnapshot, seals: Seals)
    ensures Reports(ManifestChecks(s, seals), ManifestsFailure(s, seals))
  {
    var c := ManifestChecks(s, seals);
    assert !c[0].holds || !c[1].holds || !c[2].holds || !c[3].holds || !c[4].holds || ManifestsFailure(s, seals).None?;
  }

  lemma AfterSkillReported(s: DraftSnapshot, seals: Seals)
    ensures Reports(ArtifactChecks(s, seals) + BaselineSkillChecks(s, seals), AfterSkill(s, seals))
  {
    var c, failure := ArtifactChecks(s, seals), AfterSkill(s, seals);
    BaselineSkillReported(s, seals);
    assert c[0].holds <==> s.draft.includedFiles == Paths(s.candidateSkill.artifact.files);
    hide Paths, BaselineSkillChecks, BaselineSkillFailure;
    assert !(c[0].holds && c[1].holds) ==> Reports(c, failure);
    ReportsConcat(c, BaselineSkillChecks(s, seals), failure);
  }

  lemma BaselineSkillReported(s: DraftSnapshot, seals: Seals)
    ensures Reports(BaselineSkillChecks(s, seals), BaselineSkillFailure(s, seals))
  {
    hide SkillChecks, SkillFailure;
    var declared, failure := DeclaredBaselineSkill(s.baseline), BaselineSkillFailure(s, seals);
    var opening := BaselineSkillChecks(s, seals)[..1];
    assert opening[0].holds <==> (s.baselineSkill.Some? <==> declared.Some?);
    if s.baselineSkill.Some? && declared.Some? {
      var k := s.baselineSkill.value;
      var last := [Check(k.artifact.rootDigest == declared.value.digest, SkillInvalid)];
      SkillReported(k, seals);
      assert SkillFailure(k, seals).None? ==> failure == if last[0].holds then None else Some(SkillInvalid);
      ReportsConcat(SkillChecks(k, seals), last, failure);
      ReportsConcat(opening, SkillChecks(k, seals) + last, failure);
      assert BaselineSkillChecks(s, seals) == opening + (SkillChecks(k, seals) + last);
    } else {
      assert BaselineSkillChecks(s, seals) == opening;
    }
  }

  function LaterChecks(s: DraftSnapshot, seals: Seals): seq<Check<Failure>> {
    ManifestChecks(s, seals)
    + (SkillChecks(s.candidateSkill, seals) + (ArtifactChecks(s, seals) + BaselineSkillChecks(s, seals)))
  }

  lemma LaterReported(s: DraftSnapshot, seals: Seals)
    ensures Reports(LaterChecks(s, seals), AfterDigests(s, seals))
  {
    ManifestsReported(s, seals);
    SkillReported(s.candidateSkill, seals);
    AfterSkillReported(s, seals);
    hide ManifestChecks, SkillChecks, ArtifactChecks, BaselineSkillChecks, Reports, ManifestsFailure, SkillFailure, AfterSkill;
    var skill, rest := SkillChecks(s.candidateSkill, seals), ArtifactChecks(s, seals) + BaselineSkillChecks(s, seals);
    var failure := SkillFailure(s.candidateSkill, seals);
    ReportsThen(skill, failure, rest, if failure.Some? then failure else AfterSkill(s, seals));
    ReportsThen(ManifestChecks(s, seals), ManifestsFailure(s, seals), skill + rest, AfterDigests(s, seals));
  }

  lemma SameChecks(s: DraftSnapshot, seals: Seals)
    ensures Checks(s, seals) == ContextChecks(s, seals) + (DigestChecks(s, seals) + LaterChecks(s, seals))
  {
    hide ContextChecks, DigestChecks, ManifestChecks, SkillChecks, ArtifactChecks, BaselineSkillChecks;
  }

  /** A draft verifies exactly when every one of the checks holds, and what is reported otherwise is the first that
      does not. */
  lemma FirstFailureReported(s: DraftSnapshot, seals: Seals)
    ensures Reports(Checks(s, seals), SnapshotFailure(s, seals))
  {
    var context, failure := PublicContextFailure(s, seals), SnapshotFailure(s, seals);
    assert context.Some? ==> failure == context;
    ContextReported(s, seals);
    LaterReported(s, seals);
    SameChecks(s, seals);
    if context.None? {
      DigestsReported(s, seals);
      hide SnapshotFailure, PublicContextFailure, ContextChecks, DigestChecks, LaterChecks, Checks, AfterDigests, Reports;
      ReportsConcat(DigestChecks(s, seals), LaterChecks(s, seals), failure);
      assert Reports(DigestChecks(s, seals), failure) && failure.Some? ==> Reports(DigestChecks(s, seals) + LaterChecks(s, seals), failure);
    }
    hide SnapshotFailure, PublicContextFailure, ContextChecks, DigestChecks, LaterChecks, Checks, AfterDigests, Reports;
    ReportsThen(ContextChecks(s, seals), context, DigestChecks(s, seals) + LaterChecks(s, seals), failure);
  }

  // ---- What a verified draft is committed to --------------------------------

  /** No two objects of one kind share a digest. */
  ghost predicate CollisionFree(seals: Seals) {
    Injective(seals.climb) && Injective(seals.campaign) && Injective(seals.policy) && Injective(seals.receipt)
    && Injective(seals.evidence) && Injective(seals.manifest) && Injective(seals.artifact) && Injective(seals.files)
    && Injective(seals.bytes)
  }

  /** The same listed files with the same bytes in each. */
  ghost predicate SameTree(a: StagedSkill, b: StagedSkill) {
    a.artifact.files == b.artifact.files
    && forall f :: f in a.artifact.files ==> f.path in a.tree && f.path in b.tree && a.tree[f.path] == b.tree[f.path]
  }

  lemma SkillCommits(a: StagedSkill, b: StagedSkill, seals: Seals)
    requires CollisionFree(seals) && SkillFailure(a, seals).None? && SkillFailure(b, seals).None?
    requires a.artifact.rootDigest == b.artifact.rootDigest
    ensures SameTree(a, b)
    ensures a.artifact.archiveDigest == b.artifact.archiveDigest <==> a.archive == b.archive
  {
    NoBadFile(a.artifact.files, a.tree, seals);
    NoBadFile(b.artifact.files, b.tree, seals);
    assert seals.files(a.artifact.files) == seals.files(b.artifact.files);
    forall f | f in a.artifact.files
      ensures f.path in a.tree && f.path in b.tree && a.tree[f.path] == b.tree[f.path]
    {
      assert FileStands(f, a.tree, seals) && FileStands(f, b.tree, seals);
    }
  }

  /** What verification says of each part, with the order of the checks forgotten. */
  lemma Parts(s: DraftSnapshot, seals: Seals)
    requires SnapshotFailure(s, seals).None?
    ensures PublicContextFailure(s, seals).None? && ManifestsFailure(s, seals).None? && BaselineSkillFailure(s, seals).None?
    ensures SkillFailure(s.candidateSkill, seals).None?
    ensures seals.campaign(s.campaign) == s.draft.campaignDigest && seals.policy(s.dataPolicy) == s.draft.dataPolicyDigest
    ensures ReceiptDigest(s.campaign) == Some(seals.receipt(s.receipt)) && s.receipt.evidenceDigest == Some(seals.evidence(s.evidence))
    ensures seals.artifact(s.draft.skillArtifact) == seals.artifact(s.candidateSkill.artifact)
  {
    hide PublicContextFailure, ManifestsFailure, BaselineSkillFailure, SkillFailure, ReceiptDigest, Paths;
  }

  /** Commitment: one draft document, and everything in the draft but the stored comparison's findings is settled. */
  lemma DraftCommits(s: DraftSnapshot, t: DraftSnapshot, seals: Seals)
    requires CollisionFree(seals) && SnapshotFailure(s, seals).None? && SnapshotFailure(t, seals).None? && s.draft == t.draft
    ensures s.climb == t.climb && s.campaign == t.campaign && s.dataPolicy == t.dataPolicy
    ensures s.receipt == t.receipt && s.evidence == t.evidence
    ensures s.baseline == t.baseline && s.candidate == t.candidate
    ensures s.candidateSkill.artifact == t.candidateSkill.artifact == s.draft.skillArtifact
    ensures SameTree(s.candidateSkill, t.candidateSkill) && s.candidateSkill.archive == t.candidateSkill.archive
    ensures s.baselineSkill.Some? == t.baselineSkill.Some?
    ensures s.baselineSkill.Some? ==> SameTree(s.baselineSkill.value, t.baselineSkill.value)
    ensures s.comparison.baselineDigest == t.comparison.baselineDigest && s.comparison.candidateDigest == t.comparison.candidateDigest
            && s.comparison.controlled && t.comparison.controlled
  {
    Parts(s, seals);
    Parts(t, seals);
    hide SnapshotFailure, SkillFailure, ReceiptDigest;
    assert s.campaign == t.campaign && s.dataPolicy == t.dataPolicy;
    assert seals.receipt(s.receipt) == seals.receipt(t.receipt);
    assert seals.evidence(s.evidence) == seals.evidence(t.evidence);
    assert s.baseline == t.baseline && s.candidate == t.candidate;
    SkillCommits(s.candidateSkill, t.candidateSkill, seals);
    if s.baselineSkill.Some? {
      SkillCommits(s.baselineSkill.value, t.baselineSkill.value, seals);
    }
  }

  /** The parts of a verified draft describe each other: one Campaign, one DataPolicy, one Climb or none, the files and
      the program the draft states, and the skill its baseline manifest declares. */
  lemma PartsDescribeEachOther(s: DraftSnapshot, seals: Seals)
    requires CollisionFree(seals) && SnapshotFailure(s, seals).None?
    ensures s.draft.dataPolicyDigest == s.campaign.dataPolicyDigest == s.draft.acceptedPolicyDigest
    ensures s.draft.outcomeContractDigest == s.campaign.outcomeContractDigest && s.draft.programRef == s.campaign.programRef
    ensures s.draft.climbDigest.Some? <==> s.climb.Some?
    ensures s.climb.Some? ==> s.climb.value.climb.campaignDigest == s.draft.campaignDigest && s.draft.climbDigest == Some(s.climb.value.digest)
    ensures s.draft.includedFiles == Paths(s.draft.skillArtifact.files)
    ensures s.baselineSkill.Some? <==> DeclaredBaselineSkill(s.baseline).Some?
    ensures s.baselineSkill.Some? ==> s.baselineSkill.value.artifact.rootDigest == DeclaredBaselineSkill(s.baseline).value.digest
    ensures s.baselineSkill.Some? ==> SkillFailure(s.baselineSkill.value, seals).None?
  {
    Parts(s, seals);
    hide SkillFailure, ReceiptDigest, Paths, DeclaredBaselineSkill;
    assert s.draft.skillArtifact == s.candidateSkill.artifact;
  }

  /** How far the stored comparison is pinned: another one passes in its place exactly when it names the same two
      configurations and calls the pair controlled. */
  lemma ComparisonPinnedExactly(s: DraftSnapshot, c: Comparison, seals: Seals)
    requires SnapshotFailure(s, seals).None?
    ensures SnapshotFailure(s.(comparison := c), seals).None?
       <==> c.baselineDigest == s.comparison.baselineDigest && c.candidateDigest == s.comparison.candidateDigest && c.controlled
  {
    hide SkillFailure, ReceiptDigest, Paths;
  }

  /** How far a skill's directory is pinned: files the artifact does not list are never looked at. */
  lemma UnlistedFilesPass(staged: StagedSkill, path: string, bytes: string, seals: Seals)
    requires path !in Paths(staged.artifact.files)
    ensures SkillFailure(staged.(tree := staged.tree[path := bytes]), seals) == SkillFailure(staged, seals)
  {
    UnlistedFileIgnored(staged.artifact.files, staged.tree, path, bytes, seals);
  }

  lemma {:induction false} UnlistedFileIgnored(files: seq<SkillFile>, tree: map<string, string>, path: string, bytes: string, seals: Seals)
    requires path !in Paths(files)
    ensures FirstBadFile(files, tree[path := bytes], seals) == FirstBadFile(files, tree, seals)
  {
    if files != [] {
      assert Paths(files)[0] == files[0].path;
      assert forall i :: 0 <= i < |files[1..]| ==> Paths(files[1..])[i] == Paths(files)[i + 1];
      UnlistedFileIgnored(files[1..], tree, path, bytes, seals);
    }
  }

  // ---- The candidate skill and the reference to it --------------------------

  /** The same draft, restated around another candidate skill. */
  function WithSkill(s: DraftSnapshot, k: StagedSkill): DraftSnapshot {
    s.(candidateSkill := k, draft := s.draft.(skillArtifact := k.artifact, includedFiles := Paths(k.artifact.files)))
  }

  /** The same draft, restated around another candidate manifest. */
  function WithCandidate(s: DraftSnapshot, m: Manifest, seals: Seals): DraftSnapshot {
    s.(candidate := m, draft := s.draft.(candidateDigest := seals.manifest(m)))
  }

  /** The skill that the candidate manifest references, if it references one. */
  function Referenced(m: Manifest): Option<string> {
    var skill := DeclaredBaselineSkill(m);
    if skill.Some? then Some(skill.value.digest) else None
  }

  /** Whatever skill stands on its own takes the candidate's place, whether or not the candidate manifest
      references it. */
  lemma AnySkillTakesItsPlace(s: DraftSnapshot, k: StagedSkill, seals: Seals)
    requires SnapshotFailure(s, seals).None?
    ensures SnapshotFailure(WithSkill(s, k), seals).None? <==> SkillFailure(k, seals).None?
    ensures WithSkill(s, k).candidate == s.candidate
  {
    hide SkillFailure, ReceiptDigest, Paths;
  }

  /** And a manifest takes the candidate's place exactly when it has the configuration digest the comparison names,
      whatever skill it references. */
  lemma CandidateReferenceUnchecked(s: DraftSnapshot, m: Manifest, seals: Seals)
    requires SnapshotFailure(s, seals).None?
    ensures SnapshotFailure(WithCandidate(s, m, seals), seals).None? <==> m.configurationDigest == s.candidate.configurationDigest
    ensures WithCandidate(s, m, seals).candidateSkill == s.candidateSkill
  {
    hide SkillFailure, ReceiptDigest, Paths;
  }

  /** So with any standing skill but the referenced one, the skill and the reference disagree and the draft verifies. */
  lemma SkillAndReferenceMayDisagree(s: DraftSnapshot, k: StagedSkill, seals: Seals)
    requires SnapshotFailure(s, seals).None? && SkillFailure(k, seals).None?
    requires Referenced(s.candidate) != Some(k.artifact.rootDigest)
    ensures var t := WithSkill(s, k);
            SnapshotFailure(t, seals).None? && Referenced(t.candidate) != Some(t.candidateSkill.artifact.rootDigest)
  {
    AnySkillTakesItsPlace(s, k, seals);
  }

  // ---- Such a draft ---------------------------------------------------------

  /** Digests that tell apart everything the draft below holds. */
  function SomeSeals(): Seals {
    Seals(
      c => "climb", c => "campaign", p => "policy", r => "receipt", e => "evidence",
      (m: Manifest) => if m.variant.Baseline? then "baseline" else "candidate", (a: Artifact) => a.rootDigest,
      (fs: seq<SkillFile>) => if fs == [] then "no files" else fs[0].digest, b => b, (archive, artifact) => true)
  }

  function SomeCampaign(): Campaign {
    Campaign(
      Null, None, None, Obj(map["validation_receipt_digest" := Str("receipt")]), Null,
      map[SUBJECT := Agent(Null, Null, Harness("harness", "1", false, []), Null, false)],
      MutationContract(SkillInsertion, SUBJECT, [SKILL_ROOT], 0, 1), Null, Null, Null, Null, Null, "policy")
  }

  function SomeManifest(variant: Variant, skills: seq<ArtifactRef>): Manifest {
    var c := BuildExperimentConfiguration(SomeCampaign());
    Manifest(
      "experiment", "campaign", None, None, variant,
      c.(agents := c.agents[SUBJECT := WithSkills(c.agents[SUBJECT], skills)]),
      if variant.Baseline? then "baseline configuration" else "candidate configuration", 0)
  }

  function SomeSkill(content: string): StagedSkill {
    StagedSkill(
      Artifact("skill", content, "archive", [SkillFile("SKILL.md", "text/markdown", |content|, content)], None),
      "archive", map["SKILL.md" := content])
  }

  /** The candidate manifest references the skill it is given, and the draft carries another. */
  function SomeDraft(referenced: string, carried: string): DraftSnapshot {
    var skill := SomeSkill(carried);
    DraftSnapshot(
      Draft("draft", "campaign", None, None, "policy", "policy", None, skill.artifact, "baseline", "candidate", ["SKILL.md"], Null),
      None, SomeCampaign(), Null, Receipt(Some("evidence"), Null), Null, SomeManifest(Baseline, []),
      SomeManifest(Candidate, [ArtifactRef(referenced, SKILL_MEDIA_TYPE, |referenced|, None)]),
      Comparison("baseline configuration", "candidate configuration", [], [SKILL_ROOT], true, []), skill, None)
  }

  /** A draft of a valid Campaign whose two manifests are valid, match the Campaign and make a controlled pair, and
      whose skill is not the one its candidate manifest references: it verifies. */
  lemma DisagreeingDraft()
    ensures var s := SomeDraft("one", "other");
            SnapshotFailure(s, SomeSeals()).None?
            && Referenced(s.candidate) == Some("one") && s.candidateSkill.artifact.rootDigest == "other"
    ensures var s := SomeDraft("one", "other");
            ValidCampaign(s.campaign) && ValidManifest(s.baseline) && ValidManifest(s.candidate)
            && AssertManifestMatchesCampaign(s.baseline, s.campaign, "campaign").None?
            && AssertManifestMatchesCampaign(s.candidate, s.campaign, "campaign").None?
            && Controlled(s.baseline, s.candidate, s.campaign.mutation)
  {
    DisagreeingDraftVerifies();
    DisagreeingDraftMatches();
    hide Controlled, AssertManifestMatchesCampaign, SnapshotFailure;
    var s := SomeDraft("one", "other");
    AcceptedPairControlled(s.baseline, s.candidate, s.campaign, "campaign");
  }

  lemma DisagreeingDraftVerifies()
    ensures SnapshotFailure(SomeDraft("one", "other"), SomeSeals()).None?
  {
    var s := SomeDraft("one", "other");
    SomeSkillStands("other");
    assert Paths(s.candidateSkill.artifact.files) == ["SKILL.md"];
    hide SkillFailure;
  }

  lemma SomeSkillStands(content: string)
    ensures SkillFailure(SomeSkill(content), SomeSeals()).None?
  {
    var k, seals := SomeSkill(content), SomeSeals();
    var files := k.artifact.files;
    assert FileStands(files[0], k.tree, seals);
    NoBadFile(files, k.tree, seals);
  }

  lemma DisagreeingDraftMatches()
    ensures var s := SomeDraft("one", "other");
            ValidCampaign(s.campaign) && ValidManifest(s.baseline) && ValidManifest(s.candidate)
            && AssertManifestMatchesCampaign(s.baseline, s.campaign, "campaign").None?
            && AssertManifestMatchesCampaign(s.candidate, s.campaign, "campaign").None?
  {
    SomeManifestMatches(Baseline, []);
    SomeManifestMatches(Candidate, [ArtifactRef("one", SKILL_MEDIA_TYPE, |"one"|, None)]);
    hide AssertManifestMatchesCampaign;
  }

  lemma SomeManifestMatches(variant: Variant, skills: seq<ArtifactRef>)
    ensures AssertManifestMatchesCampaign(SomeManifest(variant, skills), SomeCampaign(), "campaign").None?
    ensures ValidCampaign(SomeCampaign())
  {
    var m, c := SomeManifest(variant, skills), SomeCampaign();
    MatchesExactly(m, c, "campaign");
    assert WithCampaignSkills(m.configuration, c).agents == c.agents;
    hide AssertManifestMatchesCampaign;
  }
}
