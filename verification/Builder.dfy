/** Deriving the baseline and the candidate from a Campaign, and checking a manifest against its Campaign. */
module Builder {
  import opened Json
  import opened Wrappers
  import opened Manifests
  import opened DiffProperties
  import opened Compare

  datatype SkillFile = SkillFile(path: string, mediaType: string, size: nat, digest: string)

  datatype Skill = Skill(files: seq<SkillFile>, rootDigest: string)

  /** The digests taken of canonical bytes, and the display identifier made from one of them. */
  datatype Digests = Digests(
    campaign: Campaign -> string, configuration: Configuration -> string, skill: seq<SkillFile> -> string,
    identifier: string -> string)

  datatype CampaignField =
    | CampaignDigest | Program | Outcome | DataPolicy | Backend | Taskset | Environment | Mutation | Execution
    | Scoring | Evidence | Budgets

  datatype BuildError =
    | NoTarget
    | NotABaseline
    | EmptySkill
    | WrongSkillDigest
    | SameSkill
    | OneSkillNotPermitted
    | WrongCampaignDigest
    | InvalidManifest
    | FieldDiffers(field: CampaignField)
    | AgentNamesDiffer
    | AgentDiffers

  const SKILL_MEDIA_TYPE: string := "application/vnd.techtree.instruction-skill.v1"

  // ---- Construction ---------------------------------------------------------

  function BuildExperimentConfiguration(campaign: Campaign): Configuration {
    Configuration(
      campaign.taskset, campaign.environment, campaign.agents, campaign.mutation, campaign.backend,
      campaign.execution, campaign.scoring, campaign.evidence, campaign.budgets,
      campaign.dataPolicyDigest, campaign.outcomeContractDigest)
  }

  /** _require_campaign_baseline */
  function RequireCampaignBaseline(configuration: Configuration, campaign: Campaign): Result<Agent, BuildError> {
    var target := campaign.mutation.targetAgent;
    if target !in configuration.agents then Err(NoTarget)
    else if !BaselineSkillCount(campaign.mutation.kind, configuration.agents[target].harness.skills) then Err(NotABaseline)
    else Ok(configuration.agents[target])
  }

  function TotalSize(files: seq<SkillFile>): nat {
    if files == [] then 0 else files[0].size + TotalSize(files[1..])
  }

  function BuildSkillReference(skill: Skill, d: Digests): Result<ArtifactRef, BuildError> {
    if TotalSize(skill.files) <= 0 then Err(EmptySkill)
    else if d.skill(skill.files) != skill.rootDigest then Err(WrongSkillDigest)
    else Ok(ArtifactRef(skill.rootDigest, SKILL_MEDIA_TYPE, TotalSize(skill.files), None))
  }

  function BuildBaselineManifest(
    campaign: Campaign, campaignDigest: string, publicContext: Option<string>, createdAt: int,
    manifestId: Option<string>, d: Digests): Result<Manifest, BuildError>
  {
    var configuration := BuildExperimentConfiguration(campaign);
    match RequireCampaignBaseline(configuration, campaign)
    case Err(e) => Err(e)
    case Ok(_) => FinalizeManifest(campaign, campaignDigest, publicContext, Baseline, configuration, createdAt, manifestId, d)
  }

  function BuildCandidateManifest(
    campaign: Campaign, campaignDigest: string, skill: Skill, publicContext: Option<string>, createdAt: int,
    manifestId: Option<string>, d: Digests): Result<Manifest, BuildError>
  {
    var configuration := BuildExperimentConfiguration(campaign);
    match RequireCampaignBaseline(configuration, campaign)
    case Err(e) => Err(e)
    case Ok(subject) =>
      match BuildSkillReference(skill, d)
      case Err(e) => Err(e)
      case Ok(reference) =>
        var mutation := campaign.mutation;
        if mutation.kind.SkillReplacement? && subject.harness.skills[0].digest == reference.digest then Err(SameSkill)
        else if !(mutation.minimumSkills <= 1 <= mutation.maximumSkills) then Err(OneSkillNotPermitted)
        else
          var withSkill := Agent(
            subject.model, subject.sampling,
            Harness(subject.harness.id, subject.harness.version, subject.harness.useBundledSkill, [reference]),
            subject.runtime, subject.trainable);
          FinalizeManifest(
            campaign, campaignDigest, publicContext, Candidate,
            configuration.(agents := configuration.agents[mutation.targetAgent := withSkill]), createdAt, manifestId, d)
  }

  function FinalizeManifest(
    campaign: Campaign, campaignDigest: string, publicContext: Option<string>, variant: Variant,
    configuration: Configuration, createdAt: int, manifestId: Option<string>, d: Digests): Result<Manifest, BuildError>
  {
    if d.campaign(campaign) != campaignDigest then Err(WrongCampaignDigest)
    else
      var configurationDigest := d.configuration(configuration);
      var id := if manifestId.Some? && manifestId.value != "" then manifestId.value else d.identifier(configurationDigest);
      var manifest := Manifest(
        id, campaignDigest, campaign.programRef, publicContext, variant, configuration, configurationDigest, createdAt);
      if !ValidManifest(manifest) then Err(InvalidManifest)
      else match AssertManifestMatchesCampaign(manifest, campaign, campaignDigest)
        case Some(e) => Err(e)
        case None => Ok(manifest)
  }

  // ---- The check ------------------------------------------------------------

  /** The fields compared one for one, in the order they are compared. */
  function FirstDifferentField(m: Manifest, campaign: Campaign, campaignDigest: string): Option<CampaignField> {
    var c := m.configuration;
    if campaignDigest != m.campaignDigest then Some(CampaignDigest)
    else if campaign.programRef != m.programRef then Some(Program)
    else if campaign.outcomeContractDigest != c.outcomeContractDigest then Some(Outcome)
    else if campaign.dataPolicyDigest != c.dataPolicyDigest then Some(DataPolicy)
    else if campaign.backend != c.backend then Some(Backend)
    else if campaign.taskset != c.taskset then Some(Taskset)
    else if campaign.environment != c.environment then Some(Environment)
    else if campaign.mutation != c.mutation then Some(Mutation)
    else if campaign.execution != c.execution then Some(Execution)
    else if campaign.scoring != c.scoring then Some(Scoring)
    else if campaign.evidence != c.evidence then Some(Evidence)
    else if campaign.budgets != c.budgets then Some(Budgets)
    else None
  }

  /** One agent against the Campaign's, with the target's skill list set aside. */
  predicate AgentMatches(name: string, agent: Agent, expected: Agent, target: string) {
    (if name == target then WithSkills(agent, expected.harness.skills) else agent) == expected
  }

  /** None when the manifest is the Campaign it claims to be. */
  function AssertManifestMatchesCampaign(m: Manifest, campaign: Campaign, campaignDigest: string): Option<BuildError> {
    match FirstDifferentField(m, campaign, campaignDigest)
    case Some(field) => Some(FieldDiffers(field))
    case None =>
      var agents := m.configuration.agents;
      if agents.Keys != campaign.agents.Keys then Some(AgentNamesDiffer)
      else if forall name | name in agents :: AgentMatches(name, agents[name], campaign.agents[name], campaign.mutation.targetAgent)
      then None
      else Some(AgentDiffers)
  }

  // ---- What the check accepts -----------------------------------------------

  /** The configuration with the target's skill list put back to the Campaign's. */
  function WithCampaignSkills(c: Configuration, campaign: Campaign): Configuration {
    var target := campaign.mutation.targetAgent;
    if target in c.agents && target in campaign.agents
    then c.(agents := c.agents[target := WithSkills(c.agents[target], campaign.agents[target].harness.skills)])
    else c
  }

  /** The check accepts exactly the manifests that equal the Campaign outside the target's skill list. */
  lemma MatchesExactly(m: Manifest, campaign: Campaign, campaignDigest: string)
    ensures AssertManifestMatchesCampaign(m, campaign, campaignDigest).None?
       <==> m.campaignDigest == campaignDigest && m.programRef == campaign.programRef
            && WithCampaignSkills(m.configuration, campaign) == BuildExperimentConfiguration(campaign)
  {
    var target := campaign.mutation.targetAgent;
    var was := m.configuration.agents;
    var now := WithCampaignSkills(m.configuration, campaign).agents;
    assert now.Keys == was.Keys;
    if was.Keys == campaign.agents.Keys {
      assert forall name | name in was ::
          now[name] == (if name == target then WithSkills(was[name], campaign.agents[name].harness.skills) else was[name]);
      assert now == campaign.agents <==> forall name | name in was :: now[name] == campaign.agents[name];
    }
  }

  function OpeningChecks(m: Manifest, campaign: Campaign, campaignDigest: string): seq<Check<BuildError>> {
    var c := m.configuration;
    [Check(m.campaignDigest == campaignDigest, FieldDiffers(CampaignDigest)),
     Check(m.programRef == campaign.programRef, FieldDiffers(Program)),
     Check(c.outcomeContractDigest == campaign.outcomeContractDigest, FieldDiffers(Outcome)),
     Check(c.dataPolicyDigest == campaign.dataPolicyDigest, FieldDiffers(DataPolicy)),
     Check(c.backend == campaign.backend, FieldDiffers(Backend)),
     Check(c.taskset == campaign.taskset, FieldDiffers(Taskset))]
  }

  function PlanChecks(c: Configuration, campaign: Campaign): seq<Check<BuildError>> {
    [Check(c.environment == campaign.environment, FieldDiffers(Environment)),
     Check(c.mutation == campaign.mutation, FieldDiffers(Mutation)),
     Check(c.execution == campaign.execution, FieldDiffers(Execution)),
     Check(c.scoring == campaign.scoring, FieldDiffers(Scoring)),
     Check(c.evidence == campaign.evidence, FieldDiffers(Evidence)),
     Check(c.budgets == campaign.budgets, FieldDiffers(Budgets))]
  }

  function AgentChecks(c: Configuration, campaign: Campaign): seq<Check<BuildError>> {
    [Check(c.agents.Keys == campaign.agents.Keys, AgentNamesDiffer),
     Check(WithCampaignSkills(c, campaign).agents == campaign.agents, AgentDiffers)]
  }

  /** The check's comparisons, one by one, in the order they are made. */
  function MatchChecks(m: Manifest, campaign: Campaign, campaignDigest: string): seq<Check<BuildError>> {
    OpeningChecks(m, campaign, campaignDigest) + (PlanChecks(m.configuration, campaign) + AgentChecks(m.configuration, campaign))
  }

  /** What is reported of a manifest that is not its Campaign's is the first thing that differs. */
  lemma FirstDifferenceReported(m: Manifest, campaign: Campaign, campaignDigest: string)
    ensures Reports(MatchChecks(m, campaign, campaignDigest), AssertManifestMatchesCampaign(m, campaign, campaignDigest))
  {
    var found := AssertManifestMatchesCampaign(m, campaign, campaignDigest);
    var opening := OpeningChecks(m, campaign, campaignDigest);
    var plan, agents := PlanChecks(m.configuration, campaign), AgentChecks(m.configuration, campaign);
    OpeningReported(m, campaign, campaignDigest);
    if Reports(opening, None) {
      PlanReported(m, campaign, campaignDigest);
      if Reports(plan, None) {
        AgentsReported(m, campaign, campaignDigest);
      }
    }
    hide OpeningChecks, PlanChecks, AgentChecks, FirstDifferentField, AssertManifestMatchesCampaign, Reports;
    if Reports(opening, None) {
      ReportsThen(plan, if Reports(plan, None) then None else found, agents, found);
    }
    ReportsThen(opening, if Reports(opening, None) then None else found, plan + agents, found);
  }

  lemma OpeningReported(m: Manifest, campaign: Campaign, campaignDigest: string)
    ensures Reports(OpeningChecks(m, campaign, campaignDigest), None)
            || Reports(OpeningChecks(m, campaign, campaignDigest), AssertManifestMatchesCampaign(m, campaign, campaignDigest))
  {
    var rows := OpeningChecks(m, campaign, campaignDigest);
    assert rows[0].holds && rows[1].holds && rows[2].holds && rows[3].holds && rows[4].holds && rows[5].holds <==> Reports(rows, None);
  }

  lemma PlanReported(m: Manifest, campaign: Campaign, campaignDigest: string)
    requires Reports(OpeningChecks(m, campaign, campaignDigest), None)
    ensures Reports(PlanChecks(m.configuration, campaign), None)
            || Reports(PlanChecks(m.configuration, campaign), AssertManifestMatchesCampaign(m, campaign, campaignDigest))
  {
    var first, rows := OpeningChecks(m, campaign, campaignDigest), PlanChecks(m.configuration, campaign);
    assert first[0].holds && first[1].holds && first[2].holds && first[3].holds && first[4].holds && first[5].holds;
    assert rows[0].holds && rows[1].holds && rows[2].holds && rows[3].holds && rows[4].holds && rows[5].holds <==> Reports(rows, None);
  }

  lemma AgentsReported(m: Manifest, campaign: Campaign, campaignDigest: string)
    requires Reports(OpeningChecks(m, campaign, campaignDigest), None) && Reports(PlanChecks(m.configuration, campaign), None)
    ensures Reports(AgentChecks(m.configuration, campaign), AssertManifestMatchesCampaign(m, campaign, campaignDigest))
  {
    var first := OpeningChecks(m, campaign, campaignDigest);
    var next, rows := PlanChecks(m.configuration, campaign), AgentChecks(m.configuration, campaign);
    assert first[0].holds && first[1].holds && first[2].holds && first[3].holds && first[4].holds && first[5].holds;
    assert next[0].holds && next[1].holds && next[2].holds && next[3].holds && next[4].holds && next[5].holds;
    assert FirstDifferentField(m, campaign, campaignDigest).None?;
    hide FirstDifferentField, WithCampaignSkills;
    if rows[0].holds {
      AgentsMatchExactly(m.configuration, campaign);
    }
    assert AssertManifestMatchesCampaign(m, campaign, campaignDigest).None? <==> rows[0].holds && rows[1].holds;
  }

  lemma AgentsMatchExactly(c: Configuration, campaign: Campaign)
    requires c.agents.Keys == campaign.agents.Keys
    ensures WithCampaignSkills(c, campaign).agents == campaign.agents
       <==> forall name | name in c.agents :: AgentMatches(name, c.agents[name], campaign.agents[name], campaign.mutation.targetAgent)
  {
    var now := WithCampaignSkills(c, campaign).agents;
    assert now.Keys == c.agents.Keys;
    assert now == campaign.agents <==> forall name | name in now :: now[name] == campaign.agents[name];
  }

  /** The digest, the name and the time a finished manifest carries: its own name where one was given, and otherwise
      the one its configuration digest implies. */
  predicate Labelled(m: Manifest, createdAt: int, id: Option<string>, d: Digests) {
    m.configurationDigest == d.configuration(m.configuration) && m.createdAt == createdAt
    && m.id == if id.Some? && id.value != "" then id.value else d.identifier(m.configurationDigest)
  }

  // ---- When the builders succeed --------------------------------------------

  /** A valid Campaign always yields its baseline, under its own digest and under no other. */
  lemma BaselineBuilt(
    campaign: Campaign, campaignDigest: string, publicContext: Option<string>, createdAt: int, id: Option<string>, d: Digests)
    requires ValidCampaign(campaign)
    ensures var r := BuildBaselineManifest(campaign, campaignDigest, publicContext, createdAt, id, d);
            (r.Ok? <==> d.campaign(campaign) == campaignDigest)
            && (r.Ok? ==> r.value.variant == Baseline && r.value.publicContext == publicContext && ValidManifest(r.value)
                          && AssertManifestMatchesCampaign(r.value, campaign, campaignDigest).None?
                          && r.value.configuration == BuildExperimentConfiguration(campaign)
                          && Labelled(r.value, createdAt, id, d))
  {
    assert forall name | name in campaign.agents ::
        AgentMatches(name, campaign.agents[name], campaign.agents[name], campaign.mutation.targetAgent);
  }

  lemma {:induction false} TotalSizeSplits(a: seq<SkillFile>, b: seq<SkillFile>)
    ensures TotalSize(a + b) == TotalSize(a) + TotalSize(b)
  {
    if a == [] {
      assert a + b == b;
    } else {
      assert (a + b)[1..] == a[1..] + b;
      TotalSizeSplits(a[1..], b);
    }
  }

  /** The size a reference states is the sum of the sizes of the files, whatever their order. */
  lemma TotalSizeAdds(a: seq<SkillFile>, f: SkillFile, b: seq<SkillFile>)
    ensures TotalSize([]) == 0 && TotalSize(a + [f] + b) == f.size + TotalSize(a + b)
  {
    TotalSizeSplits(a, [f]);
    TotalSizeSplits(a + [f], b);
    TotalSizeSplits(a, b);
    assert TotalSize([f]) == f.size + TotalSize([f][1..]);
  }

  /** What has to hold before either manifest can be built, in the order it is looked at. */
  function BaselineChecks(campaign: Campaign): seq<Check<BuildError>> {
    var target := campaign.mutation.targetAgent;
    [Check(target in campaign.agents, NoTarget),
     Check(target in campaign.agents ==>
             |campaign.agents[target].harness.skills| == (if campaign.mutation.kind.SkillReplacement? then 1 else 0), NotABaseline)]
  }

  /** And what has to hold of the skill. */
  function SkillChecks(campaign: Campaign, skill: Skill, d: Digests): seq<Check<BuildError>> {
    var target := campaign.mutation.targetAgent;
    [Check(exists i | 0 <= i < |skill.files| :: skill.files[i].size > 0, EmptySkill),
     Check(d.skill(skill.files) == skill.rootDigest, WrongSkillDigest),
     Check(campaign.mutation.kind.SkillReplacement? && target in campaign.agents && |campaign.agents[target].harness.skills| == 1 ==>
             campaign.agents[target].harness.skills[0].digest != skill.rootDigest, SameSkill),
     Check(campaign.mutation.minimumSkills <= 1 && campaign.mutation.maximumSkills >= 1, OneSkillNotPermitted)]
  }

  /** What is looked at last: the digest the manifest is to carry, and the number of the subject's skills. */
  function FinalChecks(campaign: Campaign, campaignDigest: string, variant: Variant, d: Digests): seq<Check<BuildError>> {
    var target := campaign.mutation.targetAgent;
    [Check(d.campaign(campaign) == campaignDigest, WrongCampaignDigest),
     Check("subject" in campaign.agents
           && |campaign.agents["subject"].harness.skills|
              == (if variant.Baseline? && campaign.mutation.kind.SkillInsertion? then 0
                  else if variant.Candidate? && target == "subject" then |campaign.agents["subject"].harness.skills| else 1),
           InvalidManifest)]
  }

  function ErrorOf<T>(r: Result<T, BuildError>): Option<BuildError> { if r.Err? then Some(r.error) else None }

  /** Whatever the Campaign, the baseline is built exactly when all of this holds, and otherwise refused for the first
      of it that does not. */
  lemma BaselineRefused(
    campaign: Campaign, campaignDigest: string, publicContext: Option<string>, createdAt: int, id: Option<string>, d: Digests)
    ensures Reports(BaselineChecks(campaign) + FinalChecks(campaign, campaignDigest, Baseline, d),
                    ErrorOf(BuildBaselineManifest(campaign, campaignDigest, publicContext, createdAt, id, d)))
  {
    var error := ErrorOf(BuildBaselineManifest(campaign, campaignDigest, publicContext, createdAt, id, d));
    var opening, final := BaselineChecks(campaign), FinalChecks(campaign, campaignDigest, Baseline, d);
    assert forall name | name in campaign.agents ::
        AgentMatches(name, campaign.agents[name], campaign.agents[name], campaign.mutation.targetAgent);
    assert opening[0].holds && opening[1].holds ==> (error.None? <==> final[0].holds && final[1].holds);
    assert opening[0].holds && opening[1].holds ==> Reports(final, error);
    ReportsThen(opening, if opening[0].holds && opening[1].holds then None else error, final, error);
  }

  /** And so is the candidate. */
  lemma CandidateRefused(
    campaign: Campaign, campaignDigest: string, skill: Skill, publicContext: Option<string>, createdAt: int,
    id: Option<string>, d: Digests)
    ensures Reports(BaselineChecks(campaign) + (SkillChecks(campaign, skill, d) + FinalChecks(campaign, campaignDigest, Candidate, d)),
                    ErrorOf(BuildCandidateManifest(campaign, campaignDigest, skill, publicContext, createdAt, id, d)))
  {
    hide TotalSize;
    SomeContent(skill.files);
    var error := ErrorOf(BuildCandidateManifest(campaign, campaignDigest, skill, publicContext, createdAt, id, d));
    var opening, middle := BaselineChecks(campaign), SkillChecks(campaign, skill, d);
    var final := FinalChecks(campaign, campaignDigest, Candidate, d);
    var begun := opening[0].holds && opening[1].holds;
    var able := middle[0].holds && middle[1].holds && middle[2].holds && middle[3].holds;
    if begun && able {
      var target := campaign.mutation.targetAgent;
      var reference := ArtifactRef(skill.rootDigest, SKILL_MEDIA_TYPE, TotalSize(skill.files), None);
      var agents := campaign.agents[target := WithSkills(campaign.agents[target], [reference])];
      assert agents.Keys == campaign.agents.Keys;
      assert forall name | name in agents :: AgentMatches(name, agents[name], campaign.agents[name], target);
      assert error.None? <==> final[0].holds && final[1].holds;
      assert Reports(final, error);
    }
    assert begun && !able ==> Reports(middle, error);
    if begun {
      ReportsThen(middle, if able then None else error, final, error);
    }
    ReportsThen(opening, if begun then None else error, middle + final, error);
  }

  predicate Insertable(skill: Skill, d: Digests) {
    (exists i :: 0 <= i < |skill.files| && skill.files[i].size > 0) && d.skill(skill.files) == skill.rootDigest
  }

  lemma {:induction false} SomeContent(files: seq<SkillFile>)
    ensures TotalSize(files) > 0 <==> exists i :: 0 <= i < |files| && files[i].size > 0
  {
    if files != [] {
      SomeContent(files[1..]);
      if TotalSize(files) > 0 && files[0].size == 0 {
        var i :| 0 <= i < |files[1..]| && files[1..][i].size > 0;
        assert files[i + 1].size > 0;
      } else if TotalSize(files) == 0 {
        forall i | 0 <= i < |files|
          ensures files[i].size == 0
        {
          assert i > 0 ==> files[i] == files[1..][i - 1];
        }
      }
    }
  }

  /** The candidate is built exactly when the skill has content under its own digest, differs from the one it
      replaces, and the bounds leave room for one skill; and it is then the baseline with that one reference. */
  lemma CandidateBuilt(
    campaign: Campaign, campaignDigest: string, skill: Skill, publicContext: Option<string>, createdAt: int,
    id: Option<string>, d: Digests)
    requires ValidCampaign(campaign)
    ensures var r := BuildCandidateManifest(campaign, campaignDigest, skill, publicContext, createdAt, id, d);
            var before := campaign.agents[SUBJECT].harness.skills;
            (r.Ok? <==> d.campaign(campaign) == campaignDigest && Insertable(skill, d)
                        && (campaign.mutation.kind.SkillReplacement? ==> before[0].digest != skill.rootDigest)
                        && campaign.mutation.minimumSkills <= 1)
            && (r.Ok? ==> r.value.variant == Candidate && r.value.publicContext == publicContext && ValidManifest(r.value)
                          && AssertManifestMatchesCampaign(r.value, campaign, campaignDigest).None?
                          && r.value.configuration.agents[SUBJECT].harness.skills
                             == [ArtifactRef(skill.rootDigest, "application/vnd.techtree.instruction-skill.v1",
                                             TotalSize(skill.files), None)]
                          && Labelled(r.value, createdAt, id, d))
  {
    hide TotalSize;
    SomeContent(skill.files);
    var subject := campaign.agents[SUBJECT];
    var reference := ArtifactRef(skill.rootDigest, SKILL_MEDIA_TYPE, TotalSize(skill.files), None);
    var agents := campaign.agents[SUBJECT := WithSkills(subject, [reference])];
    assert agents.Keys == campaign.agents.Keys;
    assert forall name | name in agents :: AgentMatches(name, agents[name], campaign.agents[name], SUBJECT);
  }

  // ---- The builders meet the comparison -------------------------------------

  lemma SameMember(a: Json, b: Json, k: string)
    requires a.Obj? && b.Obj? && Same(a, b) && k in a.members
    ensures k in b.members && Same(a.members[k], b.members[k])
  {
  }

  /** Taking the skill list out of a configuration's JSON leaves nothing that depends on it. */
  lemma SkillsErased(c: Configuration, skills: seq<ArtifactRef>)
    requires SUBJECT in c.agents
    ensures Erase(ConfigurationJson(c.(agents := c.agents[SUBJECT := WithSkills(c.agents[SUBJECT], skills)])), SKILL_PATH)
         == Erase(ConfigurationJson(c), SKILL_PATH)
  {
    hide AgentsJson, SharedMembers;
    var agents := c.agents[SUBJECT := WithSkills(c.agents[SUBJECT], skills)];
    var changed := c.(agents := agents);
    SharedAside(c, changed);
    AgentsErased(c.agents, skills);
    assert SKILL_PATH[1..] == ["subject", "harness", "skills"];
    assert Erase(ConfigurationJson(changed), SKILL_PATH).members == Erase(ConfigurationJson(c), SKILL_PATH).members;
  }

  lemma SharedAside(c: Configuration, d: Configuration)
    requires d == c.(agents := d.agents)
    ensures SharedMembers(d) == SharedMembers(c)
  {
  }

  lemma AgentsErased(was: map<string, Agent>, skills: seq<ArtifactRef>)
    requires SUBJECT in was
    ensures Erase(AgentsJson(was[SUBJECT := WithSkills(was[SUBJECT], skills)]), ["subject", "harness", "skills"])
         == Erase(AgentsJson(was), ["subject", "harness", "skills"])
  {
    hide AgentJson;
    AgentErased(was[SUBJECT], skills);
    var now := was[SUBJECT := WithSkills(was[SUBJECT], skills)];
    assert ["subject", "harness", "skills"][1..] == ["harness", "skills"];
    assert Erase(AgentsJson(now), ["subject", "harness", "skills"]).members == Erase(AgentsJson(was), ["subject", "harness", "skills"]).members;
  }

  lemma AgentErased(a: Agent, skills: seq<ArtifactRef>)
    ensures Erase(AgentJson(WithSkills(a, skills)), ["harness", "skills"]) == Erase(AgentJson(a), ["harness", "skills"])
  {
    var h, g := a.harness, a.harness.(skills := skills);
    assert HarnessJson(h).members - {"skills"} == HarnessJson(g).members - {"skills"};
    assert ["harness", "skills"][1..] == ["skills"];
    assert Erase(HarnessJson(h), ["skills"]) == Erase(HarnessJson(g), ["skills"]);
    assert Erase(AgentJson(WithSkills(a, skills)), ["harness", "skills"]).members == Erase(AgentJson(a), ["harness", "skills"]).members;
  }

  /** The same JSON means the same skills, reference by reference. */
  lemma SameSkills(c: Configuration, d: Configuration)
    requires SUBJECT in c.agents && SUBJECT in d.agents
    requires Same(ConfigurationJson(c), ConfigurationJson(d))
    ensures var left, right := c.agents[SUBJECT].harness.skills, d.agents[SUBJECT].harness.skills;
            |left| == |right| && forall i :: 0 <= i < |left| ==> left[i].digest == right[i].digest
  {
    hide ConfigurationJson, AgentJson, SkillsJson, Same;
    AgentsMember(c);
    AgentsMember(d);
    SameMember(ConfigurationJson(c), ConfigurationJson(d), "agents");
    SameMember(AgentsJson(c.agents), AgentsJson(d.agents), SUBJECT);
    SameAgentSkills(c.agents[SUBJECT], d.agents[SUBJECT]);
  }

  lemma AgentsMember(c: Configuration)
    ensures ConfigurationJson(c).Obj? && "agents" in ConfigurationJson(c).members
    ensures ConfigurationJson(c).members["agents"] == AgentsJson(c.agents)
  {
  }

  lemma SameAgentSkills(a: Agent, b: Agent)
    requires Same(AgentJson(a), AgentJson(b))
    ensures var left, right := a.harness.skills, b.harness.skills;
            |left| == |right| && forall i :: 0 <= i < |left| ==> left[i].digest == right[i].digest
  {
    hide SkillsJson, Same;
    SameMember(AgentJson(a), AgentJson(b), "harness");
    SameMember(HarnessJson(a.harness), HarnessJson(b.harness), "skills");
    SameReferences(a.harness.skills, b.harness.skills);
  }

  lemma SameReferences(left: seq<ArtifactRef>, right: seq<ArtifactRef>)
    requires Same(SkillsJson(left), SkillsJson(right))
    ensures |left| == |right| && forall i :: 0 <= i < |left| ==> left[i].digest == right[i].digest
  {
    forall i | 0 <= i < |left|
      ensures left[i].digest == right[i].digest
    {
      assert Same(SkillsJson(left).items[i], SkillsJson(right).items[i]);
      SameMember(RefJson(left[i]), RefJson(right[i]), "digest");
    }
  }

  /** Two manifests the check accepts against one Campaign have the same JSON outside the skill list. */
  lemma AcceptedAgreeOutside(b: Manifest, c: Manifest, campaign: Campaign, campaignDigest: string)
    requires ValidCampaign(campaign)
    requires AssertManifestMatchesCampaign(b, campaign, campaignDigest).None?
    requires AssertManifestMatchesCampaign(c, campaign, campaignDigest).None?
    ensures b.configuration.agents.Keys == c.configuration.agents.Keys == {SUBJECT}
    ensures Erase(ConfigurationJson(b.configuration), SKILL_PATH) == Erase(ConfigurationJson(c.configuration), SKILL_PATH)
  {
    hide ConfigurationJson, Erase;
    var skills := campaign.agents[SUBJECT].harness.skills;
    MatchesExactly(b, campaign, campaignDigest);
    MatchesExactly(c, campaign, campaignDigest);
    hide AssertManifestMatchesCampaign;
    assert WithCampaignSkills(b.configuration, campaign).agents.Keys == b.configuration.agents.Keys;
    assert WithCampaignSkills(c.configuration, campaign).agents.Keys == c.configuration.agents.Keys;
    SkillsErased(b.configuration, skills);
    SkillsErased(c.configuration, skills);
  }

  /** A pair of manifests, each valid and each accepted against one Campaign, is controlled exactly when the
      variants are on their sides, the public context is shared, and a replacement changes the skill. */
  lemma AcceptedPairControlled(b: Manifest, c: Manifest, campaign: Campaign, campaignDigest: string)
    requires ValidCampaign(campaign) && ValidManifest(b) && ValidManifest(c)
    requires AssertManifestMatchesCampaign(b, campaign, campaignDigest).None?
    requires AssertManifestMatchesCampaign(c, campaign, campaignDigest).None?
    ensures Controlled(b, c, campaign.mutation)
       <==> VariantsRight(b, c) && b.publicContext == c.publicContext
            && (campaign.mutation.kind.SkillReplacement?
                ==> b.configuration.agents[SUBJECT].harness.skills[0].digest != c.configuration.agents[SUBJECT].harness.skills[0].digest)
  {
    hide ConfigurationJson, Erase, Same;
    AcceptedAgreeOutside(b, c, campaign, campaignDigest);
    SameReflexive(Erase(ConfigurationJson(b.configuration), SKILL_PATH));
    assert b.configuration.mutation == c.configuration.mutation == campaign.mutation;
    hide AssertManifestMatchesCampaign;
    if Same(ConfigurationJson(b.configuration), ConfigurationJson(c.configuration)) {
      SameSkills(b.configuration, c.configuration);
    }
    if b.publicContext == c.publicContext {
      forall field
        ensures Shared(field, b, c)
      {
      }
    } else {
      assert !Shared(PublicContextField, b, c);
    }
  }

  /** Whatever both builders produce from one Campaign under one public context, the comparison calls controlled. */
  lemma BuilderMeetsChecker(
    campaign: Campaign, campaignDigest: string, skill: Skill, publicContext: Option<string>, t: int, u: int,
    i: Option<string>, j: Option<string>, d: Digests)
    requires ValidCampaign(campaign)
    ensures var b := BuildBaselineManifest(campaign, campaignDigest, publicContext, t, i, d);
            var c := BuildCandidateManifest(campaign, campaignDigest, skill, publicContext, u, j, d);
            b.Ok? && c.Ok? ==> Controlled(b.value, c.value, campaign.mutation)
  {
    hide BuildBaselineManifest, BuildCandidateManifest, Controlled, AssertManifestMatchesCampaign;
    BaselineBuilt(campaign, campaignDigest, publicContext, t, i, d);
    CandidateBuilt(campaign, campaignDigest, skill, publicContext, u, j, d);
    var b := BuildBaselineManifest(campaign, campaignDigest, publicContext, t, i, d);
    var c := BuildCandidateManifest(campaign, campaignDigest, skill, publicContext, u, j, d);
    if b.Ok? && c.Ok? {
      AcceptedPairControlled(b.value, c.value, campaign, campaignDigest);
    }
  }
}
