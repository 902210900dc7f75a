/** The verdict of a comparison, on the configurations themselves. */
module Verdict {
  import opened Json
  import opened Wrappers
  import opened Manifests
  import opened DiffProperties
  import opened Compare

  /** The same configuration but for the skills of the subject. */
  predicate SameOutsideSkills(c: Configuration, d: Configuration) {
    SameShared(c, d) && c.agents.Keys == d.agents.Keys
    && forall name | name in c.agents ::
         SameAgentAside(c.agents[name], d.agents[name])
         && (name != "subject" ==> c.agents[name].harness.skills == d.agents[name].harness.skills)
  }

  lemma HarnessErased(h: Harness, g: Harness)
    ensures Same(Erase(HarnessJson(h), ["skills"]), Erase(HarnessJson(g), ["skills"]))
       <==> h.id == g.id && h.version == g.version && h.useBundledSkill == g.useBundledSkill
  {
    var m, n := HarnessJson(h).members - {"skills"}, HarnessJson(g).members - {"skills"};
    SameScalars();
    SameObjects(m, n);
    hide Same, SkillsJson;
    assert m.Keys == {"id", "version", "use_bundled_skill"} == n.Keys;
    if forall k | k in m :: Same(m[k], n[k]) {
      assert "id" in m && "version" in m && "use_bundled_skill" in m;
    }
  }

  lemma AgentErased(a: Agent, b: Agent)
    ensures Same(Erase(AgentJson(a), ["harness", "skills"]), Erase(AgentJson(b), ["harness", "skills"])) <==> SameAgentAside(a, b)
  {
    HarnessErased(a.harness, b.harness);
    hide HarnessJson;
    assert ["harness", "skills"][1..] == ["skills"];
    var x, y := Erase(HarnessJson(a.harness), ["skills"]), Erase(HarnessJson(b.harness), ["skills"]);
    ErasedAgentMembers(a);
    ErasedAgentMembers(b);
    SameObjectsWith(AgentMembers(a), AgentMembers(b), "harness", x, y);
    AgentMembersKeep(a, b);
    hide Same, Erase, AgentMembers;
  }

  lemma ErasedAgentMembers(a: Agent)
    ensures Erase(AgentJson(a), ["harness", "skills"]) == Obj(AgentMembers(a)["harness" := Erase(HarnessJson(a.harness), ["skills"])])
  {
    hide HarnessJson;
    assert ["harness", "skills"][1..] == ["skills"];
    var x := Erase(HarnessJson(a.harness), ["skills"]);
    assert AgentMembers(a)["harness" := HarnessJson(a.harness)]["harness" := x] == AgentMembers(a)["harness" := x];
  }

  /** What is left of the agents' JSON once the subject's skills are taken out. */
  lemma ErasedAgents(p: map<string, Agent>, name: string)
    requires name in p
    ensures var doc := Erase(AgentsJson(p), ["subject", "harness", "skills"]);
            doc.Obj? && doc.members.Keys == p.Keys
            && doc.members[name] == if name == "subject" then Erase(AgentJson(p[name]), ["harness", "skills"]) else AgentJson(p[name])
  {
    hide AgentJson;
    assert ["subject", "harness", "skills"][1..] == ["harness", "skills"];
  }

  lemma AgentsErased(p: map<string, Agent>, q: map<string, Agent>)
    ensures Same(Erase(AgentsJson(p), ["subject", "harness", "skills"]), Erase(AgentsJson(q), ["subject", "harness", "skills"]))
       <==> p.Keys == q.Keys
            && forall name | name in p :: SameAgentAside(p[name], q[name])
                 && (name != "subject" ==> p[name].harness.skills == q[name].harness.skills)
  {
    hide AgentJson, SameAgentAside;
    var c, d := Erase(AgentsJson(p), ["subject", "harness", "skills"]), Erase(AgentsJson(q), ["subject", "harness", "skills"]);
    ErasedKeys(p);
    ErasedKeys(q);
    SameObjects(c.members, d.members);
    forall name | name in p && name in q
      ensures Same(c.members[name], d.members[name])
         <==> SameAgentAside(p[name], q[name]) && (name != "subject" ==> p[name].harness.skills == q[name].harness.skills)
    {
      ErasedAgents(p, name);
      ErasedAgents(q, name);
      AgentErased(p[name], q[name]);
      AgentJsonKeeps(p[name], q[name]);
    }
    hide Same, Erase;
  }

  lemma ErasedKeys(p: map<string, Agent>)
    ensures var doc := Erase(AgentsJson(p), ["subject", "harness", "skills"]); doc.Obj? && doc.members.Keys == p.Keys
  {
    hide AgentJson;
    assert AgentsJson(p).members.Keys == p.Keys;
  }

  /** Taking the subject's skills out of the JSON leaves everything else of the configuration, and nothing more. */
  lemma ErasedConfiguration(c: Configuration, d: Configuration)
    ensures Same(Erase(ConfigurationJson(c), SKILL_PATH), Erase(ConfigurationJson(d), SKILL_PATH)) <==> SameOutsideSkills(c, d)
  {
    ErasedMembers(c);
    ErasedMembers(d);
    SharedMembersKeep(c, d);
    AgentsErased(c.agents, d.agents);
    var x := Erase(AgentsJson(c.agents), ["subject", "harness", "skills"]);
    var y := Erase(AgentsJson(d.agents), ["subject", "harness", "skills"]);
    SameObjectsWith(SharedMembers(c), SharedMembers(d), "agents", x, y);
    hide Same, SharedMembers, AgentsJson, SameShared, SameAgentAside, Erase;
  }

  lemma ErasedMembers(c: Configuration)
    ensures Erase(ConfigurationJson(c), SKILL_PATH)
         == Obj(SharedMembers(c)["agents" := Erase(AgentsJson(c.agents), ["subject", "harness", "skills"])])
  {
    hide SharedMembers, AgentsJson;
    assert SKILL_PATH[1..] == ["subject", "harness", "skills"];
    assert SharedMembers(c)["agents" := AgentsJson(c.agents)]["agents" := Erase(AgentsJson(c.agents), ["subject", "harness", "skills"])]
        == SharedMembers(c)["agents" := Erase(AgentsJson(c.agents), ["subject", "harness", "skills"])];
  }

  /** What a pair under a Campaign's mutation contract has to be to measure one skill and nothing else. */
  predicate MeasuresOneSkill(b: Manifest, c: Manifest, kind: MutationKind) {
    b.variant == Baseline && c.variant == Candidate
    && b.campaignDigest == c.campaignDigest && b.programRef == c.programRef && b.publicContext == c.publicContext
    && b.configuration.backend == c.configuration.backend && SameOutsideSkills(b.configuration, c.configuration)
    && "subject" in b.configuration.agents && "subject" in c.configuration.agents
    && var before, after := b.configuration.agents["subject"].harness.skills, c.configuration.agents["subject"].harness.skills;
       |after| == 1
       && if kind == SkillReplacement then |before| == 1 && before[0].digest != after[0].digest else |before| == 0
  }

  /** A pair is controlled exactly when it measures one skill and nothing else. */
  lemma ControlledExactly(b: Manifest, c: Manifest, mutation: MutationContract)
    requires ValidMutation(mutation)
    ensures Controlled(b, c, mutation) <==> MeasuresOneSkill(b, c, mutation.kind)
  {
    ErasedConfiguration(b.configuration, c.configuration);
    ConfigurationJsonKeeps(b.configuration, c.configuration);
    hide Same, Erase, ConfigurationJson, SameAgentAside;
    SharedFieldsExactly(b, c);
    hide Shared, SharedFieldsAgree;
    if SkillCountsRight(b, c, mutation) && SameOutsideSkills(b.configuration, c.configuration) {
      assert b.configuration.agents["subject"].harness.skills != c.configuration.agents["subject"].harness.skills;
      assert !SameConfiguration(b.configuration, c.configuration);
    }
  }

  lemma SharedFieldsExactly(b: Manifest, c: Manifest)
    ensures SharedFieldsAgree(b, c)
       <==> b.campaignDigest == c.campaignDigest && b.programRef == c.programRef && b.publicContext == c.publicContext
            && b.configuration.dataPolicyDigest == c.configuration.dataPolicyDigest
            && b.configuration.outcomeContractDigest == c.configuration.outcomeContractDigest
            && b.configuration.backend == c.configuration.backend
  {
    if SharedFieldsAgree(b, c) {
      assert Shared(CampaignField, b, c) && Shared(ProgramField, b, c) && Shared(PublicContextField, b, c);
      assert Shared(DataPolicyField, b, c) && Shared(OutcomeContractField, b, c) && Shared(BackendField, b, c);
    }
  }

  /** Which shared field each report names. */
  lemma SharedFieldByField(b: Manifest, c: Manifest)
    ensures Different(CampaignField) in SharedFieldViolations(b, c, SHARED_FIELDS) <==> b.campaignDigest != c.campaignDigest
    ensures Different(ProgramField) in SharedFieldViolations(b, c, SHARED_FIELDS) <==> b.programRef != c.programRef
    ensures Different(PublicContextField) in SharedFieldViolations(b, c, SHARED_FIELDS) <==> b.publicContext != c.publicContext
    ensures Different(DataPolicyField) in SharedFieldViolations(b, c, SHARED_FIELDS)
       <==> b.configuration.dataPolicyDigest != c.configuration.dataPolicyDigest
    ensures Different(OutcomeContractField) in SharedFieldViolations(b, c, SHARED_FIELDS)
       <==> b.configuration.outcomeContractDigest != c.configuration.outcomeContractDigest
    ensures Different(BackendField) in SharedFieldViolations(b, c, SHARED_FIELDS)
       <==> b.configuration.backend != c.configuration.backend
  {
    hide SharedFieldViolations;
    EveryFieldListed(CampaignField);
    EveryFieldListed(ProgramField);
    EveryFieldListed(PublicContextField);
    EveryFieldListed(DataPolicyField);
    EveryFieldListed(OutcomeContractField);
    EveryFieldListed(BackendField);
  }
}
