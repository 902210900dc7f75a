/** The documents that are compared: a Campaign, the configuration derived from it, and the two manifests. */
module Manifests {
  import opened Json
  import opened Wrappers

  datatype Variant = Baseline | Candidate

  datatype MutationKind = SkillInsertion | SkillReplacement

  datatype MutationContract = MutationContract(
    kind: MutationKind, targetAgent: string, allowedDifferences: seq<string>, minimumSkills: int, maximumSkills: int)

  datatype ArtifactRef = ArtifactRef(digest: string, mediaType: string, size: int, relativePath: Option<string>)

  datatype Harness = Harness(id: string, version: string, useBundledSkill: bool, skills: seq<ArtifactRef>)

  /** The sub-models that nothing here looks into are their own JSON. */
  datatype Agent = Agent(model: Json, sampling: Json, harness: Harness, runtime: Json, trainable: bool)

  datatype Configuration = Configuration(
    taskset: Json, environment: Json, agents: map<string, Agent>, mutation: MutationContract, backend: Json,
    execution: Json, scoring: Json, evidence: Json, budgets: Json,
    dataPolicyDigest: string, outcomeContractDigest: Option<string>)

  datatype Campaign = Campaign(
    metadata: Json, programRef: Option<Json>, outcomeContractDigest: Option<string>,
    taskset: Json, environment: Json, agents: map<string, Agent>, mutation: MutationContract, backend: Json,
    execution: Json, scoring: Json, evidence: Json, budgets: Json, dataPolicyDigest: string)

  datatype Manifest = Manifest(
    id: string, campaignDigest: string, programRef: Option<Json>, publicContext: Option<string>, variant: Variant,
    configuration: Configuration, configurationDigest: string, createdAt: int)

  const SUBJECT: string := "subject"
  const SKILL_ROOT: string := "/agents/subject/harness/skills"
  const SKILL_PATH: seq<string> := ["agents", "subject", "harness", "skills"]

  // ---- Canonical JSON -------------------------------------------------------

  function OptionalString(s: Option<string>): Json { if s.Some? then Str(s.value) else Null }

  function RefJson(r: ArtifactRef): Json {
    Obj(map["digest" := Str(r.digest), "media_type" := Str(r.mediaType), "size" := Int(r.size),
            "relative_path" := OptionalString(r.relativePath)])
  }

  function SkillsJson(skills: seq<ArtifactRef>): Json {
    Arr(seq(|skills|, i requires 0 <= i < |skills| => RefJson(skills[i])))
  }

  function HarnessJson(h: Harness): Json {
    Obj(map["id" := Str(h.id), "version" := Str(h.version), "use_bundled_skill" := Bool(h.useBundledSkill),
            "skills" := SkillsJson(h.skills)])
  }

  /** Everything in an agent but its harness. */
  function AgentMembers(a: Agent): map<string, Json> {
    map["model" := a.model, "sampling" := a.sampling, "runtime" := a.runtime, "trainable" := Bool(a.trainable)]
  }

  function AgentJson(a: Agent): Json { Obj(AgentMembers(a)["harness" := HarnessJson(a.harness)]) }

  function AgentsJson(agents: map<string, Agent>): Json {
    Obj(map name | name in agents :: AgentJson(agents[name]))
  }

  function AllowedJson(allowed: seq<string>): Json {
    Arr(seq(|allowed|, i requires 0 <= i < |allowed| => Str(allowed[i])))
  }

  function KindText(k: MutationKind): string { if k.SkillInsertion? then "skill_insertion" else "skill_replacement" }

  function MutationJson(m: MutationContract): Json {
    Obj(map["kind" := Str(KindText(m.kind)),
            "target_agent" := Str(m.targetAgent),
            "allowed_differences" := AllowedJson(m.allowedDifferences),
            "minimum_skills" := Int(m.minimumSkills), "maximum_skills" := Int(m.maximumSkills)])
  }

  /** Everything in a configuration but its agents. */
  function SharedMembers(c: Configuration): map<string, Json> {
    map["taskset" := c.taskset, "environment" := c.environment, "mutation_contract" := MutationJson(c.mutation),
        "evaluation_backend" := c.backend, "execution" := c.execution, "scoring" := c.scoring,
        "evidence" := c.evidence, "budgets" := c.budgets, "data_policy_digest" := Str(c.dataPolicyDigest),
        "outcome_contract_digest" := OptionalString(c.outcomeContractDigest)]
  }

  /** _configuration_json */
  function ConfigurationJson(c: Configuration): Json {
    Obj(SharedMembers(c)["agents" := AgentsJson(c.agents)])
  }

  // ---- What the models' own validators accept -------------------------------

  /** MutationContract. */
  predicate ValidMutation(m: MutationContract) {
    m.targetAgent == SUBJECT && m.allowedDifferences == [SKILL_ROOT]
    && 0 <= m.minimumSkills <= m.maximumSkills && 1 <= m.maximumSkills
  }

  /** How many skills a baseline carries is settled by the kind of mutation. */
  predicate BaselineSkillCount(kind: MutationKind, skills: seq<ArtifactRef>) {
    if kind.SkillInsertion? then skills == [] else |skills| == 1
  }

  /** CampaignSpec, as far as agents and skills go. */
  predicate ValidCampaign(c: Campaign) {
    c.agents.Keys == {SUBJECT} && ValidMutation(c.mutation)
    && BaselineSkillCount(c.mutation.kind, c.agents[SUBJECT].harness.skills)
    && !c.agents[SUBJECT].harness.useBundledSkill
  }

  /** ExperimentManifest's skill-count rule. */
  predicate ValidManifest(m: Manifest) {
    SUBJECT in m.configuration.agents
    && var skills := m.configuration.agents[SUBJECT].harness.skills;
       if m.variant.Candidate? then |skills| == 1 else BaselineSkillCount(m.configuration.mutation.kind, skills)
  }

  /** One agent's configuration with another skill list. */
  function WithSkills(a: Agent, skills: seq<ArtifactRef>): Agent {
    a.(harness := a.harness.(skills := skills))
  }

  // ---- What the JSON keeps --------------------------------------------------

  /** Two agents but for their skills. */
  predicate SameAgentAside(a: Agent, b: Agent) {
    Same(a.model, b.model) && Same(a.sampling, b.sampling) && Same(a.runtime, b.runtime) && a.trainable == b.trainable
    && a.harness.id == b.harness.id && a.harness.version == b.harness.version
    && a.harness.useBundledSkill == b.harness.useBundledSkill
  }

  /** Two configurations but for their agents. */
  predicate SameShared(c: Configuration, d: Configuration) {
    Same(c.taskset, d.taskset) && Same(c.environment, d.environment) && Same(c.backend, d.backend)
    && Same(c.execution, d.execution) && Same(c.scoring, d.scoring) && Same(c.evidence, d.evidence)
    && Same(c.budgets, d.budgets) && c.mutation == d.mutation && c.dataPolicyDigest == d.dataPolicyDigest
    && c.outcomeContractDigest == d.outcomeContractDigest
  }

  /** Two configurations, field by field, down to each skill reference. */
  predicate SameConfiguration(c: Configuration, d: Configuration) {
    SameShared(c, d) && c.agents.Keys == d.agents.Keys
    && forall name | name in c.agents ::
         SameAgentAside(c.agents[name], d.agents[name]) && c.agents[name].harness.skills == d.agents[name].harness.skills
  }

  lemma SameObjects(m: map<string, Json>, n: map<string, Json>)
    ensures Same(Obj(m), Obj(n)) <==> m.Keys == n.Keys && forall k | k in m :: Same(m[k], n[k])
  {
  }

  /** The same, with one member set apart. */
  lemma SameObjectsWith(m: map<string, Json>, n: map<string, Json>, k: string, x: Json, y: Json)
    requires k !in m && k !in n
    ensures Same(Obj(m[k := x]), Obj(n[k := y]))
       <==> m.Keys == n.Keys && (forall j | j in m :: Same(m[j], n[j])) && Same(x, y)
  {
    var p, q := m[k := x], n[k := y];
    SameObjects(p, q);
    hide Same;
    assert p.Keys == m.Keys + {k} && q.Keys == n.Keys + {k};
    assert p.Keys == q.Keys <==> m.Keys == n.Keys by {
      assert p.Keys - {k} == m.Keys && q.Keys - {k} == n.Keys;
    }
    if p.Keys == q.Keys && forall j | j in p :: Same(p[j], q[j]) {
      assert k in p;
      assert forall j :: j in m ==> j in p && p[j] == m[j];
    }
  }

  lemma SameArrays(s: seq<Json>, t: seq<Json>)
    ensures Same(Arr(s), Arr(t)) <==> |s| == |t| && forall i | 0 <= i < |s| :: Same(s[i], t[i])
  {
  }

  lemma SameScalars()
    ensures forall s, t :: Same(Str(s), Str(t)) <==> s == t
    ensures forall i, j :: Same(Int(i), Int(j)) <==> i == j
    ensures forall a, b :: Same(Bool(a), Bool(b)) <==> a == b
    ensures forall s, t :: Same(OptionalString(s), OptionalString(t)) <==> s == t
  {
  }

  lemma RefJsonKeeps(r: ArtifactRef, t: ArtifactRef)
    ensures Same(RefJson(r), RefJson(t)) <==> r == t
  {
    SameScalars();
    SameObjects(RefJson(r).members, RefJson(t).members);
    hide Same, OptionalString;
    FourKeys(RefJson(r).members, RefJson(t).members, "digest", "media_type", "size", "relative_path");
  }

  lemma SkillsJsonKeeps(s: seq<ArtifactRef>, t: seq<ArtifactRef>)
    ensures Same(SkillsJson(s), SkillsJson(t)) <==> s == t
  {
    hide RefJson;
    SameArrays(SkillsJson(s).items, SkillsJson(t).items);
    forall r, u
      ensures Same(RefJson(r), RefJson(u)) <==> r == u
    {
      RefJsonKeeps(r, u);
    }
    hide Same;
    if Same(SkillsJson(s), SkillsJson(t)) {
      forall i | 0 <= i < |s|
        ensures s[i] == t[i]
      {
        assert Same(SkillsJson(s).items[i], SkillsJson(t).items[i]);
      }
    }
  }

  lemma HarnessJsonKeeps(h: Harness, g: Harness)
    ensures Same(HarnessJson(h), HarnessJson(g)) <==> h == g
  {
    SameScalars();
    SameObjects(HarnessJson(h).members, HarnessJson(g).members);
    SkillsJsonKeeps(h.skills, g.skills);
    hide Same, SkillsJson;
    FourKeys(HarnessJson(h).members, HarnessJson(g).members, "id", "version", "use_bundled_skill", "skills");
  }

  lemma AgentMembersKeep(a: Agent, b: Agent)
    ensures AgentMembers(a).Keys == AgentMembers(b).Keys && "harness" !in AgentMembers(a) && "harness" !in AgentMembers(b)
    ensures (forall k | k in AgentMembers(a) :: Same(AgentMembers(a)[k], AgentMembers(b)[k]))
       <==> Same(a.model, b.model) && Same(a.sampling, b.sampling) && Same(a.runtime, b.runtime) && a.trainable == b.trainable
  {
    SameScalars();
    hide Same;
    var m, n := AgentMembers(a), AgentMembers(b);
    assert m.Keys == {"model", "sampling", "runtime", "trainable"} == n.Keys;
    if forall k | k in m :: Same(m[k], n[k]) {
      assert "model" in m && "sampling" in m && "runtime" in m && "trainable" in m;
    }
  }

  lemma AgentJsonKeeps(a: Agent, b: Agent)
    ensures Same(AgentJson(a), AgentJson(b)) <==> SameAgentAside(a, b) && a.harness.skills == b.harness.skills
  {
    AgentMembersKeep(a, b);
    HarnessJsonKeeps(a.harness, b.harness);
    SameObjectsWith(AgentMembers(a), AgentMembers(b), "harness", HarnessJson(a.harness), HarnessJson(b.harness));
    hide Same, HarnessJson, AgentMembers;
  }

  lemma AgentsJsonKeeps(p: map<string, Agent>, q: map<string, Agent>)
    ensures Same(AgentsJson(p), AgentsJson(q)) <==>
            p.Keys == q.Keys
            && forall name | name in p :: SameAgentAside(p[name], q[name]) && p[name].harness.skills == q[name].harness.skills
  {
    var m, n := AgentsJson(p).members, AgentsJson(q).members;
    SameObjects(m, n);
    assert m.Keys == p.Keys && n.Keys == q.Keys;
    forall name | name in p && name in q
      ensures Same(m[name], n[name]) <==> SameAgentAside(p[name], q[name]) && p[name].harness.skills == q[name].harness.skills
    {
      AgentJsonKeeps(p[name], q[name]);
    }
    hide Same, AgentJson, SameAgentAside;
  }

  lemma MutationJsonKeeps(l: MutationContract, m: MutationContract)
    ensures Same(MutationJson(l), MutationJson(m)) <==> l == m
  {
    SameScalars();
    MutationMembers(l);
    MutationMembers(m);
    var p, q := MutationJson(l).members, MutationJson(m).members;
    SameObjects(p, q);
    AllowedKeeps(l.allowedDifferences, m.allowedDifferences);
    hide Same, AllowedJson, MutationJson, KindText;
    KindTextApart(l.kind, m.kind);
    FiveKeys(p, q, "kind", "target_agent", "allowed_differences", "minimum_skills", "maximum_skills");
  }

  lemma FiveKeys(p: map<string, Json>, q: map<string, Json>, i: string, j: string, k: string, l: string, m: string)
    requires p.Keys == {i, j, k, l, m} == q.Keys
    ensures (forall key | key in p :: Same(p[key], q[key]))
       <==> Same(p[i], q[i]) && Same(p[j], q[j]) && Same(p[k], q[k]) && Same(p[l], q[l]) && Same(p[m], q[m])
  {
    hide Same;
    assert i in p && j in p && k in p && l in p && m in p;
  }

  lemma FourKeys(p: map<string, Json>, q: map<string, Json>, i: string, j: string, k: string, l: string)
    requires p.Keys == {i, j, k, l} == q.Keys
    ensures (forall key | key in p :: Same(p[key], q[key]))
       <==> Same(p[i], q[i]) && Same(p[j], q[j]) && Same(p[k], q[k]) && Same(p[l], q[l])
  {
    hide Same;
    assert i in p && j in p && k in p && l in p;
  }

  lemma AllowedKeeps(s: seq<string>, t: seq<string>)
    ensures Same(AllowedJson(s), AllowedJson(t)) <==> s == t
  {
    SameScalars();
    SameArrays(AllowedJson(s).items, AllowedJson(t).items);
    hide Same;
    if Same(AllowedJson(s), AllowedJson(t)) {
      forall i | 0 <= i < |s|
        ensures s[i] == t[i]
      {
        assert Same(AllowedJson(s).items[i], AllowedJson(t).items[i]);
      }
    }
  }

  lemma MutationMembers(m: MutationContract)
    ensures var p := MutationJson(m);
            p.Obj? && p.members.Keys == {"kind", "target_agent", "allowed_differences", "minimum_skills", "maximum_skills"}
            && p.members["kind"] == Str(KindText(m.kind)) && p.members["target_agent"] == Str(m.targetAgent)
            && p.members["allowed_differences"] == AllowedJson(m.allowedDifferences)
            && p.members["minimum_skills"] == Int(m.minimumSkills) && p.members["maximum_skills"] == Int(m.maximumSkills)
  {
    hide AllowedJson;
  }

  lemma KindTextApart(k: MutationKind, l: MutationKind)
    ensures KindText(k) == KindText(l) ==> k == l
  {
    assert |"skill_insertion"| != |"skill_replacement"|;
  }

  lemma SharedMembersKeep(c: Configuration, d: Configuration)
    ensures SharedMembers(c).Keys == SharedMembers(d).Keys && "agents" !in SharedMembers(c)
    ensures (forall k | k in SharedMembers(c) :: Same(SharedMembers(c)[k], SharedMembers(d)[k])) <==> SameShared(c, d)
  {
    SameScalars();
    MutationJsonKeeps(c.mutation, d.mutation);
    hide Same, MutationJson, OptionalString;
    var m, n := SharedMembers(c), SharedMembers(d);
    assert m.Keys == {"taskset", "environment", "mutation_contract", "evaluation_backend", "execution", "scoring",
                      "evidence", "budgets", "data_policy_digest", "outcome_contract_digest"} == n.Keys;
    if forall k | k in m :: Same(m[k], n[k]) {
      assert "taskset" in m && "environment" in m && "mutation_contract" in m && "evaluation_backend" in m;
      assert "execution" in m && "scoring" in m && "evidence" in m && "budgets" in m;
      assert "data_policy_digest" in m && "outcome_contract_digest" in m;
    }
  }

  /** The canonical JSON of a configuration keeps every field of it, and nothing else: two are the same JSON exactly
      when the configurations are the same field by field. */
  lemma ConfigurationJsonKeeps(c: Configuration, d: Configuration)
    ensures Same(ConfigurationJson(c), ConfigurationJson(d)) <==> SameConfiguration(c, d)
  {
    SharedMembersKeep(c, d);
    AgentsJsonKeeps(c.agents, d.agents);
    SameObjectsWith(SharedMembers(c), SharedMembers(d), "agents", AgentsJson(c.agents), AgentsJson(d.agents));
    hide Same, SharedMembers, AgentsJson, SameShared, SameAgentAside;
  }

  /** Where each field sits in the document, and that nothing else does. */
  lemma FieldsByName(c: Configuration)
    ensures var doc := ConfigurationJson(c);
            Child(doc, "taskset") == Some(c.taskset) && Child(doc, "environment") == Some(c.environment)
            && Child(doc, "evaluation_backend") == Some(c.backend) && Child(doc, "execution") == Some(c.execution)
            && Child(doc, "scoring") == Some(c.scoring) && Child(doc, "evidence") == Some(c.evidence)
            && Child(doc, "budgets") == Some(c.budgets) && Child(doc, "mutation_contract") == Some(MutationJson(c.mutation))
            && Child(doc, "data_policy_digest") == Some(Str(c.dataPolicyDigest))
    ensures Child(ConfigurationJson(c), "outcome_contract_digest")
         == Some(if c.outcomeContractDigest.None? then Null else Str(c.outcomeContractDigest.value))
    ensures Child(ConfigurationJson(c), "agents") == Some(AgentsJson(c.agents))
  {
    SharedValues(c);
    hide AgentsJson, MutationJson, SharedMembers, OptionalString;
    var doc := ConfigurationJson(c);
    assert forall k :: k in SharedMembers(c) && k != "agents" ==> k in doc.members && doc.members[k] == SharedMembers(c)[k];
  }

  lemma SharedValues(c: Configuration)
    ensures var m := SharedMembers(c);
            m.Keys == {"taskset", "environment", "mutation_contract", "evaluation_backend", "execution", "scoring",
                       "evidence", "budgets", "data_policy_digest", "outcome_contract_digest"}
            && m["taskset"] == c.taskset && m["environment"] == c.environment && m["evaluation_backend"] == c.backend
            && m["execution"] == c.execution && m["scoring"] == c.scoring && m["evidence"] == c.evidence
            && m["budgets"] == c.budgets && m["mutation_contract"] == MutationJson(c.mutation)
            && m["data_policy_digest"] == Str(c.dataPolicyDigest)
            && m["outcome_contract_digest"] == if c.outcomeContractDigest.None? then Null else Str(c.outcomeContractDigest.value)
  {
    hide MutationJson;
  }

  lemma NamesInDocument(c: Configuration, t: string)
    ensures Child(ConfigurationJson(c), t).Some? <==>
            t in ["taskset", "environment", "agents", "mutation_contract", "evaluation_backend", "execution", "scoring",
                  "evidence", "budgets", "data_policy_digest", "outcome_contract_digest"]
  {
    SharedValues(c);
    hide AgentsJson, MutationJson, OptionalString, SharedMembers;
  }

  lemma AgentsByName(agents: map<string, Agent>, name: string)
    ensures Child(AgentsJson(agents), name) == if name in agents then Some(AgentJson(agents[name])) else None
  {
    hide AgentJson;
  }

  lemma AgentFieldsByName(a: Agent)
    ensures var doc := AgentJson(a);
            Child(doc, "model") == Some(a.model) && Child(doc, "sampling") == Some(a.sampling)
            && Child(doc, "runtime") == Some(a.runtime) && Child(doc, "trainable") == Some(Bool(a.trainable))
            && Child(doc, "harness").Some?
            && var harness := Child(doc, "harness").value;
               Child(harness, "id") == Some(Str(a.harness.id)) && Child(harness, "version") == Some(Str(a.harness.version))
               && Child(harness, "use_bundled_skill") == Some(Bool(a.harness.useBundledSkill))
               && Child(harness, "skills") == Some(SkillsJson(a.harness.skills))
  {
    hide SkillsJson;
  }

  lemma SkillFieldsByName(skills: seq<ArtifactRef>, i: nat)
    requires i < |skills|
    ensures Child(SkillsJson(skills), Decimal(i)) == Some(RefJson(skills[i]))
    ensures var doc, r := RefJson(skills[i]), skills[i];
            Child(doc, "digest") == Some(Str(r.digest)) && Child(doc, "media_type") == Some(Str(r.mediaType))
            && Child(doc, "size") == Some(Int(r.size))
            && Child(doc, "relative_path") == Some(if r.relativePath.None? then Null else Str(r.relativePath.value))
  {
    hide Decimal;
    ChildOfArray(SkillsJson(skills), i);
  }

  lemma ContractFieldsByName(m: MutationContract)
    ensures var doc := MutationJson(m);
            Child(doc, "kind") == Some(Str(if m.kind == SkillReplacement then "skill_replacement" else "skill_insertion"))
            && Child(doc, "target_agent") == Some(Str(m.targetAgent))
            && Child(doc, "minimum_skills") == Some(Int(m.minimumSkills)) && Child(doc, "maximum_skills") == Some(Int(m.maximumSkills))
            && Child(doc, "allowed_differences").Some? && Child(doc, "allowed_differences").value.Arr?
    ensures var items := Child(MutationJson(m), "allowed_differences").value.items;
            |items| == |m.allowedDifferences| && forall i :: 0 <= i < |items| ==> items[i] == Str(m.allowedDifferences[i])
  {
  }
}
