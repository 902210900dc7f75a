/** Whether a candidate differs from its baseline only where the Campaign permits. */
module Compare {
  import opened Json
  import opened Wrappers
  import opened Ordering
  import opened Pointer
  import opened Diff
  import opened DiffProperties
  import opened Manifests

  datatype SharedField = CampaignField | ProgramField | PublicContextField | DataPolicyField | OutcomeContractField | BackendField

  datatype Violation =
    | BaselineSideIs(variant: Variant)
    | CandidateSideIs(variant: Variant)
    | Different(field: SharedField)
    | NoTargetAgent
    | BaselineCarries(count: nat)
    | CandidateCarries(count: nat)
    | SameSkillTwice
    | Identical
    | NotPermitted(pointer: string)

  datatype Comparison = Comparison(
    baselineDigest: string, candidateDigest: string, differences: seq<Difference>, allowed: seq<string>,
    controlled: bool, violations: seq<Violation>)

  // ---- The invariants -------------------------------------------------------

  predicate VariantsRight(baseline: Manifest, candidate: Manifest) {
    baseline.variant.Baseline? && candidate.variant.Candidate?
  }

  method VariantViolations(baseline: Manifest, candidate: Manifest) returns (violations: seq<Violation>)
    ensures violations == [] <==> VariantsRight(baseline, candidate)
    ensures forall v :: v in violations <==>
              (v == BaselineSideIs(baseline.variant) && !baseline.variant.Baseline?)
              || (v == CandidateSideIs(candidate.variant) && !candidate.variant.Candidate?)
  {
    violations := [];
    if !baseline.variant.Baseline? {
      violations := violations + [BaselineSideIs(baseline.variant)];
    }
    if !candidate.variant.Candidate? {
      violations := violations + [CandidateSideIs(candidate.variant)];
    }
  }

  /** Every field the two sides have to share. */
  predicate Shared(field: SharedField, b: Manifest, c: Manifest) {
    match field
    case CampaignField => b.campaignDigest == c.campaignDigest
    case ProgramField => b.programRef == c.programRef
    case PublicContextField => b.publicContext == c.publicContext
    case DataPolicyField => b.configuration.dataPolicyDigest == c.configuration.dataPolicyDigest
    case OutcomeContractField => b.configuration.outcomeContractDigest == c.configuration.outcomeContractDigest
    case BackendField => b.configuration.backend == c.configuration.backend
  }

  const SHARED_FIELDS: seq<SharedField> := [
    CampaignField, ProgramField, PublicContextField, DataPolicyField, OutcomeContractField, BackendField]

  /** The comprehension of _shared_field_violations. */
  function SharedFieldViolations(b: Manifest, c: Manifest, fields: seq<SharedField>): (violations: seq<Violation>)
    ensures forall v :: v in violations <==> v.Different? && v.field in fields && !Shared(v.field, b, c)
  {
    if fields == [] then []
    else
      assert forall l :: l in fields <==> l == fields[0] || l in fields[1..];
      (if Shared(fields[0], b, c) then [] else [Different(fields[0])]) + SharedFieldViolations(b, c, fields[1..])
  }

  lemma EveryFieldListed(field: SharedField)
    ensures field in SHARED_FIELDS
  {
    assert SHARED_FIELDS[0].CampaignField? && SHARED_FIELDS[1].ProgramField? && SHARED_FIELDS[2].PublicContextField?;
    assert SHARED_FIELDS[3].DataPolicyField? && SHARED_FIELDS[4].OutcomeContractField? && SHARED_FIELDS[5].BackendField?;
  }

  ghost predicate SharedFieldsAgree(b: Manifest, c: Manifest) { forall field :: Shared(field, b, c) }

  function SkillsOf(m: Manifest, target: string): Option<seq<ArtifactRef>> {
    if target in m.configuration.agents then Some(m.configuration.agents[target].harness.skills) else None
  }

  /** No skill against one for an insertion; two different skills for a replacement. */
  predicate SkillCountsRight(b: Manifest, c: Manifest, mutation: MutationContract) {
    var left, right := SkillsOf(b, mutation.targetAgent), SkillsOf(c, mutation.targetAgent);
    left.Some? && right.Some? && |right.value| == 1
    && if mutation.kind.SkillInsertion? then left.value == []
       else |left.value| == 1 && left.value[0].digest != right.value[0].digest
  }

  /** The broken skill-count rules, and each of them. */
  ghost predicate CountViolations(b: Manifest, c: Manifest, mutation: MutationContract, violations: seq<Violation>) {
    var left, right := SkillsOf(b, mutation.targetAgent), SkillsOf(c, mutation.targetAgent);
    if left.None? || right.None? then violations == [NoTargetAgent]
    else forall v :: v in violations <==>
           (v == BaselineCarries(|left.value|) && |left.value| != if mutation.kind.SkillInsertion? then 0 else 1)
           || (v == CandidateCarries(|right.value|) && |right.value| != 1)
           || (v == SameSkillTwice && mutation.kind.SkillReplacement? && |left.value| == 1 && |right.value| == 1
               && left.value[0].digest == right.value[0].digest)
  }

  method SkillCountViolations(b: Manifest, c: Manifest, mutation: MutationContract) returns (violations: seq<Violation>)
    ensures violations == [] <==> SkillCountsRight(b, c, mutation)
    ensures CountViolations(b, c, mutation, violations)
  {
    var left, right := SkillsOf(b, mutation.targetAgent), SkillsOf(c, mutation.targetAgent);
    if left.None? || right.None? {
      return [NoTargetAgent];
    }
    violations := [];
    if mutation.kind.SkillInsertion? {
      if left.value != [] {
        violations := violations + [BaselineCarries(|left.value|)];
      }
    } else if |left.value| != 1 {
      violations := violations + [BaselineCarries(|left.value|)];
    }
    if |right.value| != 1 {
      violations := violations + [CandidateCarries(|right.value|)];
    }
    if mutation.kind.SkillReplacement? && |left.value| == 1 && |right.value| == 1
       && left.value[0].digest == right.value[0].digest {
      violations := violations + [SameSkillTwice];
    }
  }

  // ---- The pointers ---------------------------------------------------------

  predicate Permitted(pointer: string, allowed: seq<string>) {
    exists i | 0 <= i < |allowed| :: PointerIsWithin(pointer, allowed[i])
  }

  /** The comprehension of _pointer_violations. */
  function PointerViolations(ds: seq<Difference>, allowed: seq<string>): (violations: seq<Violation>)
    ensures forall v :: v in violations <==>
              v.NotPermitted? && exists d :: d in ds && d.pointer == v.pointer && !Permitted(d.pointer, allowed)
  {
    if ds == [] then []
    else
      assert forall d :: d in ds <==> d == ds[0] || d in ds[1..];
      (if Permitted(ds[0].pointer, allowed) then [] else [NotPermitted(ds[0].pointer)]) + PointerViolations(ds[1..], allowed)
  }

  predicate Plain(t: string) { '~' !in t && '/' !in t }

  /** The one permitted pointer is the rendering of the one permitted path. */
  lemma SkillPointerIsPath()
    ensures Render(SKILL_PATH) == SKILL_ROOT
  {
    hide Render, Plain;
    PlainNames();
    RenderFour("agents", "subject", "harness", "skills");
  }

  lemma PlainNames()
    ensures Plain("agents") && Plain("subject") && Plain("harness") && Plain("skills")
  {
  }

  lemma NoNumeralInSkillPath()
    ensures forall i :: 0 <= i < |SKILL_PATH| ==> !IsNumeral(SKILL_PATH[i])
  {
    assert forall i :: 0 <= i < |SKILL_PATH| ==> !('0' <= SKILL_PATH[i][0] <= '9');
  }

  lemma RenderFour(a: string, b: string, c: string, d: string)
    requires Plain(a) && Plain(b) && Plain(c) && Plain(d)
    ensures Render([a, b, c, d]) == "/" + a + "/" + b + "/" + c + "/" + d
  {
    hide Escape;
    RenderSnoc([a, b, c], d);
    RenderSnoc([a, b], c);
    RenderSnoc([a], b);
    assert [a, b, c] + [d] == [a, b, c, d] && [a, b] + [c] == [a, b, c] && [a] + [b] == [a, b];
    PlainToken(a);
    PlainToken(b);
    PlainToken(c);
    PlainToken(d);
    assert Render([a]) == "/" + a;
  }

  lemma PlainToken(t: string)
    requires Plain(t)
    ensures Escape(t) == t
  {
    ReplaceNothing(t, '~', "~0");
    ReplaceNothing(t, '/', "~1");
  }

  lemma PermittedIsWithin(path: seq<string>)
    ensures Permitted(Spell(path), [SKILL_ROOT]) <==> SKILL_PATH <= path
  {
    hide Spell, PointerIsWithin;
    SkillPointerIsPath();
    WithinIsPrefix(path, SKILL_PATH);
    assert [SKILL_ROOT][0] == SKILL_ROOT;
  }

  /** No reported pointer is refused exactly when all changes lie under the skill list. */
  lemma NoneRefused(b: Json, c: Json, ds: seq<Difference>)
    requires forall d :: d in ds <==> d in Emitted(Changes(b, c, []))
    ensures PointerViolations(ds, [SKILL_ROOT]) == [] <==> AllWithin(b, c, SKILL_PATH)
  {
    hide Changes, ChangeAt, Permitted, Spell;
    var vs := PointerViolations(ds, [SKILL_ROOT]);
    if !AllWithin(b, c, SKILL_PATH) {
      var path :| ChangeAt(b, c, path).Some? && !(SKILL_PATH <= path);
      Reported(b, c, path);
      var ch := Change(path, ChangeAt(b, c, path).value.0, ChangeAt(b, c, path).value.1);
      var i :| 0 <= i < |Changes(b, c, [])| && Changes(b, c, [])[i] == ch;
      assert Emitted(Changes(b, c, []))[i] == Emit(ch);
      PermittedIsWithin(path);
      assert Emit(ch) in ds && NotPermitted(Emit(ch).pointer) in vs;
    } else if vs != [] {
      assert vs[0] in vs;
      var d :| d in ds && d.pointer == vs[0].pointer && !Permitted(d.pointer, [SKILL_ROOT]);
      var i :| 0 <= i < |Changes(b, c, [])| && Emitted(Changes(b, c, []))[i] == d;
      FoundByReference(b, c, Changes(b, c, [])[i]);
      PermittedIsWithin(Changes(b, c, [])[i].path);
    }
  }

  // ---- The verdict ----------------------------------------------------------

  /** What "controlled" is meant to say: the structural invariants hold, something differs, and taking the
      subject's skill list out of both configurations leaves the same document twice. */
  ghost predicate Controlled(b: Manifest, c: Manifest, mutation: MutationContract) {
    var left, right := ConfigurationJson(b.configuration), ConfigurationJson(c.configuration);
    VariantsRight(b, c) && SharedFieldsAgree(b, c) && SkillCountsRight(b, c, mutation)
    && !Same(left, right) && Same(Erase(left, SKILL_PATH), Erase(right, SKILL_PATH))
  }

  /** Exactly what a comparison objects to. */
  ghost predicate Objected(b: Manifest, c: Manifest, mutation: MutationContract, ds: seq<Difference>, v: Violation) {
    var left, right := SkillsOf(b, mutation.targetAgent), SkillsOf(c, mutation.targetAgent);
    match v
    case BaselineSideIs(variant) => variant == b.variant && variant == Candidate
    case CandidateSideIs(variant) => variant == c.variant && variant == Baseline
    case Different(field) => !Shared(field, b, c)
    case NoTargetAgent => left.None? || right.None?
    case BaselineCarries(n) =>
      left.Some? && right.Some? && n == |left.value| && n != if mutation.kind.SkillInsertion? then 0 else 1
    case CandidateCarries(n) => left.Some? && right.Some? && n == |right.value| && n != 1
    case SameSkillTwice =>
      left.Some? && right.Some? && mutation.kind.SkillReplacement? && |left.value| == 1 == |right.value|
      && left.value[0].digest == right.value[0].digest
    case Identical => ds == []
    case NotPermitted(p) => exists d :: d in ds && d.pointer == p && !Permitted(p, mutation.allowedDifferences)
  }

  const REPORT_KEY: Difference -> string := (d: Difference) => d.pointer

  /** compare_manifests: controlled exactly when Controlled, with the differences in pointer order. */
  method CompareManifests(baseline: Manifest, candidate: Manifest, mutation: MutationContract) returns (r: Comparison)
    requires ValidMutation(mutation)
    ensures r.controlled <==> Controlled(baseline, candidate, mutation)
    ensures r.controlled <==> r.violations == []
    ensures forall v :: v in r.violations <==> Objected(baseline, candidate, mutation, r.differences, v)
    ensures r.allowed == [SKILL_ROOT]
    ensures r.baselineDigest == baseline.configurationDigest && r.candidateDigest == candidate.configurationDigest
    ensures SortedBy(r.differences, REPORT_KEY)
    ensures multiset(r.differences) == multiset(Emitted(Changes(ConfigurationJson(baseline.configuration), ConfigurationJson(candidate.configuration), [])))
  {
    hide ConfigurationJson, Changes, SkillCountsRight, VariantsRight, Erase, PointerViolations, Shared, SharedFieldViolations;
    var left, right := ConfigurationJson(baseline.configuration), ConfigurationJson(candidate.configuration);
    var allowed := mutation.allowedDifferences;
    var variants := VariantViolations(baseline, candidate);
    var shared := SharedFieldViolations(baseline, candidate, SHARED_FIELDS);
    var counts := SkillCountViolations(baseline, candidate, mutation);
    var violations := variants + shared + counts;

    var found := DiffValues(left, right, "", []);
    var differences := SortBy(found, REPORT_KEY);
    SortBySorts(found, REPORT_KEY);
    SameMembers(found, REPORT_KEY);
    if differences == [] {
      violations := violations + [Identical];
    }
    violations := violations + PointerViolations(differences, allowed);
    forall v
      ensures v in violations <==> Objected(baseline, candidate, mutation, differences, v)
    {
      ObjectedByPart(baseline, candidate, mutation, differences, variants, counts, v);
    }

    SharedListEmpty(baseline, candidate, shared);
    EmptyMeansSame(left, right);
    NoneRefused(left, right, differences);
    SkillPointerIsPath();
    NoNumeralInSkillPath();
    NonInterference(left, right, SKILL_PATH);
    r := Comparison(baseline.configurationDigest, candidate.configurationDigest, differences, allowed, violations == [], violations);
  }

  lemma ObjectedByPart(
    b: Manifest, c: Manifest, mutation: MutationContract, ds: seq<Difference>, variants: seq<Violation>, counts: seq<Violation>,
    v: Violation)
    requires forall v :: v in variants <==>
               (v == BaselineSideIs(b.variant) && !b.variant.Baseline?) || (v == CandidateSideIs(c.variant) && !c.variant.Candidate?)
    requires CountViolations(b, c, mutation, counts)
    ensures Objected(b, c, mutation, ds, v)
       <==> v in variants || v in SharedFieldViolations(b, c, SHARED_FIELDS) || v in counts
            || (v == Identical && ds == []) || v in PointerViolations(ds, mutation.allowedDifferences)
  {
    hide Shared, SharedFieldViolations, PointerViolations, Permitted;
    if v.Different? {
      EveryFieldListed(v.field);
    }
  }

  lemma SharedListEmpty(b: Manifest, c: Manifest, shared: seq<Violation>)
    requires shared == SharedFieldViolations(b, c, SHARED_FIELDS)
    ensures shared == [] <==> SharedFieldsAgree(b, c)
  {
    hide Shared, SharedFieldViolations;
    if shared == [] {
      forall field
        ensures Shared(field, b, c)
      {
        EveryFieldListed(field);
        assert Different(field) !in shared;
      }
    } else {
      assert shared[0] in shared;
    }
  }
}
