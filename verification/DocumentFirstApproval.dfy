/** The shortest way from nothing to a signed document: generate it, validate it, approve
    it. Runs that show a promise broken start from here, so that every state in them is
    one the program reaches. */
module DocumentFirstApproval {
  import opened Wrappers
  import opened DocumentTypes
  import opened DocumentContent
  import opened DocumentEngine
  import opened DocumentProject

  const NOTHING_COMPOSED := ComposedContent([], [], [])
  const NO_CONTENT := Content([], [], [])

  function Approving(t: DocType, env: Env): seq<Call> {
    [Call(t, GenerateOp(0, NOTHING_COMPOSED), env), Call(t, ValidateOp([]), env), Call(t, ApproveOp(1, false), env)]
  }

  ghost function Validated(t: DocType, env: Env): Doc { Validate(FirstVersion(t, NOTHING_COMPOSED, env), []) }
  ghost function ApprovedFirst(t: DocType, env: Env): Doc { Signed(Validated(t, env)) }

  lemma ValidatedIs(t: DocType, env: Env)
    ensures var doc := Validated(t, env);
      && doc.record
         == Record(1, 1, Draft, Some(Validation(1, [])), [], [], Stamp(Against(None, None, None), env.authority), None)
      && Current(doc) == NO_CONTENT
  {
    assert NextVersion(map[]) == 1;
  }

  lemma ApprovedFirstIs(t: DocType, env: Env)
    requires env.authority.baselineCurrent
    ensures var doc := ApprovedFirst(t, env);
      && doc.record.version == 1 && doc.record.recordVersion == 2 && doc.record.status == Approved
      && doc.record.outdatedBy == [] && !IsOutdated(t, doc.record, env.authority)
      && 1 in doc.archive && doc.archive[1].status == Approved && doc.archive[1].content == Current(doc) == NO_CONTENT
  {
    ValidatedIs(t, env);
  }

  lemma ApprovalGranted(t: DocType, env: Env, gate: Gate)
    requires env.authority.baselineCurrent && gate.prerequisitesSigned
    ensures Approve(Validated(t, env), t, 1, false, env, gate) == Ok(ApprovedFirst(t, env))
  {
    ValidatedIs(t, env);
  }

  lemma GenerateStep(p: Project, t: DocType, env: Env)
    requires t !in p && IsUnlocked(p, t, env.authority)
    ensures Step(p, Approving(t, env)[0]) == p[t := FirstVersion(t, NOTHING_COMPOSED, env)]
  {
  }

  lemma ValidateStep(p: Project, t: DocType, env: Env)
    requires t in p && p[t] == FirstVersion(t, NOTHING_COMPOSED, env)
    ensures Step(p, Approving(t, env)[1]) == p[t := Validated(t, env)]
  {
  }

  lemma ApproveStep(p: Project, t: DocType, env: Env)
    requires t in p && p[t] == Validated(t, env)
    requires PrerequisitesSigned(p, t, env.authority) && env.authority.baselineCurrent
    ensures Step(p, Approving(t, env)[2]) == p[t := ApprovedFirst(t, env)]
  {
    ApprovalGranted(t, env, GateFor(p, t, env.authority));
  }

  lemma UnlockedIsSignedBelow(p: Project, t: DocType, doc: Doc, authority: Authority)
    requires IsUnlocked(p, t, authority)
    ensures PrerequisitesSigned(p[t := doc], t, authority)
  {
    forall q | q in Prerequisites(t) ensures IsAuthoritative(p[t := doc], q, authority) {
      assert q != t && IsAuthoritative(p, q, authority);
    }
  }

  lemma ApprovingRuns(p: Project, t: DocType, env: Env)
    requires t !in p && IsUnlocked(p, t, env.authority) && env.authority.baselineCurrent
    ensures Run(p, Approving(t, env)) == p[t := ApprovedFirst(t, env)]
  {
    var calls := Approving(t, env);
    var generated, validated := p[t := FirstVersion(t, NOTHING_COMPOSED, env)], p[t := Validated(t, env)];
    GenerateStep(p, t, env);
    ValidateStep(generated, t, env);
    assert generated[t := Validated(t, env)] == validated;
    UnlockedIsSignedBelow(p, t, Validated(t, env), env.authority);
    ApproveStep(validated, t, env);
    assert validated[t := ApprovedFirst(t, env)] == p[t := ApprovedFirst(t, env)];
    RunOfThree(p, calls[0], calls[1], calls[2]);
  }

  lemma RunOfThree(p: Project, a: Call, b: Call, c: Call)
    ensures Run(p, [a, b, c]) == Step(Step(Step(p, a), b), c)
  {
    assert [a, b, c][1..] == [b, c] && [b, c][1..] == [c] && [c][1..] == [];
    assert Run(Step(Step(p, a), b), [c]) == Run(Step(Step(Step(p, a), b), c), []);
  }

  /** Everything upstream of the documents approved and current. */
  const READY := Env(Authority(Against(Some(1), Some(1), Some(1)), true), 0, (payload: Payload) => true)

  /** One more document approved on top of a project whose prerequisites were. */
  lemma ApprovedOnTop(before: seq<Call>, p: Project, t: DocType)
    requires Run(map[], before) == p && t !in p && IsUnlocked(p, t, READY.authority)
    ensures Run(map[], before + Approving(t, READY)) == p[t := ApprovedFirst(t, READY)]
  {
    RunInTwo(map[], before, Approving(t, READY));
    ApprovingRuns(p, t, READY);
  }

  /* ------------------------------------------- the first four, one upon another */

  const TO_UNDERSTANDING := Approving(OurUnderstanding, READY)
  const TO_LISTING := TO_UNDERSTANDING + Approving(FeatureListing, READY)
  const TO_CRITERIA := TO_LISTING + Approving(AcceptanceCriteria, READY)
  const TO_ASSUMPTIONS := TO_CRITERIA + Approving(Assumptions, READY)

  ghost function Understood(): Project { map[OurUnderstanding := ApprovedFirst(OurUnderstanding, READY)] }
  ghost function FeaturesListed(): Project { Understood()[FeatureListing := ApprovedFirst(FeatureListing, READY)] }
  ghost function CriteriaSet(): Project {
    FeaturesListed()[AcceptanceCriteria := ApprovedFirst(AcceptanceCriteria, READY)]
  }
  ghost function AssumptionsMade(): Project { CriteriaSet()[Assumptions := ApprovedFirst(Assumptions, READY)] }

  lemma UnderstandingApproved()
    ensures Run(map[], TO_UNDERSTANDING) == Understood()
  {
    ApprovingRuns(map[], OurUnderstanding, READY);
  }

  lemma ListingApproved()
    ensures Run(map[], TO_LISTING) == FeaturesListed()
  {
    UnderstandingApproved();
    ApprovedFirstIs(OurUnderstanding, READY);
    ApprovedOnTop(TO_UNDERSTANDING, Understood(), FeatureListing);
  }

  lemma CriteriaApproved()
    ensures Run(map[], TO_CRITERIA) == CriteriaSet()
  {
    ListingApproved();
    ApprovedFirstIs(FeatureListing, READY);
    ApprovedOnTop(TO_LISTING, FeaturesListed(), AcceptanceCriteria);
  }

  lemma AssumptionsApproved()
    ensures Run(map[], TO_ASSUMPTIONS) == AssumptionsMade()
  {
    CriteriaApproved();
    ApprovedFirstIs(AcceptanceCriteria, READY);
    ApprovedOnTop(TO_CRITERIA, CriteriaSet(), Assumptions);
  }
}
