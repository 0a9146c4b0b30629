/** Whether a signed document always stands on signed ones: which runs keep it so, and the
    calls that break it. */
module DocumentFoundations {
  import opened Wrappers
  import opened DocumentTypes
  import opened DocumentContent
  import opened DocumentEngine
  import opened DocumentProject
  import opened DocumentStaleness
  import opened DocumentFirstApproval

  /** Documents are never written before what they are built on. */
  ghost predicate Closed(p: Project) {
    forall t, q :: t in p && q in Prerequisites(t) ==> q in p
  }

  /** Every signed document stands on signed prerequisites, or says which one moved. */
  ghost predicate Covered(p: Project) {
    forall t, q :: t in p && q in Prerequisites(t) && q in p && IsSigned(p[t].record.status) ==>
      IsSigned(p[q].record.status) || q in p[t].record.outdatedBy
  }

  /** A signed document knows every reason its prerequisites know. */
  ghost predicate ReasonsReachDown(p: Project) {
    forall t, q, r :: (t in p && q in Prerequisites(t) && q in p && IsSigned(p[t].record.status)
                       && r in p[q].record.outdatedBy) ==> r in p[t].record.outdatedBy
  }

  /** The call withdraws an approved document and tells nobody. */
  ghost predicate WithdrawsSilently(p: Project, call: Call) {
    && call.t in p && p[call.t].record.status == Approved && Outcome(p, call).Ok?
    && (call.op.GenerateOp? || call.op.RestoreOp? || call.op.RegenerateRowsOp?)
  }

  /** Some signed document is built directly on this one and has not been told it moved. */
  ghost predicate HasUnwarnedDependent(p: Project, source: DocType) {
    exists t :: t in p && source in Prerequisites(t) && IsSigned(p[t].record.status)
        && source !in p[t].record.outdatedBy
  }

  /** A document knows a reason after a call if it knew it and the call was not its answer,
      or if the call is on the document the reason names, and tells. */
  lemma ReasonAfterStep(p: Project, call: Call, t: DocType, r: DocType)
    requires t in p
    ensures t in Step(p, call)
    ensures r in Step(p, call)[t].record.outdatedBy <==>
      || (r in p[t].record.outdatedBy
          && !(call.t == t && Outcome(p, call).Ok? && Answers(p[t].record.status, call.op)))
      || (Tells(p, call) && r == call.t && IsDownstream(r, t) && p[t].record.status != NotStarted)
    ensures t != call.t ==> Step(p, call)[t].record.status == p[t].record.status
  {
    OwnStep(p, call);
    if call.t == t {
      if IsDownstream(t, t) { DownstreamComesLater(t, t); }
      if Outcome(p, call).Ok? { ReasonsAfterApply(p[t], t, call.op, call.env, GateFor(p, t, call.env.authority)); }
    } else {
      StepTouchesOne(p, call, t);
      if Outcome(p, call).Ok? && call.t in p {
        PropagationReaches(p, call, t);
        if Step(p, call)[t] != p[t] { ToldKnows(p[t], Step(p, call)[t], call.t, r); }
      }
    }
  }

  ghost predicate Tells(p: Project, call: Call) {
    call.t in p && Outcome(p, call).Ok? && TellsDownstream(p[call.t].record.status, call.op)
  }

  lemma ApproveNeedsPrerequisites(doc: Doc, t: DocType, expected: nat, blocked: bool, env: Env, gate: Gate)
    requires Approve(doc, t, expected, blocked, env, gate).Ok?
    ensures gate.prerequisitesSigned && !IsSigned(doc.record.status) && doc.record.outdatedBy == []
    ensures Approve(doc, t, expected, blocked, env, gate).value.record.status == Approved
  {
  }

  lemma FinalComesFromApproved(doc: Doc, t: DocType, expected: nat, env: Env)
    requires MarkFinal(doc, t, expected, env).Ok?
    ensures doc.record.status == Approved && MarkFinal(doc, t, expected, env).value.record.status == Final
  {
  }

  /** How a call changes its own document's signature: only an approval puts one on, and
      what takes one off either tells the documents downstream or is one of three. */
  lemma SignatureAfterApply(doc: Doc, t: DocType, op: Op, env: Env, gate: Gate)
    requires Apply(doc, t, op, env, gate).Ok?
    ensures IsSigned(Apply(doc, t, op, env, gate).value.record.status) && !IsSigned(doc.record.status) ==>
              op.ApproveOp? && gate.prerequisitesSigned
    ensures !IsSigned(Apply(doc, t, op, env, gate).value.record.status) && IsSigned(doc.record.status) ==>
              TellsDownstream(doc.record.status, op)
              || (doc.record.status == Approved && (op.GenerateOp? || op.RestoreOp? || op.RegenerateRowsOp?))
  {
    if op.ApproveOp? {
      ApproveNeedsPrerequisites(doc, t, op.expected, op.blocked, env, gate);
    } else if op.MarkFinalOp? {
      FinalComesFromApproved(doc, t, op.expected, env);
    } else {
      OtherStatusAfterApply(doc, t, op, env, gate);
      if doc.record.status == Final { IssuedIsOnlyRevised(doc, t, op, env, gate); }
    }
  }

  lemma IssuedIsOnlyRevised(doc: Doc, t: DocType, op: Op, env: Env, gate: Gate)
    requires Apply(doc, t, op, env, gate).Ok? && doc.record.status == Final
    ensures op.ReopenOp? || op.ReviseOp? || op.ValidateOp?
  {
  }

  lemma SignatureAfterStep(p: Project, call: Call)
    requires Outcome(p, call).Ok?
    ensures call.t in Step(p, call)
    ensures var signed := IsSigned(Step(p, call)[call.t].record.status);
      && (call.t !in p ==> !signed && IsUnlocked(p, call.t, call.env.authority))
      && (call.t in p && signed && !IsSigned(p[call.t].record.status) ==>
            call.op.ApproveOp? && PrerequisitesSigned(p, call.t, call.env.authority))
      && (call.t in p && !signed && IsSigned(p[call.t].record.status) ==>
            Tells(p, call) || WithdrawsSilently(p, call))
  {
    OwnStep(p, call);
    if call.t in p {
      SignatureAfterApply(p[call.t], call.t, call.op, call.env, GateFor(p, call.t, call.env.authority));
    }
  }

  lemma ClosedStays(p: Project, call: Call)
    requires Closed(p)
    ensures Closed(Step(p, call))
  {
    OwnStep(p, call);
    forall t, q | t in Step(p, call) && q in Prerequisites(t) ensures q in Step(p, call) {
      if t !in p {
        SignatureAfterStep(p, call);
        assert IsAuthoritative(p, q, call.env.authority);
      }
    }
  }

  lemma ReasonsReachDownStays(p: Project, call: Call)
    requires ReasonsReachDown(p) && Closed(p)
    ensures ReasonsReachDown(Step(p, call))
  {
    var next := Step(p, call);
    ClosedStays(p, call);
    OwnStep(p, call);
    forall t, q, r | t in next && q in Prerequisites(t) && q in next && IsSigned(next[t].record.status)
                     && r in next[q].record.outdatedBy
      ensures r in next[t].record.outdatedBy
    {
      ReasonReachesDown(p, call, t, q, r);
    }
  }

  lemma ReasonReachesDown(p: Project, call: Call, t: DocType, q: DocType, r: DocType)
    requires ReasonsReachDown(p) && Closed(p)
    requires t in Step(p, call) && q in Prerequisites(t) && q in Step(p, call)
    requires IsSigned(Step(p, call)[t].record.status) && r in Step(p, call)[q].record.outdatedBy
    ensures r in Step(p, call)[t].record.outdatedBy
  {
    OwnStep(p, call);
    if t !in p {
      SignatureAfterStep(p, call);
      assert false;
    }
    ReasonAfterStep(p, call, q, r);
    if r in p[q].record.outdatedBy {
      KnownReasonReachesDown(p, call, t, q, r);
    } else {
      NewReasonReachesDown(p, call, t, q);
    }
  }

  lemma KnownReasonReachesDown(p: Project, call: Call, t: DocType, q: DocType, r: DocType)
    requires ReasonsReachDown(p) && t in p && q in Prerequisites(t) && q in p && r in p[q].record.outdatedBy
    requires t in Step(p, call) && IsSigned(Step(p, call)[t].record.status)
    ensures r in Step(p, call)[t].record.outdatedBy
  {
    ReasonAfterStep(p, call, t, r);
    OwnStep(p, call);
    if t == call.t && Outcome(p, call).Ok? { OwnReasonReachesDown(p, call, q, r); }
  }

  lemma NewReasonReachesDown(p: Project, call: Call, t: DocType, q: DocType)
    requires t in p && q in Prerequisites(t) && t in Step(p, call) && IsSigned(Step(p, call)[t].record.status)
    requires Tells(p, call) && IsDownstream(call.t, q)
    ensures call.t in Step(p, call)[t].record.outdatedBy
  {
    assert IsDownstream(call.t, t);
    DownstreamComesLater(call.t, t);
    ReasonAfterStep(p, call, t, call.t);
  }

  /** The document of the call itself: still signed, so it still knows, or newly signed
      over prerequisites that have no reasons at all. */
  lemma OwnReasonReachesDown(p: Project, call: Call, q: DocType, r: DocType)
    requires ReasonsReachDown(p) && Outcome(p, call).Ok? && call.t in p && q in Prerequisites(call.t) && q in p
    requires IsSigned(Step(p, call)[call.t].record.status) && r in p[q].record.outdatedBy
    ensures r in p[call.t].record.outdatedBy && !Answers(p[call.t].record.status, call.op)
  {
    SignatureAfterStep(p, call);
    if !IsSigned(p[call.t].record.status) { assert false; }
    if Answers(p[call.t].record.status, call.op) {
      AnsweredIsUnsigned(p, call);
      assert false;
    }
  }

  lemma AnsweredIsUnsigned(p: Project, call: Call)
    requires call.t in p && Outcome(p, call).Ok? && Answers(p[call.t].record.status, call.op)
    ensures call.t in Step(p, call) && !IsSigned(Step(p, call)[call.t].record.status)
  {
    OwnStep(p, call);
    OtherStatusAfterApply(p[call.t], call.t, call.op, call.env, GateFor(p, call.t, call.env.authority));
  }

  /* ---------------------------------------------------------- what breaks coverage */

  lemma CoveredAfterStep(p: Project, call: Call, t: DocType, q: DocType)
    requires Closed(p) && Covered(p)
    requires !(WithdrawsSilently(p, call) && HasUnwarnedDependent(p, call.t))
    requires t in Step(p, call) && q in Prerequisites(t) && q in Step(p, call)
             && IsSigned(Step(p, call)[t].record.status)
    ensures IsSigned(Step(p, call)[q].record.status) || q in Step(p, call)[t].record.outdatedBy
  {
    OwnStep(p, call);
    if t !in p {
      SignatureAfterStep(p, call);
      assert false;
    }
    if t == call.t { OwnCoverage(p, call, q); } else { OtherCoverage(p, call, t, q); }
  }

  lemma OtherCoverage(p: Project, call: Call, t: DocType, q: DocType)
    requires Closed(p) && Covered(p) && t in p && t != call.t && q in Prerequisites(t) && q in Step(p, call)
    requires !(WithdrawsSilently(p, call) && HasUnwarnedDependent(p, call.t))
    requires t in Step(p, call) && IsSigned(Step(p, call)[t].record.status)
    ensures IsSigned(Step(p, call)[q].record.status) || q in Step(p, call)[t].record.outdatedBy
  {
    if q == call.t && Outcome(p, call).Ok? {
      MovedCoverage(p, call, t);
    } else {
      ReasonAfterStep(p, call, t, q);
      OwnStep(p, call);
      if q != call.t { StepTouchesOne(p, call, q); }
    }
  }

  lemma MovedCoverage(p: Project, call: Call, t: DocType)
    requires Closed(p) && Covered(p) && t in p && t != call.t && call.t in Prerequisites(t) && Outcome(p, call).Ok?
    requires !(WithdrawsSilently(p, call) && HasUnwarnedDependent(p, call.t))
    requires t in Step(p, call) && IsSigned(Step(p, call)[t].record.status) && call.t in Step(p, call)
    ensures IsSigned(Step(p, call)[call.t].record.status) || call.t in Step(p, call)[t].record.outdatedBy
  {
    assert IsDownstream(call.t, t);
    ReasonAfterStep(p, call, t, call.t);
    SignatureAfterStep(p, call);
  }

  lemma OwnCoverage(p: Project, call: Call, q: DocType)
    requires Closed(p) && Covered(p) && call.t in p && q in Prerequisites(call.t) && q in Step(p, call)
    requires call.t in Step(p, call) && IsSigned(Step(p, call)[call.t].record.status)
    ensures IsSigned(Step(p, call)[q].record.status) || q in Step(p, call)[call.t].record.outdatedBy
  {
    OwnStep(p, call);
    DownstreamComesLater(q, call.t);
    ReasonAfterStep(p, call, q, q);
    if Outcome(p, call).Ok? {
      SignatureAfterStep(p, call);
      if IsSigned(p[call.t].record.status) {
        ReasonAfterStep(p, call, call.t, q);
        if Answers(p[call.t].record.status, call.op) {
          AnsweredIsUnsigned(p, call);
          assert false;
        }
      }
    }
  }

  lemma SilentWithdrawalUncovers(p: Project, call: Call)
    requires Closed(p) && Covered(p) && WithdrawsSilently(p, call) && HasUnwarnedDependent(p, call.t)
    ensures !Covered(Step(p, call))
  {
    var t :| t in p && call.t in Prerequisites(t) && IsSigned(p[t].record.status) && call.t !in p[t].record.outdatedBy;
    UnwarnedStays(p, call, t);
    WithdrawnIsUnsigned(p, call);
  }

  lemma UnwarnedStays(p: Project, call: Call, t: DocType)
    requires WithdrawsSilently(p, call) && t in p && call.t in Prerequisites(t)
    requires IsSigned(p[t].record.status) && call.t !in p[t].record.outdatedBy
    ensures t in Step(p, call) && IsSigned(Step(p, call)[t].record.status)
            && call.t !in Step(p, call)[t].record.outdatedBy
  {
    DownstreamComesLater(call.t, t);
    ReasonAfterStep(p, call, t, call.t);
  }

  lemma WithdrawnIsUnsigned(p: Project, call: Call)
    requires WithdrawsSilently(p, call)
    ensures call.t in Step(p, call) && !IsSigned(Step(p, call)[call.t].record.status)
  {
    OwnStep(p, call);
    OtherStatusAfterApply(p[call.t], call.t, call.op, call.env, GateFor(p, call.t, call.env.authority));
  }

  /** Exactly which calls leave a signed document standing on unsigned ground without
      saying so: regenerating, restoring or rewriting rows of an approved document while a
      signed document built on it has not been told. */
  lemma CoverageKeptIff(p: Project, call: Call)
    requires Closed(p) && Covered(p)
    ensures Covered(Step(p, call)) <==> !(WithdrawsSilently(p, call) && HasUnwarnedDependent(p, call.t))
  {
    if WithdrawsSilently(p, call) && HasUnwarnedDependent(p, call.t) {
      SilentWithdrawalUncovers(p, call);
    } else {
      var next := Step(p, call);
      forall t, q | t in next && q in Prerequisites(t) && q in next && IsSigned(next[t].record.status)
        ensures IsSigned(next[q].record.status) || q in next[t].record.outdatedBy
      {
        CoveredAfterStep(p, call, t, q);
      }
    }
  }

  ghost predicate NeverWithdrawsSilently(p: Project, calls: seq<Call>)
    decreases |calls|
  {
    calls != [] ==>
      && !(WithdrawsSilently(p, calls[0]) && HasUnwarnedDependent(p, calls[0].t))
      && NeverWithdrawsSilently(Step(p, calls[0]), calls[1..])
  }

  ghost predicate Grounded(p: Project) { Closed(p) && Covered(p) && ReasonsReachDown(p) }

  /** The ground of a signed document nobody has called stale: everything it is built on,
      however far upstream, exists, is signed, and has no recorded reason either. */
  lemma {:induction false} SignedGround(p: Project, t: DocType, u: DocType)
    requires Grounded(p) && t in p && IsSigned(p[t].record.status) && p[t].record.outdatedBy == []
    requires IsDownstream(u, t)
    ensures u in p && IsSigned(p[u].record.status) && p[u].record.outdatedBy == []
    decreases Order(t)
  {
    if u in Prerequisites(t) {
      DirectGround(p, t, u);
    } else {
      var q :| q in Prerequisites(t) && IsDownstream(u, q);
      DirectGround(p, t, q);
      DownstreamComesLater(q, t);
      SignedGround(p, q, u);
    }
  }

  lemma DirectGround(p: Project, t: DocType, q: DocType)
    requires Grounded(p) && t in p && IsSigned(p[t].record.status) && p[t].record.outdatedBy == []
    requires q in Prerequisites(t)
    ensures q in p && IsSigned(p[q].record.status) && p[q].record.outdatedBy == []
  {
    if p[q].record.outdatedBy != [] { KnowsReasonOf(p, t, q, p[q].record.outdatedBy[0]); }
  }

  lemma KnowsReasonOf(p: Project, t: DocType, q: DocType, r: DocType)
    requires Grounded(p) && t in p && q in Prerequisites(t) && q in p && IsSigned(p[t].record.status)
    ensures r in p[q].record.outdatedBy ==> r in p[t].record.outdatedBy
  {
  }

  /** From an empty project, over every run without a silent withdrawal, that ground holds. */
  lemma {:induction false} RunsStayGrounded(p: Project, calls: seq<Call>)
    requires Grounded(p) && NeverWithdrawsSilently(p, calls)
    ensures Grounded(Run(p, calls))
    decreases |calls|
  {
    if calls != [] {
      ClosedStays(p, calls[0]);
      ReasonsReachDownStays(p, calls[0]);
      CoverageKeptIff(p, calls[0]);
      RunsStayGrounded(Step(p, calls[0]), calls[1..]);
    }
  }

  /** What a silent withdrawal leaves: a listing approved and current, on a draft. */
  ghost predicate StandsOnDraft(p: Project, authority: Authority) {
    && FeatureListing in p && p[FeatureListing].record.status == Approved
    && !IsOutdated(FeatureListing, p[FeatureListing].record, authority)
    && OurUnderstanding in p && p[OurUnderstanding].record.status == Draft
  }

  const AGAIN := Call(OurUnderstanding, GenerateOp(2, NOTHING_COMPOSED), READY)

  /** It is reached from an empty project: an understanding approved, a listing approved
      on it, the understanding generated again. */
  lemma RegenerationCanUncover()
    ensures exists calls: seq<Call> :: StandsOnDraft(Run(map[], calls), READY.authority)
  {
    ListingApproved();
    WithdrawnUnderListing(FeaturesListed());
    UncoveredFrom(TO_LISTING, FeaturesListed());
  }

  lemma UncoveredFrom(before: seq<Call>, p: Project)
    requires Run(map[], before) == p && StandsOnDraft(Step(p, AGAIN), READY.authority)
    ensures exists calls: seq<Call> :: StandsOnDraft(Run(map[], calls), READY.authority)
  {
    RunOneMore(map[], before, AGAIN);
  }

  lemma WithdrawnUnderListing(p: Project)
    requires p == FeaturesListed()
    ensures StandsOnDraft(Step(p, AGAIN), READY.authority)
  {
    ApprovedFirstIs(OurUnderstanding, READY);
    ApprovedFirstIs(FeatureListing, READY);
    WithdrawalSucceeds(p[OurUnderstanding], AGAIN, GateFor(p, OurUnderstanding, READY.authority));
    OwnStep(p, AGAIN);
    PropagationReaches(p, AGAIN, FeatureListing);
  }

  lemma WithdrawalSucceeds(doc: Doc, call: Call, gate: Gate)
    requires doc.record.status == Approved && doc.record.recordVersion == 2 && gate.unlocked
    requires call.op == GenerateOp(2, NOTHING_COMPOSED)
    ensures Apply(doc, call.t, call.op, call.env, gate).Ok?
    ensures Apply(doc, call.t, call.op, call.env, gate).value.record.status == Draft
  {
  }
}
