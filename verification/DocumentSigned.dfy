/** Over every run of calls on a project: a version somebody signed keeps what it said. */
module DocumentSigned {
  import opened Wrappers
  import opened DocumentTypes
  import opened DocumentContent
  import opened DocumentEngine
  import opened DocumentProject
  import opened DocumentHistory
  import opened DocumentAgreement
  import opened DocumentFirstApproval

  /** A signed working version is archived as it stands, and says so on both sides. */
  ghost predicate SignedHeld(doc: Doc) {
    var v := doc.record.version;
    && InReach(doc)
    && (IsSigned(doc.record.status) ==> v in doc.archive)
    && (v in doc.archive && (IsSigned(doc.archive[v].status) || IsSigned(doc.record.status)) ==>
          doc.archive[v].status == doc.record.status && doc.archive[v].content == Current(doc))
  }

  /** Every signed version of the earlier history is in the later one, its content
      unchanged, its status unchanged or moved from approved to issued. */
  ghost predicate SignedKept(earlier: map<nat, Archived>, later: map<nat, Archived>) {
    forall v :: v in earlier && IsSigned(earlier[v].status) ==>
      && v in later && later[v].content == earlier[v].content
      && (later[v].status == earlier[v].status || (earlier[v].status == Approved && later[v].status == Final))
  }

  /** The one call that writes into an approved version's rows without cutting a version. */
  predicate AddsToApproved(status: Status, op: Op) {
    op.CandidatesOp? && op.candidates != [] && status == Approved
  }

  lemma CutKeepsSigned(doc: Doc, archivesFirst: bool, after: Doc)
    requires SignedHeld(doc) && CleanCut(doc, archivesFirst, after)
    ensures SignedHeld(after) && SignedKept(doc.archive, after.archive)
  {
  }

  lemma PutKeepsSigned(doc: Doc, t: DocType, op: Op, env: Env, gate: Gate)
    requires SignedHeld(doc) && Apply(doc, t, op, env, gate).Ok? && !AddsToApproved(doc.record.status, op)
    requires op.ValidateOp? || op.AcknowledgeOp? || op.CandidatesOp?
    ensures SignedHeld(Apply(doc, t, op, env, gate).value)
    ensures SignedKept(doc.archive, Apply(doc, t, op, env, gate).value.archive)
  {
    var after := Apply(doc, t, op, env, gate).value;
    assert after.archive == doc.archive && after.record.status == doc.record.status;
  }

  /** One call keeps signed history, unless it adds candidates to an approved document. */
  lemma ApplyKeepsSigned(doc: Doc, t: DocType, op: Op, env: Env, gate: Gate)
    requires SignedHeld(doc) && Apply(doc, t, op, env, gate).Ok? && !AddsToApproved(doc.record.status, op)
    ensures SignedHeld(Apply(doc, t, op, env, gate).value)
    ensures SignedKept(doc.archive, Apply(doc, t, op, env, gate).value.archive)
  {
    var after := Apply(doc, t, op, env, gate).value;
    if Cuts(op) {
      CutAlwaysSyncs(doc, t, op, env, gate);
      CutKeepsSigned(doc, !(op.EditOp? || op.ExcludeOp?), after);
    } else {
      match op
      case ApproveOp(expected, blocked) => ApproveStays(doc, t, expected, blocked, env, gate);
      case MarkFinalOp(expected) => MarkFinalStays(doc, t, expected, env);
      case RegenerateFeaturesOp(expected, selection, sameModule, named) =>
        RegenerateFeaturesCut(doc, t, expected, selection, sameModule, named, env, gate);
        NextIsNew(after.archive);
      case ValidateOp(_) => PutKeepsSigned(doc, t, op, env, gate);
      case AcknowledgeOp(_, _) => PutKeepsSigned(doc, t, op, env, gate);
      case CandidatesOp(_, _) => PutKeepsSigned(doc, t, op, env, gate);
      case _ =>
    }
  }

  lemma FirstVersionHeld(t: DocType, composed: ComposedContent, env: Env, gate: Gate)
    requires GenerateFirst(t, composed, env, gate).Ok?
    ensures SignedHeld(GenerateFirst(t, composed, env, gate).value)
    ensures Synced(GenerateFirst(t, composed, env, gate).value)
  {
    var record := GenerateFirst(t, composed, env, gate).value.record;
    CutVersionSyncs(Doc(record, map[], map[], map[], map[]), t, record,
                    Compose(composed, Content([], [], []), env.nextId), Lineage(Some(FirstGenerated), None, None));
  }

  ghost predicate ProjectHeld(p: Project) {
    forall t :: t in p ==> SignedHeld(p[t])
  }

  /** No call of the run adds candidates to a document that is approved at that point. */
  ghost predicate NeverAddsToApproved(p: Project, calls: seq<Call>)
    decreases |calls|
  {
    calls != [] ==>
      && !(calls[0].t in p && AddsToApproved(p[calls[0].t].record.status, calls[0].op))
      && NeverAddsToApproved(Step(p, calls[0]), calls[1..])
  }

  lemma MarkingHolds(earlier: Doc, later: Doc)
    requires OnlyMarked(earlier, later)
    ensures later.archive == earlier.archive && Current(later) == Current(earlier)
    ensures later.record.status == earlier.record.status && later.record.version == earlier.record.version
  {
  }

  lemma StepKeepsSigned(p: Project, call: Call, t: DocType)
    requires ProjectHeld(p) && t in Step(p, call)
    requires !(call.t in p && AddsToApproved(p[call.t].record.status, call.op))
    ensures SignedHeld(Step(p, call)[t])
    ensures t in p ==> SignedKept(p[t].archive, Step(p, call)[t].archive)
  {
    OwnStep(p, call);
    var gate := GateFor(p, call.t, call.env.authority);
    if t != call.t {
      StepTouchesOne(p, call, t);
      MarkingHolds(p[t], Step(p, call)[t]);
    } else if call.t in p {
      if Outcome(p, call).Ok? { ApplyKeepsSigned(p[t], t, call.op, call.env, gate); }
    } else if Outcome(p, call).Ok? {
      FirstVersionHeld(t, call.op.composed, call.env, gate);
    }
  }

  /** Signed history is immutable over every run that never adds candidates to an approved
      document: contents stay, and a status moves only from approved to issued. */
  lemma {:induction false} SignedHistoryIsImmutable(p: Project, calls: seq<Call>, t: DocType)
    requires ProjectHeld(p) && NeverAddsToApproved(p, calls) && t in p
    ensures t in Run(p, calls) && SignedKept(p[t].archive, Run(p, calls)[t].archive)
    decreases |calls|
  {
    if calls != [] {
      var next := Step(p, calls[0]);
      OwnStep(p, calls[0]);
      if t != calls[0].t { StepTouchesOne(p, calls[0], t); }
      forall q | q in next ensures SignedHeld(next[q]) { StepKeepsSigned(p, calls[0], q); }
      StepKeepsSigned(p, calls[0], t);
      SignedHistoryIsImmutable(next, calls[1..], t);
    }
  }

  /* -------------------------------------------------------- where it does not hold */

  /** The calls that write the working version into history before changing it. */
  predicate ArchivesFirst(op: Op) {
    op.GenerateOp? || op.ReopenOp? || op.ReviseOp? || op.RestoreOp? || op.RegenerateRowsOp? || op.RegenerateFeaturesOp?
  }

  /** Exactly when one call changes what an archived version says: it archives the working
      version first, and that version's live content is no longer what was archived. An
      approval rewrites its own version too, but only one nobody had signed. */
  lemma ArchivedContentChangesIff(doc: Doc, t: DocType, op: Op, env: Env, gate: Gate, v: nat)
    requires InReach(doc) && v in doc.archive && Apply(doc, t, op, env, gate).Ok? && !op.ApproveOp?
    ensures v in Apply(doc, t, op, env, gate).value.archive
    ensures Apply(doc, t, op, env, gate).value.archive[v].content != doc.archive[v].content
       <==> v == doc.record.version && ArchivesFirst(op) && doc.archive[v].content != Current(doc)
  {
    if Cuts(op) {
      CutAlwaysSyncs(doc, t, op, env, gate);
    } else {
      match op
      case MarkFinalOp(expected) => MarkFinalStays(doc, t, expected, env);
      case RegenerateFeaturesOp(expected, selection, sameModule, named) =>
        RegenerateFeaturesCut(doc, t, expected, selection, sameModule, named, env, gate);
      case ValidateOp(_) => assert Apply(doc, t, op, env, gate).value.archive == doc.archive;
      case AcknowledgeOp(_, _) => assert Apply(doc, t, op, env, gate).value.archive == doc.archive;
      case CandidatesOp(_, _) => assert Apply(doc, t, op, env, gate).value.archive == doc.archive;
      case _ =>
    }
  }

  /** A signed version whose live rows hold more than history says it does. */
  ghost predicate Drifted(doc: Doc, signed: Content) {
    var v := doc.record.version;
    && IsSigned(doc.record.status) && v in doc.archive && doc.archive[v].content == signed
    && |Current(doc).rows| > |signed.rows|
  }

  /** The calls that move a document on from its working version. */
  predicate LeavesVersion(op: Op) { op.EditOp? || op.ExcludeOp? || ArchivesFirst(op) }

  lemma StayingKeepsDrift(doc: Doc, t: DocType, op: Op, env: Env, gate: Gate, signed: Content)
    requires Drifted(doc, signed) && !LeavesVersion(op) && Apply(doc, t, op, env, gate).Ok?
    ensures Drifted(Apply(doc, t, op, env, gate).value, signed)
    ensures Apply(doc, t, op, env, gate).value.record.version == doc.record.version
  {
    var after := Apply(doc, t, op, env, gate).value;
    match op
    case ApproveOp(expected, blocked) => SignedIsNotApproved(doc, t, expected, blocked, env, gate);
    case MarkFinalOp(expected) => MarkFinalStays(doc, t, expected, env);
    case ValidateOp(_) => assert Current(after) == Current(doc);
    case AcknowledgeOp(_, _) => assert Current(after) == Current(doc);
    case CandidatesOp(_, _) => assert |Current(after).rows| >= |Current(doc).rows|;
  }

  lemma SignedIsNotApproved(doc: Doc, t: DocType, expected: nat, blocked: bool, env: Env, gate: Gate)
    requires IsSigned(doc.record.status)
    ensures Approve(doc, t, expected, blocked, env, gate).Refused?
  {
  }

  /** No call of the run moves this document on. Others may do anything. */
  ghost predicate NeverLeaves(p: Project, calls: seq<Call>, t: DocType)
    decreases |calls|
  {
    calls != [] ==>
      && !(calls[0].t == t && Outcome(p, calls[0]).Ok? && LeavesVersion(calls[0].op))
      && NeverLeaves(Step(p, calls[0]), calls[1..], t)
  }

  lemma StepKeepsDrift(p: Project, call: Call, t: DocType, signed: Content)
    requires t in p && Drifted(p[t], signed) && !(call.t == t && Outcome(p, call).Ok? && LeavesVersion(call.op))
    ensures t in Step(p, call) && Drifted(Step(p, call)[t], signed)
    ensures Step(p, call)[t].record.version == p[t].record.version
  {
    OwnStep(p, call);
    if call.t != t {
      StepTouchesOne(p, call, t);
      MarkingHolds(p[t], Step(p, call)[t]);
    } else if Outcome(p, call).Ok? {
      StayingKeepsDrift(p[t], t, call.op, call.env, GateFor(p, t, call.env.authority), signed);
    }
  }

  lemma {:induction false} DriftWaits(p: Project, calls: seq<Call>, t: DocType, signed: Content)
    requires t in p && Drifted(p[t], signed) && NeverLeaves(p, calls, t)
    ensures t in Run(p, calls) && Drifted(Run(p, calls)[t], signed)
    ensures Run(p, calls)[t].record.version == p[t].record.version
    decreases |calls|
  {
    if calls != [] {
      StepKeepsDrift(p, calls[0], t, signed);
      DriftWaits(Step(p, calls[0]), calls[1..], t, signed);
    }
  }

  lemma CandidatesDrift(p: Project, add: Call)
    requires add.t in p && SignedHeld(p[add.t]) && AddsToApproved(p[add.t].record.status, add.op) && Outcome(p, add).Ok?
    ensures p[add.t].record.version in p[add.t].archive && add.t in Step(p, add)
    ensures Drifted(Step(p, add)[add.t], p[add.t].archive[p[add.t].record.version].content)
    ensures Step(p, add)[add.t].record.version == p[add.t].record.version
  {
    OwnStep(p, add);
    assert |Current(Step(p, add)[add.t]).rows| == |Current(p[add.t]).rows| + |add.op.candidates|;
  }

  /** Candidates added to an approved document wait to rewrite what was signed, however much
      later: over any run that does not move the document on, approving elsewhere, validating,
      adding more, issuing. The call that moves it on next puts them into the signed version
      exactly when it archives first; an edit or an exclusion leaves them out. */
  lemma CandidatesRewriteSigned(p: Project, add: Call, between: seq<Call>, next: Call)
    requires add.t in p && SignedHeld(p[add.t]) && AddsToApproved(p[add.t].record.status, add.op) && Outcome(p, add).Ok?
    requires NeverLeaves(Step(p, add), between, add.t)
    requires next.t == add.t && LeavesVersion(next.op) && Outcome(Run(Step(p, add), between), next).Ok?
    ensures var v, t, later := p[add.t].record.version, add.t, Run(Step(p, add), between);
      && v in p[t].archive && p[t].archive[v].status == Approved
      && t in later && v in later[t].archive && IsSigned(later[t].record.status) && later[t].record.version == v
      && t in Step(later, next) && v in Step(later, next)[t].archive
      && (Step(later, next)[t].archive[v].content != p[t].archive[v].content <==> ArchivesFirst(next.op))
  {
    var t, later := add.t, Run(Step(p, add), between);
    CandidatesDrift(p, add);
    var signed := p[t].archive[p[t].record.version].content;
    DriftWaits(Step(p, add), between, t, signed);
    MovingOn(later, next, signed);
  }

  lemma MovingOn(p: Project, next: Call, signed: Content)
    requires next.t in p && Drifted(p[next.t], signed) && Outcome(p, next).Ok? && LeavesVersion(next.op)
    ensures next.t in Step(p, next) && p[next.t].record.version in Step(p, next)[next.t].archive
    ensures Step(p, next)[next.t].archive[p[next.t].record.version].content != signed <==> ArchivesFirst(next.op)
  {
    OwnStep(p, next);
    ArchivedContentChangesIff(p[next.t], next.t, next.op, next.env, GateFor(p, next.t, next.env.authority),
                              p[next.t].record.version);
  }

  /** An issued version too: candidates, then issuing, then revising or reopening changes
      what the version says after it was issued. */
  lemma IssuedVersionRewritten(p: Project, add: Call, issue: Call, revise: Call)
    requires add.t in p && SignedHeld(p[add.t]) && AddsToApproved(p[add.t].record.status, add.op) && Outcome(p, add).Ok?
    requires issue.t == revise.t == add.t && issue.op.MarkFinalOp? && (revise.op.ReviseOp? || revise.op.ReopenOp?)
    requires Outcome(Step(p, add), issue).Ok? && Outcome(Step(Step(p, add), issue), revise).Ok?
    ensures var v, t, issued := p[add.t].record.version, add.t, Step(Step(p, add), issue);
      && t in issued && v in issued[t].archive && issued[t].archive[v].status == Final
      && t in Step(issued, revise) && v in Step(issued, revise)[t].archive
      && Step(issued, revise)[t].archive[v].content != issued[t].archive[v].content
  {
    CandidatesDrift(p, add);
    var t, added, signed := add.t, Step(p, add), p[add.t].archive[p[add.t].record.version].content;
    StepKeepsDrift(added, issue, t, signed);
    OwnStep(added, issue);
    MarkFinalStays(added[t], t, issue.op.expected, issue.env);
    MovingOn(Step(added, issue), revise, signed);
  }

  /** What such a run leaves: a version of `t` that was issued, and now says something else. */
  ghost predicate IssuedThenChanged(issued: Project, later: Project, t: DocType, v: nat) {
    && t in issued && v in issued[t].archive && issued[t].archive[v].status == Final
    && t in later && v in later[t].archive && later[t].archive[v].content != issued[t].archive[v].content
  }

  const SUGGEST := Call(Assumptions, CandidatesOp(2, [ComposedRow(map[], [])]), READY)
  const ISSUE := Call(Assumptions, MarkFinalOp(2), READY)
  const REVISE := Call(Assumptions, ReviseOp(3), READY)

  lemma SuggestionAccepted(p: Project)
    requires Assumptions in p && p[Assumptions].record.recordVersion == 2 && p[Assumptions].record.status == Approved
    requires IsUnlocked(p, Assumptions, READY.authority)
    ensures Outcome(p, SUGGEST).Ok? && Assumptions in Step(p, SUGGEST)
    ensures Step(p, SUGGEST)[Assumptions].record == p[Assumptions].record
  {
    OwnStep(p, SUGGEST);
  }

  lemma IssueAccepted(p: Project)
    requires Assumptions in p && p[Assumptions].record.recordVersion == 2 && p[Assumptions].record.status == Approved
    requires !IsOutdated(Assumptions, p[Assumptions].record, READY.authority)
    ensures Outcome(p, ISSUE).Ok? && Assumptions in Step(p, ISSUE)
    ensures Step(p, ISSUE)[Assumptions].record.recordVersion == 3 && Step(p, ISSUE)[Assumptions].record.status == Final
  {
    OwnStep(p, ISSUE);
  }

  lemma RevisionAccepted(p: Project)
    requires Assumptions in p && p[Assumptions].record.recordVersion == 3 && p[Assumptions].record.status == Final
    ensures Outcome(p, REVISE).Ok?
  {
  }

  lemma IssuedAfterSuggestion(p: Project)
    requires Assumptions in p && p[Assumptions].record.recordVersion == 2 && p[Assumptions].record.status == Approved
    requires p[Assumptions].record.version == 1 && SignedHeld(p[Assumptions])
    requires IsUnlocked(p, Assumptions, READY.authority)
    requires !IsOutdated(Assumptions, p[Assumptions].record, READY.authority)
    ensures var issued := Step(Step(p, SUGGEST), ISSUE);
      IssuedThenChanged(issued, Step(issued, REVISE), Assumptions, 1)
  {
    SuggestionAccepted(p);
    IssueAccepted(Step(p, SUGGEST));
    RevisionAccepted(Step(Step(p, SUGGEST), ISSUE));
    IssuedVersionRewritten(p, SUGGEST, ISSUE, REVISE);
  }

  /** It is reached from an empty project: assumptions approved on everything before them,
      one more suggested, the list issued, and a revision begun. */
  lemma SignedHistoryCanChange()
    ensures exists before: seq<Call>, next: Call ::
      IssuedThenChanged(Run(map[], before), Run(map[], before + [next]), Assumptions, 1)
  {
    AssumptionsApproved();
    ReadyForSuggestion();
    IssuedAfterSuggestion(AssumptionsMade());
    ReachedFrom(TO_ASSUMPTIONS, AssumptionsMade());
  }

  lemma ReadyForSuggestion()
    ensures var p := AssumptionsMade();
      && Assumptions in p && p[Assumptions].record.recordVersion == 2 && p[Assumptions].record.status == Approved
      && p[Assumptions].record.version == 1 && SignedHeld(p[Assumptions])
      && IsUnlocked(p, Assumptions, READY.authority)
      && !IsOutdated(Assumptions, p[Assumptions].record, READY.authority)
  {
    ApprovedFirstIs(Assumptions, READY);
    ApprovedFirstIs(AcceptanceCriteria, READY);
  }

  lemma ReachedFrom(calls: seq<Call>, p: Project)
    requires Run(map[], calls) == p
    requires IssuedThenChanged(Step(Step(p, SUGGEST), ISSUE), Step(Step(Step(p, SUGGEST), ISSUE), REVISE), Assumptions,
             1)
    ensures exists before: seq<Call>, next: Call ::
      IssuedThenChanged(Run(map[], before), Run(map[], before + [next]), Assumptions, 1)
  {
    var before := calls + [SUGGEST, ISSUE];
    RunTwoMore(map[], calls, SUGGEST, ISSUE);
    RunOneMore(map[], before, REVISE);
  }
}
