/** Staleness: who is told that a document moved, and how long they remember it. */
module DocumentStaleness {
  import opened Wrappers
  import opened DocumentTypes
  import opened DocumentContent
  import opened DocumentEngine
  import opened DocumentProject

  /* ---------------------------------------------------------- telling dependents */

  lemma {:induction false} WithoutRemoves(reasons: seq<DocType>, source: DocType, r: DocType)
    ensures multiset(Without(reasons, source))[r] == if r == source then 0 else multiset(reasons)[r]
  {
    if reasons != [] {
      assert reasons == [reasons[0]] + reasons[1..];
      WithoutRemoves(reasons[1..], source, r);
      if reasons[0] != source {
        assert multiset([reasons[0]] + Without(reasons[1..], source))
            == multiset([reasons[0]]) + multiset(Without(reasons[1..], source));
      }
    }
  }

  /** Marking leaves exactly one reason naming the source, keeps every other reason, and
      moves nothing else of the document: not its status, its version or its content. */
  lemma MarkedOnce(doc: Doc, source: DocType, r: DocType)
    ensures var marked := Mark(doc, source);
      && multiset(marked.record.outdatedBy)[source] == 1
      && (r != source ==> multiset(marked.record.outdatedBy)[r] == multiset(doc.record.outdatedBy)[r])
      && marked == doc.(record := doc.record.(outdatedBy := marked.record.outdatedBy,
                                              recordVersion := doc.record.recordVersion + 1))
  {
    WithoutRemoves(doc.record.outdatedBy, source, source);
    WithoutRemoves(doc.record.outdatedBy, source, r);
    assert multiset(Mark(doc, source).record.outdatedBy)
        == multiset(Without(doc.record.outdatedBy, source)) + multiset([source]);
  }

  /** `after` is `before` told once that `source` moved: one reason names it, every other
      reason is as it was, and nothing else of the document is different, not its status,
      version, content or history. */
  ghost predicate ToldOnce(before: Doc, after: Doc, source: DocType) {
    && multiset(after.record.outdatedBy)[source] == 1
    && (forall r :: r != source ==> multiset(after.record.outdatedBy)[r] == multiset(before.record.outdatedBy)[r])
    && after.record.recordVersion == before.record.recordVersion + 1
    && after == before.(record := before.record.(outdatedBy := after.record.outdatedBy,
                                                 recordVersion := after.record.recordVersion))
  }

  lemma ToldKnows(before: Doc, after: Doc, source: DocType, r: DocType)
    requires ToldOnce(before, after, source)
    ensures r in after.record.outdatedBy <==> r == source || r in before.record.outdatedBy
  {
    assert r in multiset(after.record.outdatedBy) <==> r in after.record.outdatedBy;
    assert r in multiset(before.record.outdatedBy) <==> r in before.record.outdatedBy;
  }

  /** The calls that take away a version others may be built on: reopening or revising, and
      of an approved document an edit, an exclusion or a rewrite of features. */
  predicate TakesAway(status: Status, op: Op) {
    || op.ReopenOp? || op.ReviseOp?
    || (status == Approved && (op.EditOp? || op.ExcludeOp? || op.RegenerateFeaturesOp?))
  }

  /** Such a call, when it succeeds, tells every started document downstream, however far,
      and tells it once. On any other document, and by any other call, nothing changes. */
  lemma PropagationReaches(p: Project, call: Call, t: DocType)
    requires call.t in p && t in p && t != call.t && Outcome(p, call).Ok?
    ensures t in Step(p, call)
    ensures Step(p, call)[t] != p[t] <==>
      TakesAway(p[call.t].record.status, call.op) && IsDownstream(call.t, t) && p[t].record.status != NotStarted
    ensures Step(p, call)[t] != p[t] ==> ToldOnce(p[t], Step(p, call)[t], call.t)
  {
    forall r { MarkedOnce(p[t], call.t, r); }
    assert Mark(p[t], call.t).record.recordVersion != p[t].record.recordVersion;
  }

  /** And what that is for: until the document told is written again or revised, over any
      run whatever, the reason stays with it and nobody can approve or issue it. */
  lemma ToldCannotBeSigned(p: Project, call: Call, rest: seq<Call>, t: DocType, sign: Call)
    requires call.t in p && t in p && t != call.t && Outcome(p, call).Ok?
    requires TakesAway(p[call.t].record.status, call.op) && IsDownstream(call.t, t) && p[t].record.status != NotStarted
    requires NeverAnswered(Step(p, call), rest, t)
    requires sign.t == t && (sign.op.ApproveOp? || sign.op.MarkFinalOp?)
    ensures t in Run(Step(p, call), rest) && call.t in Run(Step(p, call), rest)[t].record.outdatedBy
    ensures Outcome(Run(Step(p, call), rest), sign).Refused?
  {
    PropagationReaches(p, call, t);
    ToldKnows(p[t], Step(p, call)[t], call.t, call.t);
    ReasonSticks(Step(p, call), rest, t, call.t);
    StaleIsRefused(Run(Step(p, call), rest), sign);
  }

  lemma StaleIsRefused(p: Project, sign: Call)
    requires sign.t in p && p[sign.t].record.outdatedBy != [] && (sign.op.ApproveOp? || sign.op.MarkFinalOp?)
    ensures Outcome(p, sign).Refused?
  {
  }

  /* -------------------------------------------------------- how long they remember */

  /** The calls that answer a document's staleness: it is written again, or revised. */
  predicate Answers(status: Status, op: Op) {
    op.GenerateOp? || op.ReviseOp? || (op.ReopenOp? && status == Final)
  }

  lemma ReasonsAfterApply(doc: Doc, t: DocType, op: Op, env: Env, gate: Gate)
    requires Apply(doc, t, op, env, gate).Ok?
    ensures Apply(doc, t, op, env, gate).value.record.outdatedBy
         == if Answers(doc.record.status, op) then [] else doc.record.outdatedBy
  {
    if op.GenerateOp? || op.EditOp? || op.ExcludeOp? || op.ReopenOp? || op.ReviseOp? || op.RestoreOp? {
      ReasonsAfterCut(doc, t, op, env, gate);
    }
  }

  lemma ReasonsAfterCut(doc: Doc, t: DocType, op: Op, env: Env, gate: Gate)
    requires Apply(doc, t, op, env, gate).Ok?
    requires op.GenerateOp? || op.EditOp? || op.ExcludeOp? || op.ReopenOp? || op.ReviseOp? || op.RestoreOp?
    ensures Apply(doc, t, op, env, gate).value.record.outdatedBy
         == if Answers(doc.record.status, op) then [] else doc.record.outdatedBy
  {
  }

  /** A recorded reason is dropped by exactly one kind of event: its own document is
      successfully generated or revised. No call on another document can drop it. */
  lemma ReasonDroppedIff(p: Project, call: Call, t: DocType, source: DocType)
    requires t in p && source in p[t].record.outdatedBy
    ensures t in Step(p, call)
    ensures source !in Step(p, call)[t].record.outdatedBy
       <==> call.t == t && Outcome(p, call).Ok? && Answers(p[t].record.status, call.op)
  {
    OwnStep(p, call);
    if call.t == t {
      if Outcome(p, call).Ok? { ReasonsAfterApply(p[t], t, call.op, call.env, GateFor(p, t, call.env.authority)); }
    } else {
      StepTouchesOne(p, call, t);
      if Outcome(p, call).Ok? && call.t in p {
        PropagationReaches(p, call, t);
        if Step(p, call)[t] != p[t] { ToldKnows(p[t], Step(p, call)[t], call.t, source); }
      }
    }
  }

  ghost predicate NeverAnswered(p: Project, calls: seq<Call>, t: DocType)
    decreases |calls|
  {
    calls != [] ==>
      && !(calls[0].t == t && t in p && Outcome(p, calls[0]).Ok? && Answers(p[t].record.status, calls[0].op))
      && NeverAnswered(Step(p, calls[0]), calls[1..], t)
  }

  /** Over whole runs a reason sticks until its document is generated or revised. */
  lemma {:induction false} ReasonSticks(p: Project, calls: seq<Call>, t: DocType, source: DocType)
    requires t in p && source in p[t].record.outdatedBy && NeverAnswered(p, calls, t)
    ensures t in Run(p, calls) && source in Run(p, calls)[t].record.outdatedBy
    decreases |calls|
  {
    if calls != [] {
      ReasonDroppedIff(p, calls[0], t, source);
      ReasonSticks(Step(p, calls[0]), calls[1..], t, source);
    }
  }

  /** Nobody signs a stale document: a call that changes a status to approved or issued
      finds no reason on the document, recorded or derived, and leaves none. */
  lemma NothingStaleIsSigned(p: Project, call: Call, t: DocType)
    requires t in p && t in Step(p, call)
    requires Step(p, call)[t].record.status != p[t].record.status && IsSigned(Step(p, call)[t].record.status)
    ensures call.t == t && !IsOutdated(t, p[t].record, call.env.authority)
    ensures !IsOutdated(t, Step(p, call)[t].record, call.env.authority)
    ensures call.op.ApproveOp? ==> PrerequisitesSigned(p, t, call.env.authority)
  {
    OwnStep(p, call);
    if call.t != t { StepTouchesOne(p, call, t); }
    if !call.op.ApproveOp? && !call.op.MarkFinalOp? {
      OtherStatusAfterApply(p[t], t, call.op, call.env, GateFor(p, t, call.env.authority));
    }
  }

  /** Every other call that succeeds leaves the status alone or takes the signature off. */
  lemma OtherStatusAfterApply(doc: Doc, t: DocType, op: Op, env: Env, gate: Gate)
    requires Apply(doc, t, op, env, gate).Ok? && !op.ApproveOp? && !op.MarkFinalOp?
    ensures var after := Apply(doc, t, op, env, gate).value.record.status;
      if op.ValidateOp? || op.AcknowledgeOp? || op.CandidatesOp? then after == doc.record.status else !IsSigned(after)
  {
    match op
    case GenerateOp(expected, composed) => GenerateStatus(doc, t, expected, composed, env, gate);
    case EditOp(expected, edit) => EditStatus(doc, t, expected, edit, env, gate);
    case ExcludeOp(expected, requirementId, reason, known) =>
      ExcludeStatus(doc, t, expected, requirementId, reason, known, gate);
    case ReopenOp(expected) => ReopenStatus(doc, t, expected, env);
    case ReviseOp(expected) => ReviseStatus(doc, t, expected, env);
    case RestoreOp(expected, from) => RestoreStatus(doc, t, expected, from, env, gate);
    case RegenerateRowsOp(expected, selection, named, composed) =>
      RowsStatus(doc, t, expected, selection, named, composed, env, gate);
    case RegenerateFeaturesOp(expected, selection, sameModule, named) =>
      FeaturesStatus(doc, t, expected, selection, sameModule, named, env, gate);
    case _ =>
  }

  lemma GenerateStatus(doc: Doc, t: DocType, expected: nat, composed: ComposedContent, env: Env, gate: Gate)
    requires Generate(doc, t, expected, composed, env, gate).Ok?
    ensures !IsSigned(Generate(doc, t, expected, composed, env, gate).value.record.status)
  {
  }

  lemma ExcludeStatus(doc: Doc, t: DocType, expected: nat, requirementId: string, reason: string, known: bool,
                      gate: Gate)
    requires ExcludeRequirement(doc, t, expected, requirementId, reason, known, gate).Ok?
    ensures !IsSigned(ExcludeRequirement(doc, t, expected, requirementId, reason, known, gate).value.record.status)
  {
  }

  lemma ReopenStatus(doc: Doc, t: DocType, expected: nat, env: Env)
    requires Reopen(doc, t, expected, env).Ok?
    ensures !IsSigned(Reopen(doc, t, expected, env).value.record.status)
  {
    if doc.record.status == Final { ReviseStatus(doc, t, expected, env); }
  }

  lemma ReviseStatus(doc: Doc, t: DocType, expected: nat, env: Env)
    requires Revise(doc, t, expected, env).Ok?
    ensures !IsSigned(Revise(doc, t, expected, env).value.record.status)
  {
  }

  lemma RestoreStatus(doc: Doc, t: DocType, expected: nat, from: nat, env: Env, gate: Gate)
    requires Restore(doc, t, expected, from, env, gate).Ok?
    ensures !IsSigned(Restore(doc, t, expected, from, env, gate).value.record.status)
  {
  }

  lemma RowsStatus(doc: Doc, t: DocType, expected: nat, selection: Selection, named: map<nat, Payload>,
                   composed: seq<ComposedRow>, env: Env, gate: Gate)
    requires RegenerateRows(doc, t, expected, selection, named, composed, env, gate).Ok?
    ensures !IsSigned(RegenerateRows(doc, t, expected, selection, named, composed, env, gate).value.record.status)
  {
  }

  lemma FeaturesStatus(doc: Doc, t: DocType, expected: nat, selection: Selection, sameModule: string -> bool,
                       named: map<string, Wording>, env: Env, gate: Gate)
    requires RegenerateFeatures(doc, t, expected, selection, sameModule, named, env, gate).Ok?
    ensures !IsSigned(RegenerateFeatures(doc, t, expected, selection, sameModule, named, env, gate).value.record.status)
  {
  }

  lemma EditStatus(doc: Doc, t: DocType, expected: nat, edit: Edit, env: Env, gate: Gate)
    requires EditContent(doc, t, expected, edit, env, gate).Ok?
    ensures !IsSigned(EditContent(doc, t, expected, edit, env, gate).value.record.status)
  {
  }
}
