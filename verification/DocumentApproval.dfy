/** What an approval signs: over every run, exactly the content the last validation read. */
module DocumentApproval {
  import opened Wrappers
  import opened DocumentTypes
  import opened DocumentContent
  import opened DocumentEngine
  import opened DocumentProject

  /** The content the most recent validation of a document read, over a run. */
  ghost function LastRead(p: Project, calls: seq<Call>, t: DocType, before: Option<Content>): Option<Content>
    decreases |calls|
  {
    if calls == [] then before
    else LastRead(Step(p, calls[0]), calls[1..], t, ReadBy(p, calls[0], t, before))
  }

  ghost function ReadBy(p: Project, call: Call, t: DocType, before: Option<Content>): Option<Content> {
    if call.t == t && t in p && call.op.ValidateOp? then Some(Current(p[t])) else before
  }

  predicate ValidatedNow(record: Record) {
    record.validation.Some? && record.validation.value.documentVersion == record.version
  }

  /** A validation of the working version describes what is there, or suggestions have
      come in since and are waiting for somebody. */
  ghost predicate Faithful(doc: Doc, t: DocType, last: Option<Content>) {
    ValidatedNow(doc.record) ==> last == Some(Current(doc)) || HasUnconfirmed(t, Current(doc))
  }

  lemma CutsDropValidation(doc: Doc, t: DocType, op: Op, env: Env, gate: Gate)
    requires Apply(doc, t, op, env, gate).Ok?
    requires op.GenerateOp? || op.EditOp? || op.ExcludeOp? || op.ReopenOp? || op.ReviseOp? || op.RestoreOp?
          || op.RegenerateRowsOp? || op.RegenerateFeaturesOp?
    ensures Apply(doc, t, op, env, gate).value.record.validation == None
  {
  }

  lemma CandidatesWait(doc: Doc, t: DocType, expected: nat, candidates: seq<ComposedRow>, env: Env, gate: Gate)
    requires AddCandidates(doc, t, expected, candidates, env, gate).Ok? && candidates != []
    ensures HasUnconfirmed(t, Current(AddCandidates(doc, t, expected, candidates, env, gate).value))
  {
    var rows := Current(AddCandidates(doc, t, expected, candidates, env, gate).value).rows;
    assert StateOf(rows[|rows| - 1].payload) == Some(DraftAssumption);
  }

  lemma ApplyStaysFaithful(doc: Doc, t: DocType, op: Op, env: Env, gate: Gate, last: Option<Content>)
    requires Faithful(doc, t, last) && Apply(doc, t, op, env, gate).Ok?
    ensures Faithful(Apply(doc, t, op, env, gate).value, t, if op.ValidateOp? then Some(Current(doc)) else last)
  {
    match op
    case ValidateOp(findings) => assert Current(Validate(doc, findings)) == Current(doc);
    case AcknowledgeOp(_, _) => assert Current(Apply(doc, t, op, env, gate).value) == Current(doc);
    case ApproveOp(_, _) => assert Current(Apply(doc, t, op, env, gate).value) == Current(doc);
    case MarkFinalOp(_) => assert Current(Apply(doc, t, op, env, gate).value) == Current(doc);
    case CandidatesOp(expected, candidates) =>
      if candidates != [] { CandidatesWait(doc, t, expected, candidates, env, gate); }
    case _ => CutsDropValidation(doc, t, op, env, gate);
  }

  lemma StepStaysFaithful(p: Project, call: Call, t: DocType, last: Option<Content>)
    requires t in p ==> Faithful(p[t], t, last)
    ensures t in Step(p, call) ==> Faithful(Step(p, call)[t], t, ReadBy(p, call, t, last))
  {
    OwnStep(p, call);
    if call.t == t && Outcome(p, call).Ok? {
      if t in p { ApplyStaysFaithful(p[t], t, call.op, call.env, GateFor(p, t, call.env.authority), last); }
    } else if call.t != t && t in p {
      StepTouchesOne(p, call, t);
    }
  }

  lemma {:induction false} RunStaysFaithful(p: Project, calls: seq<Call>, t: DocType, last: Option<Content>)
    requires t in p ==> Faithful(p[t], t, last)
    ensures t in Run(p, calls) ==> Faithful(Run(p, calls)[t], t, LastRead(p, calls, t, last))
    decreases |calls|
  {
    if calls != [] {
      StepStaysFaithful(p, calls[0], t, last);
      RunStaysFaithful(Step(p, calls[0]), calls[1..], t, ReadBy(p, calls[0], t, last));
    }
  }

  lemma ApproveReads(doc: Doc, t: DocType, expected: nat, blocked: bool, env: Env, gate: Gate)
    requires Approve(doc, t, expected, blocked, env, gate).Ok?
    ensures ValidatedNow(doc.record) && Permits(doc.record.validation.value)
    ensures !HasUndecided(Current(doc)) && !HasUnconfirmed(t, Current(doc))
    ensures var after := Approve(doc, t, expected, blocked, env, gate).value;
      && doc.record.version in after.archive && after.archive[doc.record.version].content == Current(doc)
      && after.archive[doc.record.version].status == Approved
      && after.archive[doc.record.version].validation == doc.record.validation
  {
  }

  /** An approval after any run signs word for word what the last validation read, with
      that validation's findings, none of them blocking, and nothing left undecided. Edits,
      rewrites, suggestions and restorations made since then cannot slip under it. */
  lemma ApprovalSignsWhatWasValidated(p: Project, calls: seq<Call>, approval: Call, last: Option<Content>)
    requires approval.t in p ==> Faithful(p[approval.t], approval.t, last)
    requires approval.op.ApproveOp? && Outcome(Run(p, calls), approval).Ok?
    ensures approval.t in Run(p, calls)
    ensures var t, record := approval.t, Run(p, calls)[approval.t].record;
      var signed := Outcome(Run(p, calls), approval).value.archive;
      && record.version in signed && signed[record.version].status == Approved
      && LastRead(p, calls, t, last) == Some(signed[record.version].content)
      && signed[record.version].validation == record.validation && record.validation.Some?
      && Permits(record.validation.value)
      && !HasUndecided(signed[record.version].content) && !HasUnconfirmed(t, signed[record.version].content)
  {
    var reached := Run(p, calls);
    var t, op := approval.t, approval.op;
    RunStaysFaithful(p, calls, t, last);
    ApproveReads(reached[t], t, op.expected, op.blocked, approval.env, GateFor(reached, t, approval.env.authority));
  }
}
