/** Where each version says it comes from: how a cut is labelled, and that a label once
    written is never written over. */
module DocumentLineage {
  import opened Wrappers
  import opened DocumentTypes
  import opened DocumentContent
  import opened DocumentEngine
  import opened DocumentProject
  import opened DocumentHistory

  /* --------------------------------------------------------------- new versions */

  /** The working version is archived under this lineage, as validated and as written
      against, and names the version it came from. */
  ghost predicate CutFrom(doc: Doc, after: Doc, lineage: Lineage) {
    && after.record.version != doc.record.version && after.record.supersedes == Some(doc.record.version)
    && after.record.validation == None && after.record.exclusions == doc.record.exclusions
    && after.record.version in after.archive
    && var entry := after.archive[after.record.version];
    && entry.lineage == lineage && entry.validation == None && entry.against == after.record.against
    && entry.status == after.record.status
  }

  lemma GenerationIsLabelled(doc: Doc, t: DocType, expected: nat, composed: ComposedContent, env: Env, gate: Gate)
    requires Generate(doc, t, expected, composed, env, gate).Ok?
    ensures var after := Generate(doc, t, expected, composed, env, gate).value;
      CutFrom(doc, after, Lineage(Some(Regenerated), None, None)) && after.record.status == Draft
  {
    ArchiveFirst(doc, doc.record.status, NO_LINEAGE);
    NextIsNew(ArchiveWorking(doc, NO_LINEAGE).archive);
  }

  lemma FirstGenerationIsLabelled(t: DocType, composed: ComposedContent, env: Env, gate: Gate)
    requires GenerateFirst(t, composed, env, gate).Ok?
    ensures var after := GenerateFirst(t, composed, env, gate).value;
      && after.record.version == 1 && after.archive.Keys == {1}
      && after.archive[1].lineage == Lineage(Some(FirstGenerated), None, None)
      && after.archive[1].status == Draft && after.archive[1].against == env.authority.current
  {
    var none: map<nat, Archived> := map[];
    assert none.Keys == {};
  }

  /** A reopened version is under revision, keeps the reasons and upstream versions of the
      approved one and says which version it revises; a revised one starts clean. */
  lemma ReopeningIsLabelled(doc: Doc, t: DocType, expected: nat, env: Env)
    requires doc.record.status == Approved && Reopen(doc, t, expected, env).Ok?
    ensures var after := Reopen(doc, t, expected, env).value;
      && CutFrom(doc, after, Lineage(Some(Reopened), None, Some(doc.record.version)))
      && after.record.status == NeedsRevision && after.record.outdatedBy == doc.record.outdatedBy
      && after.record.against == doc.record.against
  {
    ArchiveFirst(doc, Approved, NO_LINEAGE);
    NextIsNew(Archive(doc, doc.record, Current(doc), Approved, NO_LINEAGE).archive);
  }

  lemma RevisionIsLabelled(doc: Doc, t: DocType, expected: nat, env: Env)
    requires Revise(doc, t, expected, env).Ok?
    ensures var after, today, was := Revise(doc, t, expected, env).value, env.authority.current, doc.record.against;
      && CutFrom(doc, after, Lineage(Some(RevisedFromFinal), None, Some(doc.record.version)))
      && after.record.status == Draft && after.record.outdatedBy == []
      && after.record.against.baseline == (if today.baseline.Some? then today.baseline else was.baseline)
      && after.record.against.stack == (if today.stack.Some? then today.stack else was.stack)
      && after.record.against.estimate == (if today.estimate.Some? then today.estimate else was.estimate)
      && doc.record.version in after.archive
      && (doc.record.version !in doc.archive || doc.archive[doc.record.version].lineage.changeType == None ==>
            after.archive[doc.record.version].lineage.changeType == Some(Issued))
  {
    var issued := Lineage(Some(Issued), None, None);
    ArchiveFirst(doc, Final, issued);
    NextIsNew(Archive(doc, doc.record, Current(doc), Final, issued).archive);
  }

  lemma RestorationIsLabelled(doc: Doc, t: DocType, expected: nat, from: nat, env: Env, gate: Gate)
    requires Restore(doc, t, expected, from, env, gate).Ok?
    ensures var after := Restore(doc, t, expected, from, env, gate).value;
      && CutFrom(doc, after, Lineage(Some(RestoredChange), Some(from), None))
      && after.record.status == Draft && after.record.outdatedBy == doc.record.outdatedBy
      && after.record.against == doc.record.against
  {
    ArchiveFirst(doc, doc.record.status, NO_LINEAGE);
    NextIsNew(ArchiveWorking(doc, NO_LINEAGE).archive);
  }

  /** An approval archives the version with the validation that was approved, against what
      it was written against. */
  lemma ApprovalIsArchived(doc: Doc, t: DocType, expected: nat, blocked: bool, env: Env, gate: Gate)
    requires Approve(doc, t, expected, blocked, env, gate).Ok?
    ensures var after := Approve(doc, t, expected, blocked, env, gate).value;
      && after.record == doc.record.(status := Approved, recordVersion := doc.record.recordVersion + 1)
      && doc.record.version in after.archive
      && after.archive[doc.record.version].validation == doc.record.validation
      && after.archive[doc.record.version].against == doc.record.against
  {
  }

  /* ------------------------------------------------------------- written once */

  ghost predicate Stays<T(!new)>(was: Option<T>, now: Option<T>) { was.Some? ==> now == was }

  /** No version loses a label, or takes another in its place. */
  ghost predicate LabelsStay(before: map<nat, Archived>, after: map<nat, Archived>) {
    forall v :: v in before ==>
      && v in after
      && Stays(before[v].lineage.changeType, after[v].lineage.changeType)
      && Stays(before[v].lineage.restoredFrom, after[v].lineage.restoredFrom)
      && Stays(before[v].lineage.revisedFrom, after[v].lineage.revisedFrom)
  }

  lemma ArchivingKeepsLabels(doc: Doc, record: Record, content: Content, status: Status, lineage: Lineage)
    ensures LabelsStay(doc.archive, Archive(doc, record, content, status, lineage).archive)
  {
  }

  lemma LabelsStayTwice(a: map<nat, Archived>, b: map<nat, Archived>, c: map<nat, Archived>)
    requires LabelsStay(a, b) && LabelsStay(b, c)
    ensures LabelsStay(a, c)
  {
  }

  lemma CutKeepsLabels(archived: Doc, t: DocType, next: Record, content: Content, lineage: Lineage)
    ensures LabelsStay(archived.archive, CutVersion(archived, t, next, content, lineage).archive)
  {
    var written := Write(archived.(record := next), t, next.version, content);
    ArchivingKeepsLabels(written, next, Current(written), next.status, lineage);
  }

  /** Archived first, then cut: the two writes of a generation, a reopening, a restoration. */
  lemma ArchivedThenCut(doc: Doc, status: Status, lineage: Lineage, t: DocType, next: Record, content: Content,
                        cut: Lineage)
    ensures var archived := Archive(doc, doc.record, Current(doc), status, lineage);
      LabelsStay(doc.archive, CutVersion(archived, t, next, content, cut).archive)
  {
    var archived := Archive(doc, doc.record, Current(doc), status, lineage);
    ArchivingKeepsLabels(doc, doc.record, Current(doc), status, lineage);
    CutKeepsLabels(archived, t, next, content, cut);
    LabelsStayTwice(doc.archive, archived.archive, CutVersion(archived, t, next, content, cut).archive);
  }

  lemma ApplyKeepsLabels(doc: Doc, t: DocType, op: Op, env: Env, gate: Gate)
    requires Apply(doc, t, op, env, gate).Ok?
    ensures LabelsStay(doc.archive, Apply(doc, t, op, env, gate).value.archive)
  {
    match op
    case GenerateOp(_, _) => GenerationKeepsLabels(doc, t, op, env, gate);
    case EditOp(_, _) => EditKeepsLabels(doc, t, op, env, gate);
    case ExcludeOp(_, _, _, _) => ExclusionKeepsLabels(doc, t, op, env, gate);
    case ReopenOp(expected) => ReopeningKeepsLabels(doc, t, expected, env);
    case ReviseOp(expected) => RevisionKeepsLabels(doc, t, expected, env);
    case RestoreOp(_, _) => RestorationKeepsLabels(doc, t, op, env, gate);
    case RegenerateRowsOp(_, _, _, _) => RowRewriteKeepsLabels(doc, t, op, env, gate);
    case RegenerateFeaturesOp(_, _, _, _) => FeatureRewriteKeepsLabels(doc, t, op, env, gate);
    case ApproveOp(expected, blocked) => ApprovalKeepsLabels(doc, t, expected, blocked, env, gate);
    case MarkFinalOp(expected) => IssueKeepsLabels(doc, t, expected, env);
    case _ => OthersKeepHistory(doc, t, op, env, gate);
  }

  lemma GenerationKeepsLabels(doc: Doc, t: DocType, op: Op, env: Env, gate: Gate)
    requires op.GenerateOp? && Apply(doc, t, op, env, gate).Ok?
    ensures LabelsStay(doc.archive, Apply(doc, t, op, env, gate).value.archive)
  {
    ArchivedThenCut(doc, doc.record.status, NO_LINEAGE, t, Apply(doc, t, op, env, gate).value.record,
                    Compose(op.composed, Current(doc), env.nextId), Lineage(Some(Regenerated), None, None));
  }

  lemma EditKeepsLabels(doc: Doc, t: DocType, op: Op, env: Env, gate: Gate)
    requires op.EditOp? && Apply(doc, t, op, env, gate).Ok?
    ensures LabelsStay(doc.archive, Apply(doc, t, op, env, gate).value.archive)
  {
    var edited := Overwrite(doc, doc.record.version, ApplyEdit(t, Current(doc), op.edit, env).value);
    CutKeepsLabels(edited, t, Apply(doc, t, op, env, gate).value.record,
                   CarryForward(ContentAt(edited, doc.record.version)), Lineage(ChangeTypeOf(op.edit), None, None));
  }

  lemma ExclusionKeepsLabels(doc: Doc, t: DocType, op: Op, env: Env, gate: Gate)
    requires op.ExcludeOp? && Apply(doc, t, op, env, gate).Ok?
    ensures LabelsStay(doc.archive, Apply(doc, t, op, env, gate).value.archive)
  {
    var noted := Noted(doc, op.requirementId, op.reason);
    CutKeepsLabels(noted, t, Apply(doc, t, op, env, gate).value.record,
                   CarryForward(ContentAt(noted, doc.record.version)), Lineage(None, None, None));
  }

  lemma RevisionKeepsLabels(doc: Doc, t: DocType, expected: nat, env: Env)
    requires Revise(doc, t, expected, env).Ok?
    ensures LabelsStay(doc.archive, Revise(doc, t, expected, env).value.archive)
  {
    var issued := Lineage(Some(Issued), None, None);
    ArchivingKeepsLabels(doc, doc.record, Current(doc), Final, issued);
    var archived := Archive(doc, doc.record, Current(doc), Final, issued);
    var after := Revise(doc, t, expected, env).value;
    var written := archived.(record := after.record, sections := after.sections, features := after.features);
    var cut := Lineage(Some(RevisedFromFinal), None, Some(doc.record.version));
    ArchivingKeepsLabels(written, after.record, Current(written), Draft, cut);
    LabelsStayTwice(doc.archive, archived.archive, after.archive);
  }

  lemma ReopeningKeepsLabels(doc: Doc, t: DocType, expected: nat, env: Env)
    requires Reopen(doc, t, expected, env).Ok?
    ensures LabelsStay(doc.archive, Reopen(doc, t, expected, env).value.archive)
  {
    if doc.record.status == Final {
      RevisionKeepsLabels(doc, t, expected, env);
    } else {
      ArchivedThenCut(doc, Approved, NO_LINEAGE, t, Reopen(doc, t, expected, env).value.record,
                      ReopenedContent(Current(doc), env.nextId),
                      Lineage(Some(Reopened), None, Some(doc.record.version)));
    }
  }

  lemma RestorationKeepsLabels(doc: Doc, t: DocType, op: Op, env: Env, gate: Gate)
    requires op.RestoreOp? && Apply(doc, t, op, env, gate).Ok?
    ensures LabelsStay(doc.archive, Apply(doc, t, op, env, gate).value.archive)
  {
    ArchivedThenCut(doc, doc.record.status, NO_LINEAGE, t, Apply(doc, t, op, env, gate).value.record,
                    RestoredContent(doc.archive[op.from].content, env.nextId),
                    Lineage(Some(RestoredChange), Some(op.from), None));
  }

  lemma RowRewriteKeepsLabels(doc: Doc, t: DocType, op: Op, env: Env, gate: Gate)
    requires op.RegenerateRowsOp? && Apply(doc, t, op, env, gate).Ok?
    ensures LabelsStay(doc.archive, Apply(doc, t, op, env, gate).value.archive)
  {
    ArchivingKeepsLabels(doc, doc.record, Current(doc), doc.record.status, NO_LINEAGE);
    var archived := ArchiveWorking(doc, NO_LINEAGE);
    var after := Apply(doc, t, op, env, gate).value;
    var written := archived.(record := after.record, sections := after.sections, rows := after.rows);
    ArchivingKeepsLabels(written, after.record, Current(written), Draft,
                         Lineage(Some(TargetedRegeneration), None, None));
    LabelsStayTwice(doc.archive, archived.archive, after.archive);
  }

  lemma FeatureRewriteKeepsLabels(doc: Doc, t: DocType, op: Op, env: Env, gate: Gate)
    requires op.RegenerateFeaturesOp? && Apply(doc, t, op, env, gate).Ok?
    ensures LabelsStay(doc.archive, Apply(doc, t, op, env, gate).value.archive)
  {
    ArchivingKeepsLabels(doc, doc.record, Current(doc), doc.record.status, NO_LINEAGE);
  }

  lemma ApprovalKeepsLabels(doc: Doc, t: DocType, expected: nat, blocked: bool, env: Env, gate: Gate)
    requires Approve(doc, t, expected, blocked, env, gate).Ok?
    ensures LabelsStay(doc.archive, Approve(doc, t, expected, blocked, env, gate).value.archive)
  {
    ArchivingKeepsLabels(doc, doc.record, Current(doc), Approved, NO_LINEAGE);
  }

  lemma IssueKeepsLabels(doc: Doc, t: DocType, expected: nat, env: Env)
    requires MarkFinal(doc, t, expected, env).Ok?
    ensures LabelsStay(doc.archive, MarkFinal(doc, t, expected, env).value.archive)
  {
  }

  lemma OthersKeepHistory(doc: Doc, t: DocType, op: Op, env: Env, gate: Gate)
    requires Apply(doc, t, op, env, gate).Ok? && (op.ValidateOp? || op.AcknowledgeOp? || op.CandidatesOp?)
    ensures Apply(doc, t, op, env, gate).value.archive == doc.archive
  {
  }

  /** Over every run: what a version in history says of how it was made, which version it
      was restored from and which it revises, it says for good. */
  lemma {:induction false} LineageIsWrittenOnce(p: Project, calls: seq<Call>, t: DocType)
    requires t in p
    ensures t in Run(p, calls) && LabelsStay(p[t].archive, Run(p, calls)[t].archive)
    decreases |calls|
  {
    if calls != [] {
      var call := calls[0];
      OwnStep(p, call);
      if call.t != t {
        StepTouchesOne(p, call, t);
      } else if Outcome(p, call).Ok? {
        ApplyKeepsLabels(p[t], t, call.op, call.env, GateFor(p, t, call.env.authority));
      }
      LineageIsWrittenOnce(Step(p, call), calls[1..], t);
      LabelsStayTwice(p[t].archive, Step(p, call)[t].archive, Run(p, calls)[t].archive);
    }
  }
}
