/** The archive and the working version: which calls keep them in step, and what a new
    version number promises. */
module DocumentAgreement {
  import opened Wrappers
  import opened DocumentTypes
  import opened DocumentContent
  import opened DocumentEngine
  import opened DocumentHistory

  /** The calls that put content under a new number and archive it there. */
  predicate Cuts(op: Op) {
    op.GenerateOp? || op.EditOp? || op.ExcludeOp? || op.ReopenOp? || op.ReviseOp? || op.RestoreOp?
        || op.RegenerateRowsOp?
  }

  /** A cut synchronises: whatever the state before, the new version is the newest in
      history and archived as it stands, and no archived version is renumbered or lost. */
  lemma CutAlwaysSyncs(doc: Doc, t: DocType, op: Op, env: Env, gate: Gate)
    requires Cuts(op) && InReach(doc) && Apply(doc, t, op, env, gate).Ok?
    ensures CleanCut(doc, !(op.EditOp? || op.ExcludeOp?), Apply(doc, t, op, env, gate).value)
  {
    match op
    case GenerateOp(expected, composed) => GenerateCut(doc, t, expected, composed, env, gate);
    case EditOp(expected, edit) => EditCut(doc, t, expected, edit, env, gate);
    case ExcludeOp(expected, requirementId, reason, known) =>
      ExcludeCut(doc, t, expected, requirementId, reason, known, gate);
    case ReopenOp(expected) =>
      if doc.record.status == Final { ReviseCut(doc, t, expected, env); } else { ReopenCut(doc, t, expected, env); }
    case ReviseOp(expected) => ReviseCut(doc, t, expected, env);
    case RestoreOp(expected, from) => RestoreCut(doc, t, expected, from, env, gate);
    case RegenerateRowsOp(expected, selection, named, composed) =>
      RegenerateRowsCut(doc, t, expected, selection, named, composed, env, gate);
  }

  /** From a synchronised state every cut is a strictly larger version, and the version it
      leaves still holds, in history, the content from before the call: an edit changes the
      live rows first, and history has the earlier words all the same. */
  lemma CutPreservesThePast(doc: Doc, t: DocType, op: Op, env: Env, gate: Gate)
    requires Cuts(op) && Synced(doc) && Apply(doc, t, op, env, gate).Ok?
    ensures var after := Apply(doc, t, op, env, gate).value;
      && Synced(after) && after.record.version > doc.record.version
      && doc.record.version in after.archive && after.archive[doc.record.version].content == Current(doc)
  {
    CutAlwaysSyncs(doc, t, op, env, gate);
  }

  /** Exactly which calls break the agreement between history and the working version. */
  lemma AgreementKeptIff(doc: Doc, t: DocType, op: Op, env: Env, gate: Gate)
    requires Synced(doc) && Apply(doc, t, op, env, gate).Ok?
    ensures InReach(Apply(doc, t, op, env, gate).value)
    ensures Synced(Apply(doc, t, op, env, gate).value)
       <==> !(op.RegenerateFeaturesOp? || (op.CandidatesOp? && op.candidates != []))
  {
    var after := Apply(doc, t, op, env, gate).value;
    if Cuts(op) {
      CutAlwaysSyncs(doc, t, op, env, gate);
    } else {
      match op
      case ApproveOp(expected, blocked) => ApproveStays(doc, t, expected, blocked, env, gate);
      case MarkFinalOp(expected) => MarkFinalStays(doc, t, expected, env);
      case RegenerateFeaturesOp(expected, selection, sameModule, named) =>
        RegenerateFeaturesCut(doc, t, expected, selection, sameModule, named, env, gate);
        NextIsNew(after.archive);
      case CandidatesOp(expected, candidates) =>
        assert candidates != [] ==> |Current(after).rows| == |Current(doc).rows| + |candidates|;
      case ValidateOp(_) => assert after.archive == doc.archive && Current(after) == Current(doc);
      case AcknowledgeOp(_, _) => assert after.archive == doc.archive && Current(after) == Current(doc);
      case _ =>
    }
  }

  /** What the break costs. Rewriting features leaves a version that is in no archive; the
      next edit takes the same number again, and history never holds the rewritten words:
      it goes from the version before them straight to the version after the edit. */
  lemma EditAfterRewriteReusesNumber(doc: Doc, t: DocType, rewrite: Op, env: Env, gate: Gate,
                                     edit: Op, editEnv: Env, editGate: Gate)
    requires rewrite.RegenerateFeaturesOp? && (edit.EditOp? || edit.ExcludeOp?)
    requires Apply(doc, t, rewrite, env, gate).Ok?
    requires Apply(Apply(doc, t, rewrite, env, gate).value, t, edit, editEnv, editGate).Ok?
    ensures var rewritten := Apply(doc, t, rewrite, env, gate).value;
      var edited := Apply(rewritten, t, edit, editEnv, editGate).value;
      && rewritten.record.version !in rewritten.archive
      && edited.record.version == rewritten.record.version
      && edited.archive == rewritten.archive[edited.record.version := edited.archive[edited.record.version]]
      && edited.archive[edited.record.version].content == Current(edited)
  {
    var rewritten := Apply(doc, t, rewrite, env, gate).value;
    RegenerateFeaturesCut(doc, t, rewrite.expected, rewrite.selection, rewrite.sameModule, rewrite.named, env, gate);
    NextIsNew(rewritten.archive);
    if edit.EditOp? {
      EditCut(rewritten, t, edit.expected, edit.edit, editEnv, editGate);
      EditNumber(rewritten, t, edit.expected, edit.edit, editEnv, editGate);
    } else {
      ExcludeCut(rewritten, t, edit.expected, edit.requirementId, edit.reason, edit.known, editGate);
    }
  }

  lemma EditNumber(doc: Doc, t: DocType, expected: nat, edit: Edit, env: Env, gate: Gate)
    requires EditContent(doc, t, expected, edit, env, gate).Ok?
    ensures var after := EditContent(doc, t, expected, edit, env, gate).value;
      after.record.version == NextVersion(doc.archive)
      && after.archive == doc.archive[after.record.version := after.archive[after.record.version]]
  {
  }
}
