/** Bringing an earlier version back, and what the next generation leaves of it. */
module DocumentRestore {
  import opened Wrappers
  import opened DocumentTypes
  import opened DocumentContent
  import opened DocumentEngine
  import opened DocumentProject
  import opened DocumentHistory
  import opened DocumentAgreement
  import opened RowRegeneration

  /** A copy says what the original says, whatever ids and marks it carries. */
  ghost predicate SameSections(a: seq<Section>, b: seq<Section>) {
    |a| == |b| && forall i :: 0 <= i < |a| ==>
      && a[i].key == b[i].key && a[i].title == b[i].title && a[i].body == b[i].body
      && a[i].omittedReason == b[i].omittedReason && a[i].references == b[i].references
  }

  ghost predicate SameFeatures(a: seq<Feature>, b: seq<Feature>) {
    |a| == |b| && forall i :: 0 <= i < |a| ==> a[i].(id := 0, proposed := None) == b[i].(id := 0, proposed := None)
  }

  ghost predicate SameRows(a: seq<Row>, b: seq<Row>) {
    |a| == |b| && forall i :: 0 <= i < |a| ==>
      && a[i].payload == b[i].payload && a[i].attribution == b[i].attribution
      && a[i].excludedReason == b[i].excludedReason && a[i].references == b[i].references
  }

  /** Restoring copies forward: the new version says what the chosen one says, section by
      section and row by row, all of it protected, and the chosen version is left as it
      was. The only exception to the last is restoring the working version over itself
      while its live content has drifted from the archive. */
  lemma RestoreCopiesForward(doc: Doc, t: DocType, expected: nat, from: nat, env: Env, gate: Gate)
    requires Restore(doc, t, expected, from, env, gate).Ok?
    ensures from in doc.archive
    ensures var after, stored := Restore(doc, t, expected, from, env, gate).value, doc.archive[from].content;
      && after.record.version !in doc.archive && after.record.status == Draft
      && SameSections(Current(after).sections, stored.sections)
      && (forall i :: 0 <= i < |Current(after).sections| ==>
            Current(after).sections[i].origin == UserEdited && Current(after).sections[i].proposedBody == "")
      && SameFeatures(Current(after).features, stored.features)
      && (HasRows(t) ==> SameRows(Current(after).rows, stored.rows) && AllProtected(Current(after).rows))
      && from in after.archive && after.record.version in after.archive
      && after.archive[after.record.version].lineage.restoredFrom == Some(from)
      && (after.archive[from].content == stored <==> from != doc.record.version || stored == Current(doc))
  {
    ArchiveFirst(doc, doc.record.status, NO_LINEAGE);
    NextIsNew(doc.archive);
    NextIsNew(ArchiveWorking(doc, NO_LINEAGE).archive);
    RestoreCut(doc, t, expected, from, env, gate);
  }

  lemma RestoredNow(doc: Doc, t: DocType, expected: nat, from: nat, env: Env, gate: Gate)
    requires Restore(doc, t, expected, from, env, gate).Ok?
    ensures from in doc.archive
    ensures var now, copy := Current(Restore(doc, t, expected, from, env, gate).value),
                             RestoredContent(doc.archive[from].content, env.nextId);
      now.sections == copy.sections && now.features == copy.features && (HasRows(t) ==> now.rows == copy.rows)
  {
  }

  /** A restored version has no suggestion left for anybody to decide on. */
  lemma RestoredAwaitsNobody(doc: Doc, t: DocType, expected: nat, from: nat, env: Env, gate: Gate)
    requires HasRows(t) && Restore(doc, t, expected, from, env, gate).Ok?
    ensures !HasUndecided(Current(Restore(doc, t, expected, from, env, gate).value))
  {
    RestoredNow(doc, t, expected, from, env, gate);
  }

  lemma GeneratedNow(doc: Doc, t: DocType, expected: nat, composed: ComposedContent, env: Env, gate: Gate)
    requires Generate(doc, t, expected, composed, env, gate).Ok?
    ensures var now, merged := Current(Generate(doc, t, expected, composed, env, gate).value),
                               Compose(composed, Current(doc), env.nextId);
      now.sections == merged.sections && now.features == merged.features && (HasRows(t) ==> now.rows == merged.rows)
  {
  }

  /** The content after restoring a version and then generating again. */
  ghost function RestoredThenGenerated(stored: Content, restoreIds: nat, composed: ComposedContent,
                                       generateIds: nat): Content {
    Compose(composed, RestoredContent(stored, restoreIds), generateIds)
  }

  /** Restored sections come through the next generation word for word, with the new text
      only as a proposal, exactly where the composition still has their key. */
  lemma RestoredSectionKeptIff(stored: Content, restoreIds: nat, composed: ComposedContent, generateIds: nat, k: nat)
    requires DistinctSectionKeys(stored.sections) && k < |stored.sections|
    ensures var merged := RestoredThenGenerated(stored, restoreIds, composed, generateIds).sections;
      && ((exists i :: 0 <= i < |merged| && merged[i].key == stored.sections[k].key)
          <==> (exists i :: 0 <= i < |composed.sections| && composed.sections[i].key == stored.sections[k].key))
      && |merged| == |composed.sections|
      && forall i :: 0 <= i < |merged| && merged[i].key == stored.sections[k].key ==>
           merged[i].body == stored.sections[k].body && merged[i].proposedBody == composed.sections[i].body
  {
    var restored := RestoredContent(stored, restoreIds).sections;
    assert forall i :: 0 <= i < |restored| ==>
           restored[i].key == stored.sections[i].key && restored[i].body == stored.sections[i].body;
    ProtectedSectionSurvivesIff(composed.sections, restored, generateIds, k);
  }

  lemma {:induction false} AllProtectedStay(rows: seq<Row>)
    requires AllProtected(rows)
    ensures Protected(rows) == rows
  {
    if rows != [] {
      assert forall i :: 0 <= i < |rows[1..]| ==> rows[1..][i] == rows[i + 1];
      AllProtectedStay(rows[1..]);
    }
  }

  /** Every restored row comes through the next generation with its payload, and the
      composition's version of it only as a proposal: all of them if and only if the
      restored version's rows have distinct keys. */
  lemma RestoredRowsKeptIff(stored: Content, restoreIds: nat, composed: ComposedContent, generateIds: nat)
    ensures var restored, merged := RestoredContent(stored, restoreIds).rows,
                                    RestoredThenGenerated(stored, restoreIds, composed, generateIds).rows;
      && SameRows(restored, stored.rows) && AllProtected(restored)
      && (HumanRows(merged) == HumanRows(restored) <==> DistinctKeys(stored.rows))
  {
    var restored := RestoredContent(stored, restoreIds).rows;
    RestoredRowsShape(stored, restoreIds);
    AllProtectedStay(restored);
    GenerationKeepsHumansIff(composed, RestoredContent(stored, restoreIds), generateIds);
  }

  lemma GenerationKeepsHumansIff(composed: ComposedContent, previous: Content, nextId: nat)
    ensures HumanRows(Compose(composed, previous, nextId).rows) == HumanRows(previous.rows)
       <==> DistinctKeys(Protected(previous.rows))
  {
    RegenerationConservesHumansIff(composed.rows, previous.rows, nextId + |composed.sections| + |composed.features|);
  }

  lemma RestoredRowsShape(stored: Content, restoreIds: nat)
    ensures var restored := RestoredContent(stored, restoreIds).rows;
      SameRows(restored, stored.rows) && AllProtected(restored)
          && (DistinctKeys(restored) <==> DistinctKeys(stored.rows))
  {
  }

  /** The two steps as calls: a restoration, then any generation that follows it. */
  lemma RestoreThenGenerate(doc: Doc, t: DocType, expected: nat, from: nat, env: Env, gate: Gate,
                            expected': nat, composed: ComposedContent, env': Env, gate': Gate)
    requires HasRows(t) && Restore(doc, t, expected, from, env, gate).Ok?
    requires Generate(Restore(doc, t, expected, from, env, gate).value, t, expected', composed, env', gate').Ok?
    ensures from in doc.archive
    ensures var restored := Restore(doc, t, expected, from, env, gate).value;
      Current(Generate(restored, t, expected', composed, env', gate').value)
      == RestoredThenGenerated(doc.archive[from].content, env.nextId, composed, env'.nextId)
  {
    RestoredNow(doc, t, expected, from, env, gate);
    var restored := Restore(doc, t, expected, from, env, gate).value;
    GeneratedNow(restored, t, expected', composed, env', gate');
  }

  ghost predicate DistinctUnits(features: seq<Feature>) {
    forall i, j :: 0 <= i < j < |features| ==> Join(features[i].hours.unitIds) != Join(features[j].hours.unitIds)
  }

  lemma {:induction false} LastEditedFinds(features: seq<Feature>, k: nat)
    requires DistinctUnits(features) && k < |features|
    ensures LastEdited(features, Join(features[k].hours.unitIds))
         == if features[k].reviewStatus != Generated then Some(features[k]) else None
  {
    var last := |features| - 1;
    if k < last {
      assert features[..last][k] == features[k];
      LastEditedFinds(features[..last], k);
    } else {
      NotEditedBefore(features[..last], Join(features[k].hours.unitIds));
    }
  }

  lemma {:induction false} NotEditedBefore(features: seq<Feature>, unit: string)
    requires forall i :: 0 <= i < |features| ==> Join(features[i].hours.unitIds) != unit
    ensures LastEdited(features, unit) == None
  {
    if features != [] { NotEditedBefore(features[..|features| - 1], unit); }
  }

  /** Features are the part a restoration does not protect: the next generation keeps the
      restored wording of a feature exactly when somebody had edited it before the version
      was archived (or writes the very same words again). */
  lemma RestoredFeatureKeptIff(stored: Content, restoreIds: nat, composed: ComposedContent, generateIds: nat, k: nat,
                               i: nat)
    requires DistinctUnits(stored.features) && k < |stored.features| && i < |composed.features|
    requires Join(composed.features[i].hours.unitIds) == Join(stored.features[k].hours.unitIds)
    ensures var merged := RestoredThenGenerated(stored, restoreIds, composed, generateIds).features;
      && |merged| == |composed.features|
      && (merged[i].wording == stored.features[k].wording
          <==> stored.features[k].reviewStatus != Generated
               || composed.features[i].wording == stored.features[k].wording)
  {
    var restored := RestoredContent(stored, restoreIds).features;
    assert forall j :: 0 <= j < |restored| ==>
      restored[j].hours == stored.features[j].hours && restored[j].wording == stored.features[j].wording
      && restored[j].reviewStatus == stored.features[j].reviewStatus;
    LastEditedFinds(restored, k);
  }

  /* ------------------------------------------------- copies that lose something */

  /** No row and no feature is stored under a version number still to come. */
  ghost predicate UpToNow(doc: Doc) {
    && InReach(doc)
    && (forall v :: v in doc.rows ==> v <= doc.record.version)
    && (forall v :: v in doc.features ==> v <= doc.record.version)
  }

  lemma ApplyKeepsUpToNow(doc: Doc, t: DocType, op: Op, env: Env, gate: Gate)
    requires UpToNow(doc) && Apply(doc, t, op, env, gate).Ok?
    ensures UpToNow(Apply(doc, t, op, env, gate).value)
  {
    var after := Apply(doc, t, op, env, gate).value;
    NextIsNew(doc.archive);
    if Cuts(op) {
      CutAlwaysSyncs(doc, t, op, env, gate);
      CutRows(doc, t, op, env, gate);
    } else {
      StayersKeepUpToNow(doc, t, op, env, gate);
    }
  }

  lemma StayersKeepUpToNow(doc: Doc, t: DocType, op: Op, env: Env, gate: Gate)
    requires UpToNow(doc) && Apply(doc, t, op, env, gate).Ok? && !Cuts(op)
    ensures UpToNow(Apply(doc, t, op, env, gate).value)
  {
    match op
    case ApproveOp(expected, blocked) => ApprovedUpToNow(doc, t, expected, blocked, env, gate);
    case MarkFinalOp(expected) => IssuedUpToNow(doc, t, expected, env);
    case RegenerateFeaturesOp(expected, selection, sameModule, named) =>
      FeaturesUpToNow(doc, t, expected, selection, sameModule, named, env, gate);
    case _ => PutUpToNow(doc, t, op, env, gate);
  }

  lemma ApprovedUpToNow(doc: Doc, t: DocType, expected: nat, blocked: bool, env: Env, gate: Gate)
    requires UpToNow(doc) && Approve(doc, t, expected, blocked, env, gate).Ok?
    ensures UpToNow(Approve(doc, t, expected, blocked, env, gate).value)
  {
    ApproveStays(doc, t, expected, blocked, env, gate);
  }

  lemma IssuedUpToNow(doc: Doc, t: DocType, expected: nat, env: Env)
    requires UpToNow(doc) && MarkFinal(doc, t, expected, env).Ok?
    ensures UpToNow(MarkFinal(doc, t, expected, env).value)
  {
    MarkFinalStays(doc, t, expected, env);
  }

  lemma FeaturesUpToNow(doc: Doc, t: DocType, expected: nat, selection: Selection, sameModule: string -> bool,
                        named: map<string, Wording>, env: Env, gate: Gate)
    requires UpToNow(doc) && RegenerateFeatures(doc, t, expected, selection, sameModule, named, env, gate).Ok?
    ensures UpToNow(RegenerateFeatures(doc, t, expected, selection, sameModule, named, env, gate).value)
  {
    RegenerateFeaturesCut(doc, t, expected, selection, sameModule, named, env, gate);
  }

  lemma PutUpToNow(doc: Doc, t: DocType, op: Op, env: Env, gate: Gate)
    requires UpToNow(doc) && Apply(doc, t, op, env, gate).Ok?
    ensures op.ValidateOp? || op.AcknowledgeOp? || op.CandidatesOp? ==> UpToNow(Apply(doc, t, op, env, gate).value)
  {
    if op.ValidateOp? || op.AcknowledgeOp? || op.CandidatesOp? {
      assert Apply(doc, t, op, env, gate).value.archive == doc.archive;
    }
  }

  ghost predicate TablesWithin(doc: Doc, after: Doc) {
    && (forall v :: v in after.rows ==> v in doc.rows || v in {doc.record.version, after.record.version})
    && (forall v :: v in after.features ==> v in doc.features || v in {doc.record.version, after.record.version})
  }

  lemma CutRows(doc: Doc, t: DocType, op: Op, env: Env, gate: Gate)
    requires Cuts(op) && Apply(doc, t, op, env, gate).Ok?
    ensures TablesWithin(doc, Apply(doc, t, op, env, gate).value)
  {
    match op
    case GenerateOp(expected, composed) => GenerateTablesWithin(doc, t, expected, composed, env, gate);
    case EditOp(expected, edit) => EditTablesWithin(doc, t, expected, edit, env, gate);
    case RestoreOp(expected, from) => RestoreTablesWithin(doc, t, expected, from, env, gate);
    case RegenerateRowsOp(expected, selection, named, composed) =>
      RewriteTablesWithin(doc, t, expected, selection, named, composed, env, gate);
    case ExcludeOp(_, _, _, _) =>
    case ReopenOp(expected) => ReopenTablesWithin(doc, t, expected, env);
    case ReviseOp(expected) => ReviseTablesWithin(doc, t, expected, env);
  }

  lemma ReviseTablesWithin(doc: Doc, t: DocType, expected: nat, env: Env)
    requires Revise(doc, t, expected, env).Ok?
    ensures TablesWithin(doc, Revise(doc, t, expected, env).value)
  {
  }

  lemma ReopenTablesWithin(doc: Doc, t: DocType, expected: nat, env: Env)
    requires Reopen(doc, t, expected, env).Ok?
    ensures TablesWithin(doc, Reopen(doc, t, expected, env).value)
  {
    if doc.record.status == Final { ReviseTablesWithin(doc, t, expected, env); }
  }

  lemma GenerateTablesWithin(doc: Doc, t: DocType, expected: nat, composed: ComposedContent, env: Env, gate: Gate)
    requires Generate(doc, t, expected, composed, env, gate).Ok?
    ensures TablesWithin(doc, Generate(doc, t, expected, composed, env, gate).value)
  {
  }

  lemma EditTablesWithin(doc: Doc, t: DocType, expected: nat, edit: Edit, env: Env, gate: Gate)
    requires EditContent(doc, t, expected, edit, env, gate).Ok?
    ensures TablesWithin(doc, EditContent(doc, t, expected, edit, env, gate).value)
  {
  }

  lemma RestoreTablesWithin(doc: Doc, t: DocType, expected: nat, from: nat, env: Env, gate: Gate)
    requires Restore(doc, t, expected, from, env, gate).Ok?
    ensures TablesWithin(doc, Restore(doc, t, expected, from, env, gate).value)
  {
  }

  lemma RewriteTablesWithin(doc: Doc, t: DocType, expected: nat, selection: Selection, named: map<nat, Payload>,
                          composed: seq<ComposedRow>, env: Env, gate: Gate)
    requires RegenerateRows(doc, t, expected, selection, named, composed, env, gate).Ok?
    ensures TablesWithin(doc, RegenerateRows(doc, t, expected, selection, named, composed, env, gate).value)
  {
  }

  /** Over every run no document stores rows or features ahead of its version. */
  lemma {:induction false} RunKeepsUpToNow(p: Project, calls: seq<Call>, t: DocType)
    requires t in p ==> UpToNow(p[t])
    ensures t in Run(p, calls) ==> UpToNow(Run(p, calls)[t])
    decreases |calls|
  {
    if calls != [] {
      var call := calls[0];
      OwnStep(p, call);
      if call.t == t && Outcome(p, call).Ok? {
        if t in p {
          ApplyKeepsUpToNow(p[t], t, call.op, call.env, GateFor(p, t, call.env.authority));
        } else {
          FirstRows(t, call.op.composed, call.env, GateFor(p, t, call.env.authority));
        }
      } else if call.t != t && t in p {
        StepTouchesOne(p, call, t);
      }
      RunKeepsUpToNow(Step(p, call), calls[1..], t);
    }
  }

  lemma FirstRows(t: DocType, composed: ComposedContent, env: Env, gate: Gate)
    requires GenerateFirst(t, composed, env, gate).Ok?
    ensures UpToNow(GenerateFirst(t, composed, env, gate).value)
  {
  }

  /** Issuing a version and revising it gives back its sections and features but none of
      its rows: the copy is whole exactly when the issued version had no rows. */
  lemma RevisedRowsKeptIff(doc: Doc, t: DocType, expected: nat, env: Env)
    requires UpToNow(doc) && Revise(doc, t, expected, env).Ok?
    ensures var after := Revise(doc, t, expected, env).value;
      && SameSections(Current(after).sections, Current(doc).sections)
      && SameFeatures(Current(after).features, Current(doc).features)
      && (forall i :: 0 <= i < |Current(after).sections| ==>
            Current(after).sections[i].origin == UserEdited && Current(after).sections[i].proposedBody == "")
      && Current(after).rows == []
      && (SameRows(Current(after).rows, Current(doc).rows) <==> Current(doc).rows == [])
  {
    ArchiveFirst(doc, Final, Lineage(Some(Issued), None, None));
  }

  /** Reopening an approved version, by contrast, copies all three. */
  lemma ReopenedIsWhole(doc: Doc, t: DocType, expected: nat, env: Env)
    requires doc.record.status == Approved && Reopen(doc, t, expected, env).Ok?
    ensures var after := Reopen(doc, t, expected, env).value;
      && SameSections(Current(after).sections, Current(doc).sections)
      && SameFeatures(Current(after).features, Current(doc).features)
      && (forall i :: 0 <= i < |Current(doc).sections| ==>
            Current(after).sections[i].origin == Current(doc).sections[i].origin
            && Current(after).sections[i].proposedBody == "")
      && (HasRows(t) ==> SameRows(Current(after).rows, Current(doc).rows))
      && (forall i :: HasRows(t) && 0 <= i < |Current(doc).rows| ==>
            Current(after).rows[i].origin == Current(doc).rows[i].origin
            && Current(after).rows[i].proposed == Current(doc).rows[i].proposed)
  {
  }

  /** A suggested rewrite of a feature is still there, waiting for its answer. */
  ghost predicate StillProposed(before: Content, after: Content, i: nat)
    requires i < |before.features|
  {
    i < |after.features| && after.features[i].proposed == before.features[i].proposed
  }

  /** The calls that leave nobody's pending feature proposal: every cut, whatever it is
      about, and a rewrite of other features. Rewriting rows is spared where it takes the
      working version's own number again, as it does after a feature rewrite. */
  predicate DropsFeatureProposals(doc: Doc, op: Op) {
    || (Cuts(op) && !(op.RegenerateRowsOp? && doc.record.version !in doc.archive))
    || op.RegenerateFeaturesOp?
  }

  /** A pending proposal on a feature outlasts a call that does not itself rewrite that
      feature exactly when the call is none of those. */
  lemma ProposalSurvivesIff(doc: Doc, t: DocType, op: Op, env: Env, gate: Gate, i: nat)
    requires UpToNow(doc) && Apply(doc, t, op, env, gate).Ok?
    requires i < |Current(doc).features| && Current(doc).features[i].proposed.Some?
    requires op.RegenerateFeaturesOp? ==> !FeatureSelected(Current(doc).features[i], op.selection, op.sameModule)
    ensures StillProposed(Current(doc), Current(Apply(doc, t, op, env, gate).value), i)
            <==> !DropsFeatureProposals(doc, op)
  {
    match op
    case RegenerateRowsOp(expected, selection, named, composed) =>
      RewrittenRowsDropFeatures(doc, t, expected, selection, named, composed, env, gate);
    case RegenerateFeaturesOp(expected, selection, sameModule, named) =>
      RewrittenFeaturesDropProposals(doc, t, expected, selection, sameModule, named, env, gate, i);
    case _ =>
      if Cuts(op) { CutDropsProposals(doc, t, op, env, gate); } else { OthersKeepFeatures(doc, t, op, env, gate); }
  }

  lemma CutDropsProposals(doc: Doc, t: DocType, op: Op, env: Env, gate: Gate)
    requires Cuts(op) && !op.RegenerateRowsOp? && Apply(doc, t, op, env, gate).Ok?
    ensures NoFeatureProposals(Current(Apply(doc, t, op, env, gate).value))
  {
    match op
    case GenerateOp(expected, composed) => GenerateDropsProposals(doc, t, expected, composed, env, gate);
    case EditOp(expected, edit) => EditDropsProposals(doc, t, expected, edit, env, gate);
    case ExcludeOp(expected, requirementId, reason, known) =>
      ExcludeDropsProposals(doc, t, expected, requirementId, reason, known, gate);
    case ReopenOp(expected) => ReopenDropsProposals(doc, t, expected, env);
    case ReviseOp(expected) => ReopenDropsProposals(doc, t, expected, env);
    case RestoreOp(expected, from) => RestoreDropsProposals(doc, t, expected, from, env, gate);
  }

  ghost predicate NoFeatureProposals(content: Content) {
    forall i :: 0 <= i < |content.features| ==> content.features[i].proposed == None
  }

  lemma GenerateDropsProposals(doc: Doc, t: DocType, expected: nat, composed: ComposedContent, env: Env, gate: Gate)
    requires Generate(doc, t, expected, composed, env, gate).Ok?
    ensures NoFeatureProposals(Current(Generate(doc, t, expected, composed, env, gate).value))
  {
    GeneratedNow(doc, t, expected, composed, env, gate);
  }

  lemma EditDropsProposals(doc: Doc, t: DocType, expected: nat, edit: Edit, env: Env, gate: Gate)
    requires EditContent(doc, t, expected, edit, env, gate).Ok?
    ensures NoFeatureProposals(Current(EditContent(doc, t, expected, edit, env, gate).value))
  {
  }

  lemma ExcludeDropsProposals(doc: Doc, t: DocType, expected: nat, requirementId: string, reason: string, known: bool,
                              gate: Gate)
    requires ExcludeRequirement(doc, t, expected, requirementId, reason, known, gate).Ok?
    ensures NoFeatureProposals(Current(ExcludeRequirement(doc, t, expected, requirementId, reason, known, gate).value))
  {
  }

  lemma ReopenDropsProposals(doc: Doc, t: DocType, expected: nat, env: Env)
    ensures Revise(doc, t, expected, env).Ok? ==> NoFeatureProposals(Current(Revise(doc, t, expected, env).value))
    ensures Reopen(doc, t, expected, env).Ok? ==> NoFeatureProposals(Current(Reopen(doc, t, expected, env).value))
  {
  }

  lemma RestoreDropsProposals(doc: Doc, t: DocType, expected: nat, from: nat, env: Env, gate: Gate)
    requires Restore(doc, t, expected, from, env, gate).Ok?
    ensures NoFeatureProposals(Current(Restore(doc, t, expected, from, env, gate).value))
  {
    RestoredNow(doc, t, expected, from, env, gate);
  }

  /** A row rewrite copies no features: a new number starts with none, an old one keeps its own. */
  lemma RewrittenRowsDropFeatures(doc: Doc, t: DocType, expected: nat, selection: Selection, named: map<nat, Payload>,
                                  composed: seq<ComposedRow>, env: Env, gate: Gate)
    requires UpToNow(doc) && RegenerateRows(doc, t, expected, selection, named, composed, env, gate).Ok?
    ensures Current(RegenerateRows(doc, t, expected, selection, named, composed, env, gate).value).features
         == if doc.record.version in doc.archive then [] else Current(doc).features
  {
    NextIsNew(doc.archive);
  }

  lemma RewrittenFeaturesDropProposals(doc: Doc, t: DocType, expected: nat, selection: Selection,
                                       sameModule: string -> bool,
                                       named: map<string, Wording>, env: Env, gate: Gate, i: nat)
    requires RegenerateFeatures(doc, t, expected, selection, sameModule, named, env, gate).Ok?
    requires i < |Current(doc).features| && !FeatureSelected(Current(doc).features[i], selection, sameModule)
    ensures var after := Current(RegenerateFeatures(doc, t, expected, selection, sameModule, named, env, gate).value);
      i < |after.features| && after.features[i].proposed == None
  {
  }

  lemma OthersKeepFeatures(doc: Doc, t: DocType, op: Op, env: Env, gate: Gate)
    requires Apply(doc, t, op, env, gate).Ok? && !Cuts(op) && !op.RegenerateFeaturesOp?
    ensures Current(Apply(doc, t, op, env, gate).value).features == Current(doc).features
  {
  }

  /** What an edit of a feature carries on, by contrast: the suggestions on every section
      and every row. */
  lemma FeatureEditKeepsOtherProposals(doc: Doc, t: DocType, expected: nat, edit: Edit, env: Env, gate: Gate)
    requires EditContent(doc, t, expected, edit, env, gate).Ok? && (edit.UpdateFeature? || edit.ResolveFeature?)
    ensures var after := Current(EditContent(doc, t, expected, edit, env, gate).value);
      && |after.sections| == |Current(doc).sections| && (HasRows(t) ==> after.rows == Current(doc).rows)
      && forall i :: 0 <= i < |after.sections| ==>
           after.sections[i].proposedBody == Current(doc).sections[i].proposedBody
  {
  }
}
