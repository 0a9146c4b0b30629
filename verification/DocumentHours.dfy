/** Hours come from the estimate: no edit inside a document can change one. */
module DocumentHours {
  import opened Wrappers
  import opened DocumentTypes
  import opened DocumentContent
  import opened DocumentEngine
  import opened DocumentProject
  import opened DocumentHistory

  ghost function HoursNow(doc: Doc): seq<Hours> { HoursOf(Current(doc).features) }

  lemma SameHours(a: seq<Feature>, b: seq<Feature>)
    requires |a| == |b| && forall i :: 0 <= i < |a| ==> a[i].hours == b[i].hours
    ensures HoursOf(a) == HoursOf(b)
  {
  }

  lemma EditKeepsHours(doc: Doc, t: DocType, expected: nat, edit: Edit, env: Env, gate: Gate)
    requires EditContent(doc, t, expected, edit, env, gate).Ok?
    ensures HoursNow(EditContent(doc, t, expected, edit, env, gate).value) == HoursNow(doc)
  {
    var content := ApplyEdit(t, Current(doc), edit, env).value;
    EditedFeatures(Current(doc), t, edit, env);
    SameHours(content.features, Current(doc).features);
    var after := EditContent(doc, t, expected, edit, env, gate).value;
    assert Current(after).features == CarryForward(content).features;
    SameHours(CarryForward(content).features, content.features);
  }

  lemma EditedFeatures(content: Content, t: DocType, edit: Edit, env: Env)
    requires ApplyEdit(t, content, edit, env).Ok?
    ensures var edited := ApplyEdit(t, content, edit, env).value.features;
      |edited| == |content.features| && forall i :: 0 <= i < |edited| ==> edited[i].hours == content.features[i].hours
  {
    if edit.UpdateFeature? || edit.ResolveFeature? {
      IndexOfFinds(FeatureIdsOf(content.features), edit.featureId);
      var at := IndexOf(FeatureIdsOf(content.features), edit.featureId).value;
      assert EditFeature(content.features[at], edit).value.hours == content.features[at].hours;
    } else {
      assert ApplyEdit(t, content, edit, env).value.features == content.features;
    }
  }

  /** Every call but three hands the hours on, row by row and in order. */
  lemma ApplyKeepsHours(doc: Doc, t: DocType, op: Op, env: Env, gate: Gate)
    requires Apply(doc, t, op, env, gate).Ok?
    requires !op.GenerateOp? && !op.RestoreOp? && !op.RegenerateRowsOp?
    ensures HoursNow(Apply(doc, t, op, env, gate).value) == HoursNow(doc)
  {
    match op
    case EditOp(expected, edit) => EditKeepsHours(doc, t, expected, edit, env, gate);
    case RegenerateFeaturesOp(expected, selection, sameModule, named) =>
      RewriteKeepsHours(doc, t, expected, selection, sameModule, named, env, gate);
    case ReopenOp(expected) => ReopenKeepsHours(doc, t, expected, env);
    case ReviseOp(expected) => ReopenKeepsHours(doc, t, expected, env);
    case _ => OthersKeepHours(doc, t, op, env, gate);
  }

  lemma RewriteKeepsHours(doc: Doc, t: DocType, expected: nat, selection: Selection, sameModule: string -> bool,
                          named: map<string, Wording>, env: Env, gate: Gate)
    requires RegenerateFeatures(doc, t, expected, selection, sameModule, named, env, gate).Ok?
    ensures HoursNow(RegenerateFeatures(doc, t, expected, selection, sameModule, named, env, gate).value)
            == HoursNow(doc)
  {
    var after := RegenerateFeatures(doc, t, expected, selection, sameModule, named, env, gate).value;
    SameHours(Current(after).features, Current(doc).features);
  }

  lemma ReopenKeepsHours(doc: Doc, t: DocType, expected: nat, env: Env)
    ensures Reopen(doc, t, expected, env).Ok? ==> HoursNow(Reopen(doc, t, expected, env).value) == HoursNow(doc)
    ensures Revise(doc, t, expected, env).Ok? ==> HoursNow(Revise(doc, t, expected, env).value) == HoursNow(doc)
  {
    var features := Current(doc).features;
    SameHours(CopyFeatures(features, FeatureIds(env.nextId, Current(doc))), features);
  }

  lemma OthersKeepHours(doc: Doc, t: DocType, op: Op, env: Env, gate: Gate)
    requires Apply(doc, t, op, env, gate).Ok?
    requires op.ExcludeOp? || op.ValidateOp? || op.AcknowledgeOp? || op.ApproveOp? || op.MarkFinalOp?
             || op.CandidatesOp?
    ensures HoursNow(Apply(doc, t, op, env, gate).value) == HoursNow(doc)
  {
    if op.ExcludeOp? {
      SameHours(CarryForward(Current(doc)).features, Current(doc).features);
    }
  }

  /** Generation sets the hours to exactly the composed ones, whatever was edited before. */
  lemma GenerateSetsHours(doc: Doc, t: DocType, expected: nat, composed: ComposedContent, env: Env, gate: Gate)
    requires Generate(doc, t, expected, composed, env, gate).Ok?
    ensures HoursNow(Generate(doc, t, expected, composed, env, gate).value) == ComposedHours(composed.features)
  {
  }

  lemma FirstGenerateSetsHours(t: DocType, composed: ComposedContent, env: Env, gate: Gate)
    requires GenerateFirst(t, composed, env, gate).Ok?
    ensures HoursNow(GenerateFirst(t, composed, env, gate).value) == ComposedHours(composed.features)
  {
  }

  lemma RestoreSetsHours(doc: Doc, t: DocType, expected: nat, from: nat, env: Env, gate: Gate)
    requires Restore(doc, t, expected, from, env, gate).Ok?
    ensures from in doc.archive
    ensures HoursNow(Restore(doc, t, expected, from, env, gate).value) == HoursOf(doc.archive[from].content.features)
  {
    var after := Restore(doc, t, expected, from, env, gate).value;
    SameHours(Current(after).features, doc.archive[from].content.features);
  }

  /* ------------------------------------------------------------- over whole runs */

  /** No call of the run generates, restores or rewrites rows of this document. */
  predicate OnlyEdits(calls: seq<Call>, t: DocType) {
    forall i :: 0 <= i < |calls| && calls[i].t == t ==>
      !(calls[i].op.GenerateOp? || calls[i].op.RestoreOp? || calls[i].op.RegenerateRowsOp?)
  }

  /** Hours are conserved over whole runs, in order and row by row. */
  lemma {:induction false} HoursConserved(p: Project, calls: seq<Call>, t: DocType)
    requires t in p && OnlyEdits(calls, t)
    ensures t in Run(p, calls) && HoursNow(Run(p, calls)[t]) == HoursNow(p[t])
    decreases |calls|
  {
    if calls != [] {
      var call := calls[0];
      OwnStep(p, call);
      if call.t != t {
        StepTouchesOne(p, call, t);
      } else if Outcome(p, call).Ok? {
        ApplyKeepsHours(p[t], t, call.op, call.env, GateFor(p, t, call.env.authority));
      }
      assert forall i :: 0 <= i < |calls[1..]| ==> calls[1..][i] == calls[i + 1];
      HoursConserved(Step(p, call), calls[1..], t);
    }
  }

  /** The hours some generation of this document composed. */
  ghost predicate WasComposed(calls: seq<Call>, t: DocType, hours: seq<Hours>) {
    exists i :: 0 <= i < |calls| && calls[i].t == t && calls[i].op.GenerateOp?
      && ComposedHours(calls[i].op.composed.features) == hours
  }

  /** Every listing the document shows, now or in history, was composed in full. */
  ghost predicate ListingsComposed(doc: Doc, t: DocType, past: seq<Call>) {
    && WasComposed(past, t, HoursNow(doc))
    && forall v :: v in doc.archive ==> WasComposed(past, t, HoursOf(doc.archive[v].content.features))
  }

  /** History takes in nothing but the working version, before the call or after it. */
  ghost predicate OnlyTakesIn(doc: Doc, after: Doc) {
    forall v :: v in after.archive ==>
      || (v in doc.archive && after.archive[v].content == doc.archive[v].content)
      || after.archive[v].content == Current(doc) || after.archive[v].content == Current(after)
  }

  lemma ApplyTakesIn(doc: Doc, t: DocType, op: Op, env: Env, gate: Gate)
    requires Apply(doc, t, op, env, gate).Ok?
    ensures OnlyTakesIn(doc, Apply(doc, t, op, env, gate).value)
  {
    match op
    case GenerateOp(expected, composed) => GenerateTakesIn(doc, t, expected, composed, env, gate);
    case EditOp(expected, edit) => EditTakesIn(doc, t, expected, edit, env, gate);
    case ExcludeOp(expected, requirementId, reason, known) =>
      ExcludeTakesIn(doc, t, expected, requirementId, reason, known, gate);
    case ReopenOp(expected) => ReopenTakesIn(doc, t, expected, env);
    case ReviseOp(expected) => ReviseTakesIn(doc, t, expected, env);
    case RestoreOp(expected, from) => RestoreTakesIn(doc, t, expected, from, env, gate);
    case RegenerateRowsOp(expected, selection, named, composed) =>
      RowsTakeIn(doc, t, expected, selection, named, composed, env, gate);
    case RegenerateFeaturesOp(expected, selection, sameModule, named) =>
      FeaturesTakeIn(doc, t, expected, selection, sameModule, named, env, gate);
    case _ => StayersTakeIn(doc, t, op, env, gate);
  }

  lemma StayersTakeIn(doc: Doc, t: DocType, op: Op, env: Env, gate: Gate)
    requires Apply(doc, t, op, env, gate).Ok?
    ensures op.ValidateOp? || op.AcknowledgeOp? || op.ApproveOp? || op.MarkFinalOp? || op.CandidatesOp? ==>
              OnlyTakesIn(doc, Apply(doc, t, op, env, gate).value)
  {
    if op.ApproveOp? { ApproveTakesIn(doc, t, op.expected, op.blocked, env, gate); }
  }

  lemma ApproveTakesIn(doc: Doc, t: DocType, expected: nat, blocked: bool, env: Env, gate: Gate)
    requires Approve(doc, t, expected, blocked, env, gate).Ok?
    ensures OnlyTakesIn(doc, Approve(doc, t, expected, blocked, env, gate).value)
  {
  }

  lemma GenerateTakesIn(doc: Doc, t: DocType, expected: nat, composed: ComposedContent, env: Env, gate: Gate)
    requires Generate(doc, t, expected, composed, env, gate).Ok?
    ensures OnlyTakesIn(doc, Generate(doc, t, expected, composed, env, gate).value)
  {
  }

  lemma EditTakesIn(doc: Doc, t: DocType, expected: nat, edit: Edit, env: Env, gate: Gate)
    requires EditContent(doc, t, expected, edit, env, gate).Ok?
    ensures OnlyTakesIn(doc, EditContent(doc, t, expected, edit, env, gate).value)
  {
  }

  lemma ExcludeTakesIn(doc: Doc, t: DocType, expected: nat, requirementId: string, reason: string, known: bool,
                       gate: Gate)
    requires ExcludeRequirement(doc, t, expected, requirementId, reason, known, gate).Ok?
    ensures OnlyTakesIn(doc, ExcludeRequirement(doc, t, expected, requirementId, reason, known, gate).value)
  {
  }

  lemma ReopenTakesIn(doc: Doc, t: DocType, expected: nat, env: Env)
    ensures Reopen(doc, t, expected, env).Ok? ==> OnlyTakesIn(doc, Reopen(doc, t, expected, env).value)
  {
    if doc.record.status == Final { ReviseTakesIn(doc, t, expected, env); }
  }

  lemma ReviseTakesIn(doc: Doc, t: DocType, expected: nat, env: Env)
    ensures Revise(doc, t, expected, env).Ok? ==> OnlyTakesIn(doc, Revise(doc, t, expected, env).value)
  {
  }

  lemma RestoreTakesIn(doc: Doc, t: DocType, expected: nat, from: nat, env: Env, gate: Gate)
    requires Restore(doc, t, expected, from, env, gate).Ok?
    ensures OnlyTakesIn(doc, Restore(doc, t, expected, from, env, gate).value)
  {
  }

  lemma RowsTakeIn(doc: Doc, t: DocType, expected: nat, selection: Selection, named: map<nat, Payload>,
                   composed: seq<ComposedRow>, env: Env, gate: Gate)
    requires RegenerateRows(doc, t, expected, selection, named, composed, env, gate).Ok?
    ensures OnlyTakesIn(doc, RegenerateRows(doc, t, expected, selection, named, composed, env, gate).value)
  {
  }

  lemma FeaturesTakeIn(doc: Doc, t: DocType, expected: nat, selection: Selection, sameModule: string -> bool,
                       named: map<string, Wording>, env: Env, gate: Gate)
    requires RegenerateFeatures(doc, t, expected, selection, sameModule, named, env, gate).Ok?
    ensures OnlyTakesIn(doc, RegenerateFeatures(doc, t, expected, selection, sameModule, named, env, gate).value)
  {
  }

  lemma ComposedOnApply(doc: Doc, t: DocType, op: Op, env: Env, gate: Gate, past: seq<Call>)
    requires !HasRows(t) && ListingsComposed(doc, t, past)
    requires Apply(doc, t, op, env, gate).Ok?
    requires op.GenerateOp? ==> WasComposed(past, t, ComposedHours(op.composed.features))
    ensures ListingsComposed(Apply(doc, t, op, env, gate).value, t, past)
  {
    ApplyTakesIn(doc, t, op, env, gate);
    match op
    case GenerateOp(expected, composed) => GenerateSetsHours(doc, t, expected, composed, env, gate);
    case RestoreOp(expected, from) => RestoreSetsHours(doc, t, expected, from, env, gate);
    case RegenerateRowsOp(_, _, _, _) => assert false;
    case _ => ApplyKeepsHours(doc, t, op, env, gate);
  }

  lemma FirstIsComposed(t: DocType, composed: ComposedContent, env: Env, gate: Gate, past: seq<Call>)
    requires GenerateFirst(t, composed, env, gate).Ok? && WasComposed(past, t, ComposedHours(composed.features))
    ensures ListingsComposed(GenerateFirst(t, composed, env, gate).value, t, past)
  {
    FirstGenerateSetsHours(t, composed, env, gate);
  }

  lemma PastGrows(doc: Doc, t: DocType, past: seq<Call>, call: Call)
    requires ListingsComposed(doc, t, past)
    ensures ListingsComposed(doc, t, past + [call])
  {
    forall hours | WasComposed(past, t, hours) ensures WasComposed(past + [call], t, hours) {
      var i :| 0 <= i < |past| && past[i].t == t && past[i].op.GenerateOp?
               && ComposedHours(past[i].op.composed.features) == hours;
      assert (past + [call])[i] == past[i];
    }
  }

  lemma StepListings(p: Project, past: seq<Call>, call: Call, t: DocType)
    requires !HasRows(t) && (t in p ==> ListingsComposed(p[t], t, past))
    ensures t in Step(p, call) ==> ListingsComposed(Step(p, call)[t], t, past + [call])
  {
    OwnStep(p, call);
    if t in p { PastGrows(p[t], t, past, call); }
    if call.t == t && Outcome(p, call).Ok? {
      if call.op.GenerateOp? { assert (past + [call])[|past|] == call; }
      if t in p {
        ComposedOnApply(p[t], t, call.op, call.env, GateFor(p, t, call.env.authority), past + [call]);
      } else {
        FirstIsComposed(t, call.op.composed, call.env, GateFor(p, t, call.env.authority), past + [call]);
      }
    } else if call.t != t && t in p {
      StepTouchesOne(p, call, t);
    }
  }

  /** Over every run of calls, from a project where the document does not exist yet: every
      listing it shows, and every one in its history, has row for row the hours of one of
      the compositions the run brought. No edit, proposal, rewrite, restoration, reopening
      or revision in between can have changed one, dropped one or mixed two listings. */
  lemma {:induction false} HoursComeFromCompositions(p: Project, past: seq<Call>, calls: seq<Call>, t: DocType)
    requires !HasRows(t) && (t in p ==> ListingsComposed(p[t], t, past))
    ensures t in Run(p, calls) ==> ListingsComposed(Run(p, calls)[t], t, past + calls)
    decreases |calls|
  {
    if calls == [] {
      assert past + calls == past;
    } else {
      StepListings(p, past, calls[0], t);
      assert past + calls == (past + [calls[0]]) + calls[1..];
      HoursComeFromCompositions(Step(p, calls[0]), past + [calls[0]], calls[1..], t);
    }
  }
}
