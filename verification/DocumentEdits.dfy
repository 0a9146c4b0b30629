/** What an edit writes: the words of the one section, feature or row it names, and that
    everything else says what it said. */
module DocumentEdits {
  import opened Wrappers
  import opened OrderedMap
  import opened DocumentTypes
  import opened DocumentContent
  import opened DocumentEngine
  import opened DocumentHistory
  import opened RowRegeneration
  import opened DocumentGeneration

  /* ---------------------------------------------------- what an edit leaves alone */

  /** Sections but one, as the version an edit cuts has them. */
  ghost predicate SectionsKept(before: seq<Section>, after: seq<Section>, but: int) {
    |after| == |before|
    && forall i :: 0 <= i < |before| && i != but ==> after[i] == before[i].(regenerationReason := "")
  }

  ghost predicate FeaturesKept(before: seq<Feature>, after: seq<Feature>, but: int) {
    |after| == |before| && forall i :: 0 <= i < |before| && i != but ==> after[i] == before[i].(proposed := None)
  }

  ghost predicate RowsKept(before: seq<Row>, after: seq<Row>, but: int) {
    |after| == |before| && forall i :: 0 <= i < |before| && i != but ==> after[i] == before[i]
  }

  const NOT_ONE := -1

  lemma {:induction false} IndexOfFirst(ids: seq<nat>, id: nat)
    ensures match IndexOf(ids, id)
            case None => id !in ids
            case Some(i) => i < |ids| && ids[i] == id && forall j :: 0 <= j < i ==> ids[j] != id
  {
    if ids != [] { IndexOfFirst(ids[1..], id); }
  }

  /** The edited content as the cut leaves it, unless the document lists no rows. */
  lemma EditedNow(doc: Doc, t: DocType, expected: nat, edit: Edit, env: Env, gate: Gate)
    requires EditContent(doc, t, expected, edit, env, gate).Ok?
    ensures ApplyEdit(t, Current(doc), edit, env).Ok?
    ensures var after, edited := Current(EditContent(doc, t, expected, edit, env, gate).value),
                                 ApplyEdit(t, Current(doc), edit, env).value;
      && |after.sections| == |edited.sections| && |after.features| == |edited.features|
      && (forall i :: 0 <= i < |after.sections| ==>
            after.sections[i] == edited.sections[i].(regenerationReason := ""))
      && (forall i :: 0 <= i < |after.features| ==> after.features[i] == edited.features[i].(proposed := None))
      && (HasRows(t) ==> after.rows == edited.rows)
  {
  }

  /* ---------------------------------------------------------------- sections */

  /** A section after a person, or a targeted regeneration, has dealt with it. */
  ghost predicate SectionEditedBy(edit: Edit, was: Section, now: Section) {
    && now.id == was.id && now.key == was.key && now.references == was.references
    && now.omittedReason == was.omittedReason && now.regenerationReason == ""
    && match edit
       case UpdateSection(_, title, body) =>
         && now.body == body && now.title == (if title == "" then was.title else title)
         && now.origin != Generated && (now.origin == UserAuthored <==> IsBlank(was.body))
         && now.proposedBody == ""
       case RegenerateSection(_, body, _) =>
         && now.title == was.title && now.origin == was.origin
         && (was.origin == Generated ==> now.body == body && now.proposedBody == was.proposedBody)
         && (was.origin != Generated ==> now.body == was.body && now.proposedBody == body)
       case ResolveSection(_, decision) =>
         && was.proposedBody != "" && now.proposedBody == "" && now.title == was.title && now.origin == UserEdited
         && (decision.Keep? ==> now.body == was.body)
         && (decision.Accept? ==> now.body == was.proposedBody)
         && (decision.EditTo? ==> now.body == decision.value)
       case _ => false
  }

  predicate EditsSection(edit: Edit) { edit.UpdateSection? || edit.RegenerateSection? || edit.ResolveSection? }

  lemma EditedSection(t: DocType, content: Content, edit: Edit, env: Env) returns (i: int)
    requires EditsSection(edit) && ApplyEdit(t, content, edit, env).Ok?
    ensures 0 <= i < |content.sections| && content.sections[i].id == edit.sectionId
    ensures forall j :: 0 <= j < i ==> content.sections[j].id != edit.sectionId
    ensures EditSection(content.sections[i], edit).Ok?
    ensures ApplyEdit(t, content, edit, env).value
         == content.(sections := content.sections[i := EditSection(content.sections[i], edit).value])
  {
    var ids := SectionIds(content.sections);
    IndexOfFirst(ids, edit.sectionId);
    i := IndexOf(ids, edit.sectionId).value;
    forall j | 0 <= j < i ensures content.sections[j].id != edit.sectionId { assert ids[j] != edit.sectionId; }
  }

  /** An edit of a section leaves in it what was asked for: the words written; the words
      regenerated, as its body or as a proposal by whose section it is; the words decided
      on. Nothing else of the document says anything new. */
  lemma SectionEditWrites(doc: Doc, t: DocType, expected: nat, edit: Edit, env: Env, gate: Gate) returns (i: int)
    requires EditsSection(edit) && EditContent(doc, t, expected, edit, env, gate).Ok?
    ensures var before, after := Current(doc), Current(EditContent(doc, t, expected, edit, env, gate).value);
      && SectionsKept(before.sections, after.sections, i) && FeaturesKept(before.features, after.features, NOT_ONE)
      && (HasRows(t) ==> after.rows == before.rows)
      && 0 <= i < |before.sections| && before.sections[i].id == edit.sectionId
      && (forall j :: 0 <= j < i ==> before.sections[j].id != edit.sectionId)
      && SectionEditedBy(edit, before.sections[i], after.sections[i])
  {
    EditedNow(doc, t, expected, edit, env, gate);
    i := EditedSection(t, Current(doc), edit, env);
  }

  /* ---------------------------------------------------------------- features */

  ghost predicate SaysOver(base: Wording, change: WordingChange, now: Wording) {
    && now.module_ == (if change.module_.Some? then change.module_.value else base.module_)
    && now.submodule == (if change.submodule.Some? then change.submodule.value else base.submodule)
    && now.screen == (if change.screen.Some? then change.screen.value else base.screen)
    && now.description == (if change.description.Some? then change.description.value else base.description)
  }

  /** A feature after a person has dealt with it: no hours, units or requirements move. */
  ghost predicate FeatureEditedBy(edit: Edit, was: Feature, now: Feature) {
    && now == was.(wording := now.wording, notes := now.notes, reviewStatus := UserEdited, proposed := None)
    && match edit
       case UpdateFeature(_, change, notes) =>
         SaysOver(was.wording, change, now.wording) && now.notes == (if notes.Some? then notes.value else was.notes)
       case ResolveFeature(_, decision) =>
         && was.proposed.Some? && now.notes == was.notes
         && (decision.Keep? ==> now.wording == was.wording)
         && (decision.Accept? ==> now.wording == was.proposed.value)
         && (decision.EditTo? ==> SaysOver(was.proposed.value, decision.value, now.wording))
       case _ => false
  }

  predicate EditsFeature(edit: Edit) { edit.UpdateFeature? || edit.ResolveFeature? }

  lemma EditedFeature(t: DocType, content: Content, edit: Edit, env: Env) returns (i: int)
    requires EditsFeature(edit) && ApplyEdit(t, content, edit, env).Ok?
    ensures 0 <= i < |content.features| && content.features[i].id == edit.featureId
    ensures forall j :: 0 <= j < i ==> content.features[j].id != edit.featureId
    ensures EditFeature(content.features[i], edit).Ok?
    ensures ApplyEdit(t, content, edit, env).value
         == content.(features := content.features[i := EditFeature(content.features[i], edit).value])
  {
    var ids := FeatureIdsOf(content.features);
    IndexOfFirst(ids, edit.featureId);
    i := IndexOf(ids, edit.featureId).value;
    forall j | 0 <= j < i ensures content.features[j].id != edit.featureId { assert ids[j] != edit.featureId; }
  }

  /** An edit of a feature leaves in it the wording and notes asked for or decided on, and
      nothing else of the document says anything new. */
  lemma FeatureEditWrites(doc: Doc, t: DocType, expected: nat, edit: Edit, env: Env, gate: Gate) returns (i: int)
    requires EditsFeature(edit) && EditContent(doc, t, expected, edit, env, gate).Ok?
    ensures var before, after := Current(doc), Current(EditContent(doc, t, expected, edit, env, gate).value);
      && SectionsKept(before.sections, after.sections, NOT_ONE) && FeaturesKept(before.features, after.features, i)
      && (HasRows(t) ==> after.rows == before.rows)
      && 0 <= i < |before.features| && before.features[i].id == edit.featureId
      && (forall j :: 0 <= j < i ==> before.features[j].id != edit.featureId)
      && FeatureEditedBy(edit, before.features[i], after.features[i])
  {
    EditedNow(doc, t, expected, edit, env, gate);
    i := EditedFeature(t, Current(doc), edit, env);
  }

  /* -------------------------------------------------------------------- rows */

  /** Some fields of a payload have new values, and the others the values they had. */
  ghost predicate Overlaid(base: Payload, changes: Payload, now: Payload) {
    && now.Keys == base.Keys + changes.Keys
    && forall f :: f in now ==> now[f] == if f in changes then changes[f] else base[f]
  }

  /** Only the fields a rewrite may touch have new values. */
  ghost predicate Reworded(t: DocType, base: Payload, words: Payload, now: Payload) {
    && now.Keys == base.Keys + words.Keys * Rewritable(t)
    && forall f :: f in now ==> now[f] == if f in words && f in Rewritable(t) then words[f] else base[f]
  }

  /** The state a lifecycle act takes a row to. */
  predicate LeadsTo(edit: Edit, state: Lifecycle) {
    match edit
    case MoveAssumption(_, act, _) =>
      (act, state) in {(Confirm, Confirmed), (Reject, Rejected), (SettleTrue, Validated), (SettleFalse, Invalidated)}
    case MoveDependency(_, step, _) =>
      (step, state) in
        {(Ask, Requested), (Receive(true), PartiallyReceived), (Receive(false), Received), (Check(true), Accepted),
         (Check(false), Rejected)}
    case _ => false
  }

  /** A row after a person has dealt with it. */
  ghost predicate RowEditedBy(t: DocType, edit: Edit, was: Row, now: Row) {
    match edit
    case UpdateRow(_, changes, references, attribution) =>
      && now.id == was.id && now.proposed == was.proposed && now.excludedReason == was.excludedReason
      && Overlaid(was.payload, changes, now.payload)
      && now.origin != RowGenerated && (now.origin == RowDefined <==> was.origin == RowDefined)
      && now.references == (if references.Some? then references.value else was.references)
      && now.attribution == (if attribution.Some? then attribution.value else was.attribution)
    case ExcludeRow(_, reason) => now == was.(excludedReason := reason)
    case ResolveRow(_, decision) =>
      && was.proposed.Some? && now == was.(payload := now.payload, proposed := None)
      && (decision.Keep? ==> now.payload == was.payload)
      && (decision.Accept? ==> now.payload == was.proposed.value)
      && (decision.EditTo? ==> Reworded(t, was.proposed.value, decision.value, now.payload))
    case MoveAssumption(_, _, changes) => RowMoved(edit, changes, was, now)
    case MoveDependency(_, _, changes) => RowMoved(edit, changes, was, now)
    case _ => false
  }

  /** A lifecycle act writes the state it leads to and the fields that came with it. */
  ghost predicate RowMoved(edit: Edit, changes: Payload, was: Row, now: Row) {
    && now == was.(payload := now.payload)
    && StatusField in now.payload && now.payload[StatusField].State?
    && LeadsTo(edit, now.payload[StatusField].state)
    && Overlaid(was.payload, changes[StatusField := now.payload[StatusField]], now.payload)
  }

  predicate EditsRow(edit: Edit) {
    edit.UpdateRow? || edit.ExcludeRow? || edit.ResolveRow? || edit.MoveAssumption? || edit.MoveDependency?
  }

  lemma FoundRow(t: DocType, content: Content, edit: Edit, env: Env) returns (i: int)
    requires (EditsRow(edit) || edit.RemoveRow?) && ApplyEdit(t, content, edit, env).Ok?
    ensures 0 <= i < |content.rows| && content.rows[i].id == edit.rowId
    ensures forall j :: 0 <= j < i ==> content.rows[j].id != edit.rowId
    ensures var after := ApplyEdit(t, content, edit, env).value;
      if edit.RemoveRow? then after == content.(rows := content.rows[..i] + content.rows[i + 1..])
      else EditRow(t, content.rows[i], edit, env).Ok?
           && after == content.(rows := content.rows[i := EditRow(t, content.rows[i], edit, env).value])
  {
    var ids := RowIdsOf(content.rows);
    IndexOfFirst(ids, edit.rowId);
    i := IndexOf(ids, edit.rowId).value;
    forall j | 0 <= j < i ensures content.rows[j].id != edit.rowId { assert ids[j] != edit.rowId; }
  }

  lemma EditedRow(t: DocType, row: Row, edit: Edit, env: Env)
    requires EditsRow(edit) && EditRow(t, row, edit, env).Ok?
    ensures RowEditedBy(t, edit, row, EditRow(t, row, edit, env).value)
  {
  }

  /** An edit of a row leaves in it the fields asked for, the payload decided on, or the
      state its act leads to; every other row, and all else, says what it said. */
  lemma RowEditWrites(doc: Doc, t: DocType, expected: nat, edit: Edit, env: Env, gate: Gate) returns (i: int)
    requires HasRows(t) && EditsRow(edit) && EditContent(doc, t, expected, edit, env, gate).Ok?
    ensures var before, after := Current(doc), Current(EditContent(doc, t, expected, edit, env, gate).value);
      && SectionsKept(before.sections, after.sections, NOT_ONE)
      && FeaturesKept(before.features, after.features, NOT_ONE) && RowsKept(before.rows, after.rows, i)
      && 0 <= i < |before.rows| && before.rows[i].id == edit.rowId
      && (forall j :: 0 <= j < i ==> before.rows[j].id != edit.rowId)
      && RowEditedBy(t, edit, before.rows[i], after.rows[i])
  {
    EditedNow(doc, t, expected, edit, env, gate);
    i := FoundRow(t, Current(doc), edit, env);
    EditedRow(t, Current(doc).rows[i], edit, env);
  }

  lemma AddedRow(t: DocType, content: Content, edit: Edit, env: Env)
    requires edit.AddRow? && ApplyEdit(t, content, edit, env).Ok?
    ensures HasRows(t)
    ensures ApplyEdit(t, content, edit, env).value == content.(rows :=
              content.rows + [Row(env.nextId, RowDefined, edit.addedBy, edit.payload, None, edit.cites, "")])
  {
  }

  /** A row somebody adds goes last, says what they gave and counts as theirs. */
  lemma AddRowWrites(doc: Doc, t: DocType, expected: nat, edit: Edit, env: Env, gate: Gate)
    requires edit.AddRow? && EditContent(doc, t, expected, edit, env, gate).Ok?
    ensures HasRows(t)
    ensures var before, after := Current(doc), Current(EditContent(doc, t, expected, edit, env, gate).value);
      && SectionsKept(before.sections, after.sections, NOT_ONE)
      && FeaturesKept(before.features, after.features, NOT_ONE)
      && |after.rows| == |before.rows| + 1 && after.rows[..|before.rows|] == before.rows
      && HumanOf(after.rows[|before.rows|]) == Human(RowDefined, edit.addedBy, edit.payload, "")
      && after.rows[|before.rows|].references == edit.cites && after.rows[|before.rows|].proposed == None
  {
    EditedNow(doc, t, expected, edit, env, gate);
    AddedRow(t, Current(doc), edit, env);
  }

  /** Taking a row out takes that one and no other. */
  lemma RemoveRowWrites(doc: Doc, t: DocType, expected: nat, edit: Edit, env: Env, gate: Gate) returns (i: int)
    requires HasRows(t) && edit.RemoveRow? && EditContent(doc, t, expected, edit, env, gate).Ok?
    ensures var before, after := Current(doc), Current(EditContent(doc, t, expected, edit, env, gate).value);
      && SectionsKept(before.sections, after.sections, NOT_ONE)
      && FeaturesKept(before.features, after.features, NOT_ONE)
      && 0 <= i < |before.rows| && before.rows[i].id == edit.rowId
      && (forall j :: 0 <= j < i ==> before.rows[j].id != edit.rowId)
      && |after.rows| == |before.rows| - 1
      && (forall j :: 0 <= j < |after.rows| ==> after.rows[j] == before.rows[if j < i then j else j + 1])
  {
    EditedNow(doc, t, expected, edit, env, gate);
    i := FoundRow(t, Current(doc), edit, env);
  }

  /* ------------------------------------------------------- which edits go through */

  ghost predicate FirstAt(ids: seq<nat>, id: nat, i: int) {
    0 <= i < |ids| && ids[i] == id && forall j :: 0 <= j < i ==> ids[j] != id
  }

  /** A payload a person may give a row: no lifecycle or schedule field says anything new,
      and the row still fits its schema. */
  ghost predicate Storable(t: DocType, was: Payload, payload: Payload, accepts: Payload -> bool) {
    && (forall f :: f in GuardedFields(t) && f in payload ==> f in was && payload[f] == was[f])
    && (t == WorkBreakdown ==>
          forall f :: f in SCHEDULE_FIELDS && f in payload ==> f in was && payload[f] == was[f])
    && accepts(payload) && StatusInSchema(t, payload)
  }

  /** The payload a decision on a proposal chooses. */
  function Chosen(t: DocType, row: Row, decision: Decision<Payload>): Payload
    requires row.proposed.Some?
  {
    match decision
    case Keep => row.payload
    case Accept => row.proposed.value
    case EditTo(words) => row.proposed.value + RewritableFields(t, words)
  }

  /** What the edit asks of a row can be done to it. */
  ghost predicate RowAllows(t: DocType, row: Row, edit: Edit, accepts: Payload -> bool) {
    match edit
    case UpdateRow(_, changes, _, _) => Storable(t, row.payload, row.payload + changes, accepts)
    case ResolveRow(_, decision) =>
      row.proposed.Some? && Storable(t, row.payload, Chosen(t, row, decision), accepts)
    case _ => true
  }

  /** What the edit names is there, and can be done to it. */
  ghost predicate Answerable(t: DocType, content: Content, edit: Edit, accepts: Payload -> bool) {
    if EditsSection(edit) then
      exists i ::
        FirstAt(SectionIds(content.sections), edit.sectionId, i)
        && (edit.ResolveSection? ==> content.sections[i].proposedBody != "")
    else if EditsFeature(edit) then
      exists i ::
        FirstAt(FeatureIdsOf(content.features), edit.featureId, i)
        && (edit.ResolveFeature? ==> content.features[i].proposed.Some?)
    else if edit.AddRow? then HasRows(t) && accepts(edit.payload) && StatusInSchema(t, edit.payload)
    else exists i ::
      FirstAt(RowIdsOf(content.rows), edit.rowId, i) && RowAllows(t, content.rows[i], edit, accepts)
  }

  lemma ParsedIff(t: DocType, candidate: Payload, was: Payload, accepts: Payload -> bool)
    ensures ParseRow(t, candidate, Some(was), false, accepts).Ok? <==> Storable(t, was, candidate, accepts)
    ensures ParseRow(t, candidate, None, false, accepts).Ok? <==> accepts(candidate) && StatusInSchema(t, candidate)
  {
  }

  lemma AppliedIff(t: DocType, content: Content, edit: Edit, env: Env)
    requires !edit.MoveAssumption? && !edit.MoveDependency?
    ensures ApplyEdit(t, content, edit, env).Ok? <==> Answerable(t, content, edit, env.accepts)
  {
    if EditsSection(edit) {
      IndexOfFirst(SectionIds(content.sections), edit.sectionId);
    } else if EditsFeature(edit) {
      IndexOfFirst(FeatureIdsOf(content.features), edit.featureId);
    } else if edit.AddRow? {
      ParsedIff(t, edit.payload, edit.payload, env.accepts);
    } else {
      RowAppliedIff(t, content, edit, env);
    }
  }

  lemma RowAppliedIff(t: DocType, content: Content, edit: Edit, env: Env)
    requires edit.UpdateRow? || edit.ExcludeRow? || edit.ResolveRow? || edit.RemoveRow?
    ensures ApplyEdit(t, content, edit, env).Ok? <==> Answerable(t, content, edit, env.accepts)
  {
    var ids := RowIdsOf(content.rows);
    IndexOfFirst(ids, edit.rowId);
    if IndexOf(ids, edit.rowId).Some? {
      var i := IndexOf(ids, edit.rowId).value;
      assert FirstAt(ids, edit.rowId, i);
      forall j | FirstAt(ids, edit.rowId, j) ensures j == i {}
      if !edit.RemoveRow? { RowAllowsIff(t, content.rows[i], edit, env); }
    }
  }

  lemma RowAllowsIff(t: DocType, row: Row, edit: Edit, env: Env)
    requires edit.UpdateRow? || edit.ExcludeRow? || edit.ResolveRow?
    ensures EditRow(t, row, edit, env).Ok? <==> RowAllows(t, row, edit, env.accepts)
  {
    if edit.UpdateRow? {
      ParsedIff(t, row.payload + edit.changes, row.payload, env.accepts);
    } else if edit.ResolveRow? && row.proposed.Some? {
      ParsedIff(t, Chosen(t, row, edit.rewrite), row.payload, env.accepts);
    }
  }

  /** An edit other than a lifecycle act goes through exactly when nobody has written the
      record since it was read, the document is open for editing and its prerequisites are
      signed, what the edit names is there, a proposal it decides on is waiting, and the
      row it leaves may be stored. */
  lemma EditGoesThroughIff(doc: Doc, t: DocType, expected: nat, edit: Edit, env: Env, gate: Gate)
    requires !edit.MoveAssumption? && !edit.MoveDependency?
    ensures EditContent(doc, t, expected, edit, env, gate).Ok? <==>
      && doc.record.recordVersion == expected && doc.record.status in {Draft, NeedsRevision, Approved} && gate.unlocked
      && Answerable(t, Current(doc), edit, env.accepts)
  {
    AppliedIff(t, Current(doc), edit, env);
  }

  /** The version an edit cuts is on record as what it is: an edited or regenerated section,
      an edited or removed row, a decision on a row; the other edits carry no such label. */
  lemma EditIsLabelled(doc: Doc, t: DocType, expected: nat, edit: Edit, env: Env, gate: Gate)
    requires EditContent(doc, t, expected, edit, env, gate).Ok?
    ensures var after := EditContent(doc, t, expected, edit, env, gate).value;
      && after.record.version in after.archive && after.record.supersedes == Some(doc.record.version)
      && var lineage := after.archive[after.record.version].lineage;
      && lineage.restoredFrom == None && lineage.revisedFrom == None
      && (lineage.changeType == Some(SectionEdited) <==> edit.UpdateSection?)
      && (lineage.changeType == Some(TargetedRegeneration) <==> edit.RegenerateSection?)
      && (lineage.changeType == Some(RowEditedChange) <==> edit.UpdateRow?)
      && (lineage.changeType == Some(RowRemovedChange) <==> edit.RemoveRow?)
      && (lineage.changeType == Some(ProposalAccepted) <==> edit.ResolveRow?)
      && lineage.changeType in {None, Some(SectionEdited), Some(TargetedRegeneration), Some(RowEditedChange),
                                Some(RowRemovedChange), Some(ProposalAccepted)}
  {
    EditLineage(doc, t, expected, edit, env, gate);
  }

  lemma EditLineage(doc: Doc, t: DocType, expected: nat, edit: Edit, env: Env, gate: Gate)
    requires EditContent(doc, t, expected, edit, env, gate).Ok?
    ensures var after := EditContent(doc, t, expected, edit, env, gate).value;
      && after.record.version in after.archive && after.record.supersedes == Some(doc.record.version)
      && after.archive[after.record.version].lineage == Lineage(ChangeTypeOf(edit), None, None)
  {
    NextIsNew(doc.archive);
  }

  /* ------------------------------------------------------- a suggestion's whole life */

  /** The words a decision on a suggested text leaves. */
  ghost predicate Decides(decision: Decision<string>, theirs: string, suggested: string, now: string) {
    match decision
    case Keep => now == theirs
    case Accept => now == suggested
    case EditTo(text) => now == text
  }

  lemma MergedIds(composed: ComposedContent, previous: Content, nextId: nat)
    ensures var sections := Compose(composed, previous, nextId).sections;
      forall i :: 0 <= i < |sections| ==> sections[i].id == nextId + i
  {
  }

  lemma {:induction false} FilledIds(composed: seq<ComposedRow>, byKey: ByKey, nextId: nat)
    ensures var rows := Fill(composed, byKey, nextId).0;
      |rows| == |composed| && forall i :: 0 <= i < |rows| ==> rows[i].id == nextId + i
  {
    if composed != [] {
      var rest := Remove(byKey, RowKey(composed[0].payload));
      FilledIds(composed[1..], rest, nextId + 1);
      var rows := Fill(composed, byKey, nextId).0;
      assert forall i :: 1 <= i < |rows| ==> rows[i] == Fill(composed[1..], rest, nextId + 1).0[i - 1];
    }
  }

  lemma BuiltIds(composed: seq<ComposedRow>, previous: seq<Row>, nextId: nat)
    ensures var rows := BuildRows(composed, previous, nextId);
      forall i :: 0 <= i < |rows| ==> rows[i].id == nextId + i
  {
    var left := MergedShape(composed, previous, nextId);
    FilledIds(composed, KeepByKey(Protected(previous)), nextId);
    OrphansShape(left, nextId + |composed|);
  }

  /** Generate over somebody's section, then decide: keeping leaves the words they had
      before the generation, accepting the composed ones, and neither costs the other
      sections anything. */
  lemma GenerateThenDecide(doc: Doc, t: DocType, expected: nat, composed: ComposedContent, env: Env, gate: Gate,
                           expected': nat, i: nat, decision: Decision<string>, env': Env, gate': Gate, k: nat)
    requires Generate(doc, t, expected, composed, env, gate).Ok? && i < |composed.sections|
    requires SpeaksForKey(Current(doc).sections, k, composed.sections[i].key)
    requires var between := Generate(doc, t, expected, composed, env, gate).value;
      && i < |Current(between).sections|
      && EditContent(between, t, expected', ResolveSection(Current(between).sections[i].id, decision), env', gate').Ok?
    ensures var between := Generate(doc, t, expected, composed, env, gate).value;
      var edit := ResolveSection(Current(between).sections[i].id, decision);
      var after := Current(EditContent(between, t, expected', edit, env', gate').value).sections;
      && i < |after| && after[i].key == composed.sections[i].key
      && Decides(decision, Current(doc).sections[k].body, composed.sections[i].body, after[i].body)
      && SectionsKept(Current(between).sections, after, i)
  {
    var between := Generate(doc, t, expected, composed, env, gate).value;
    GenerationWrites(doc, t, expected, composed, env, gate);
    MergedIds(composed, Current(doc), env.nextId);
    var edit := ResolveSection(Current(between).sections[i].id, decision);
    var at := SectionEditWrites(between, t, expected', edit, env', gate');
    assert at == i;
  }

  /** The same of a row: the person's payload or the composed one, as they decide, and
      under their name, origin and exclusion either way. */
  lemma GenerateThenDecideRow(doc: Doc, t: DocType, expected: nat, composed: ComposedContent, env: Env, gate: Gate,
                              expected': nat, i: nat, decision: Decision<Payload>, env': Env, gate': Gate, k: nat)
    requires HasRows(t) && Generate(doc, t, expected, composed, env, gate).Ok? && i < |composed.rows|
    requires FirstOfKey(composed.rows, i) && StandsForKey(Current(doc).rows, k, RowKey(composed.rows[i].payload))
    requires var between := Generate(doc, t, expected, composed, env, gate).value;
      && i < |Current(between).rows|
      && EditContent(between, t, expected', ResolveRow(Current(between).rows[i].id, decision), env', gate').Ok?
    ensures var between := Generate(doc, t, expected, composed, env, gate).value;
      var edit := ResolveRow(Current(between).rows[i].id, decision);
      var was, after := Current(doc).rows[k], Current(EditContent(between, t, expected', edit, env', gate').value).rows;
      && i < |after| && RowsKept(Current(between).rows, after, i)
      && HumanOf(after[i]).(payload := was.payload) == HumanOf(was) && after[i].proposed == None
      && (decision.Keep? ==> after[i].payload == was.payload)
      && (decision.Accept? ==> after[i].payload == composed.rows[i].payload)
      && (decision.EditTo? ==> Reworded(t, composed.rows[i].payload, decision.value, after[i].payload))
  {
    var between := Generate(doc, t, expected, composed, env, gate).value;
    GenerationWrites(doc, t, expected, composed, env, gate);
    GeneratedRowIds(doc, t, expected, composed, env, gate);
    var edit := ResolveRow(Current(between).rows[i].id, decision);
    var at := RowEditWrites(between, t, expected', edit, env', gate');
    assert at == i;
  }

  lemma GeneratedRowIds(doc: Doc, t: DocType, expected: nat, composed: ComposedContent, env: Env, gate: Gate)
    requires HasRows(t) && Generate(doc, t, expected, composed, env, gate).Ok?
    ensures var rows := Current(Generate(doc, t, expected, composed, env, gate).value).rows;
      forall i, j :: 0 <= i < j < |rows| ==> rows[i].id != rows[j].id
  {
    BuiltIds(composed.rows, Current(doc).rows, env.nextId + |composed.sections| + |composed.features|);
  }

  /** Rewrite one section, then decide. A section of the application is simply replaced;
      a person's section says what they decide, and keeping takes every trace of the
      rewrite away but the mark that somebody has decided. */
  lemma RegenerateThenDecide(doc: Doc, t: DocType, expected: nat, id: nat, body: string, reason: string, env: Env,
                             gate: Gate, expected': nat, decision: Decision<string>, env': Env, gate': Gate)
    returns (i: int)
    requires EditContent(doc, t, expected, RegenerateSection(id, body, reason), env, gate).Ok?
    requires EditContent(EditContent(doc, t, expected, RegenerateSection(id, body, reason), env, gate).value, t,
                         expected', ResolveSection(id, decision), env', gate').Ok?
    ensures var between := EditContent(doc, t, expected, RegenerateSection(id, body, reason), env, gate).value;
      var edit := ResolveSection(id, decision);
      var after := Current(EditContent(between, t, expected', edit, env', gate').value).sections;
      && 0 <= i < |Current(doc).sections| == |after| && Current(doc).sections[i].id == id
      && var was := Current(doc).sections[i];
      && (was.origin != Generated ==>
            && Decides(decision, was.body, body, after[i].body)
            && after[i] == was.(body := after[i].body, origin := UserEdited, proposedBody := "",
                                regenerationReason := ""))
      && (was.origin == Generated ==> Decides(decision, body, was.proposedBody, after[i].body))
      && SectionsKept(Current(doc).sections, after, i)
  {
    var between := EditContent(doc, t, expected, RegenerateSection(id, body, reason), env, gate).value;
    i := SectionEditWrites(doc, t, expected, RegenerateSection(id, body, reason), env, gate);
    var at := SectionEditWrites(between, t, expected', ResolveSection(id, decision), env', gate');
    forall j | 0 <= j < i ensures Current(between).sections[j].id != id {
      assert Current(between).sections[j].id == Current(doc).sections[j].id;
    }
    assert at == i;
  }
}
