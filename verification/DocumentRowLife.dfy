/** The life of a row: what a rewrite may touch, and the states a row passes through over
    every run that neither generates nor restores its document. */
module DocumentRowLife {
  import opened Wrappers
  import opened DocumentTypes
  import opened DocumentContent
  import opened DocumentEngine
  import opened DocumentProject
  import opened DocumentHistory
  import opened DocumentRestore

  /* ------------------------------------------------------------- rewriting rows */

  /** The new payload differs from the old in rewritable fields only, and drops none. */
  ghost predicate DiffersOnlyIn(fields: set<Field>, before: Payload, after: Payload) {
    && before.Keys <= after.Keys && after.Keys <= before.Keys + fields
    && forall f :: f in before && f !in fields ==> after[f] == before[f]
  }

  /** What a targeted rewrite did to one row. */
  ghost predicate Rewritten(t: DocType, before: Row, after: Row, selected: bool) {
    if !selected then after == before.(id := after.id)
    else if IsRowProtected(before.origin) then
      && after == before.(id := after.id, proposed := after.proposed)
      && (after.proposed.Some? && after.proposed != before.proposed ==>
            DiffersOnlyIn(Rewritable(t), before.payload, after.proposed.value))
    else
      && after == before.(id := after.id, payload := after.payload, proposed := after.proposed)
      && DiffersOnlyIn(Rewritable(t), before.payload, after.payload)
  }

  /** Rewriting a selection of rows leaves every other row alone, a protected row's words
      alone, and outside the rewritable fields every row alone. */
  lemma {:induction false} RewriteFrame(t: DocType, rows: seq<Row>, selection: Selection, named: map<nat, Payload>,
                                        composed: seq<ComposedRow>, nextId: nat, accepts: Payload -> bool)
    requires RewriteRows(t, rows, selection, named, composed, nextId, accepts).Ok?
    ensures var after := RewriteRows(t, rows, selection, named, composed, nextId, accepts).value;
      |after| == |rows|
      && forall i :: 0 <= i < |rows| ==> Rewritten(t, rows[i], after[i], IsSelected(t, rows[i], selection))
  {
    if rows != [] {
      OneRewrite(t, rows[0], selection, named, composed, nextId, accepts);
      RewriteFrame(t, rows[1..], selection, named, composed, nextId + 1, accepts);
      var after := RewriteRows(t, rows, selection, named, composed, nextId, accepts).value;
      assert forall i :: 1 <= i < |rows| ==> rows[i] == rows[1..][i - 1] && after[i] == after[1..][i - 1];
    }
  }

  lemma OneRewrite(t: DocType, row: Row, selection: Selection, named: map<nat, Payload>,
                   composed: seq<ComposedRow>, id: nat, accepts: Payload -> bool)
    requires RewriteRow(t, row, selection, named, composed, id, accepts).Ok?
    ensures Rewritten(t, row, RewriteRow(t, row, selection, named, composed, id, accepts).value,
            IsSelected(t, row, selection))
  {
  }

  /** No rewrite can reach a lifecycle or a schedule field, whatever the document. */
  lemma WordingIsNeverStatus(t: DocType)
    ensures Rewritable(t) !! GuardedFields(t) && Rewritable(t) !! SCHEDULE_FIELDS
  {
  }

  /* ------------------------------------------------------------ one call, one row */

  /** The states a person can put a row into. */
  function Reached(t: DocType): set<Lifecycle> {
    if t == DependencySheet then {Requested, PartiallyReceived, Received, Accepted, Rejected}
    else {Confirmed, Validated, Invalidated, Rejected}
  }

  ghost predicate SameSchedule(before: Payload, after: Payload) {
    forall f :: f in SCHEDULE_FIELDS && f in after ==> f in before && after[f] == before[f]
  }

  /** What one call may do to a row's lifecycle and schedule. */
  ghost predicate Moves(t: DocType, before: Payload, after: Payload) {
    && (StatesOf(t).Some? ==>
          && StateOf(before).Some? && StateOf(after).Some?
          && (StateOf(after) == StateOf(before)
              || StateOf(after).value in MovesOf(t, StateOf(before).value) * Reached(t)))
    && (t == WorkBreakdown ==> SameSchedule(before, after))
  }

  ghost predicate Typed(t: DocType, rows: seq<Row>) {
    forall i :: 0 <= i < |rows| ==> StatusInSchema(t, rows[i].payload)
  }

  lemma UnguardedParse(t: DocType, candidate: Payload, before: Payload, accepts: Payload -> bool)
    requires ParseRow(t, candidate, Some(before), false, accepts).Ok? && StatusInSchema(t, before)
    ensures Moves(t, before, candidate) && StatusInSchema(t, candidate)
  {
    if StatesOf(t).Some? { assert StatusField in GuardedFields(t) && StatusField in candidate; }
  }

  lemma StateMove(t: DocType, row: Row, changes: Payload, to: Lifecycle, moves: set<Lifecycle>, env: Env)
    requires StatusInSchema(t, row.payload) && MoveState(t, row, changes, to, moves, env).Ok?
    requires StateOf(row.payload).Some?
    requires (moves == DependencyMoves(StateOf(row.payload).value)
              && to in {Requested, PartiallyReceived, Received, Accepted, Rejected})
          || (moves == AssumptionMoves(StateOf(row.payload).value)
              && to in {Confirmed, Validated, Invalidated, Rejected})
    ensures Moves(t, row.payload, MoveState(t, row, changes, to, moves, env).value.payload)
    ensures StatusInSchema(t, MoveState(t, row, changes, to, moves, env).value.payload)
  {
    var after := MoveState(t, row, changes, to, moves, env).value.payload;
    assert StateOf(after) == Some(to);
  }

  /** Whether a dependency may be taken to where an act leads it, as its row now stands. */
  predicate MayMove(row: Row, step: DependencyAct, changes: Payload, accepts: Payload -> bool) {
    && StateOf(row.payload).Some? && step.Outcome() in DependencyMoves(StateOf(row.payload).value)
    && accepts(row.payload + changes + map[StatusField := State(step.Outcome())])
  }

  /** An approved dependency sheet is no exception: a lifecycle act on one of its rows
      succeeds exactly as on a draft, when nobody has written the record since, the
      documents it is built on are signed, the table has the move, and the row fits its
      schema. The sheet is withdrawn by it: its new version is a draft. */
  lemma DependencyMovesIff(doc: Doc, expected: nat, rowId: nat, step: DependencyAct, changes: Payload, env: Env,
                           gate: Gate)
    ensures var outcome := EditContent(doc, DependencySheet, expected, MoveDependency(rowId, step, changes), env, gate);
      var at := IndexOf(RowIdsOf(Current(doc).rows), rowId);
      && (at.Some? ==> at.value < |Current(doc).rows| && Current(doc).rows[at.value].id == rowId)
      && (outcome.Ok? <==>
            && doc.record.recordVersion == expected && doc.record.status in {Draft, NeedsRevision, Approved}
            && gate.unlocked
            && at.Some? && MayMove(Current(doc).rows[at.value], step, changes, env.accepts))
      && (outcome.Ok? ==>
            outcome.value.record.status == if doc.record.status == Approved then Draft else doc.record.status)
  {
    IndexOfFinds(RowIdsOf(Current(doc).rows), rowId);
    var at := IndexOf(RowIdsOf(Current(doc).rows), rowId);
    if at.Some? { RowMovesIff(Current(doc).rows[at.value], rowId, step, changes, env); }
  }

  lemma RowMovesIff(row: Row, rowId: nat, step: DependencyAct, changes: Payload, env: Env)
    ensures EditRow(DependencySheet, row, MoveDependency(rowId, step, changes), env).Ok?
            <==> MayMove(row, step, changes, env.accepts)
  {
    var payload := row.payload + changes + map[StatusField := State(step.Outcome())];
    assert StateOf(payload) == Some(step.Outcome());
  }

  lemma EditedRowMoves(t: DocType, row: Row, edit: Edit, env: Env)
    requires StatusInSchema(t, row.payload) && EditRow(t, row, edit, env).Ok?
    ensures Moves(t, row.payload, EditRow(t, row, edit, env).value.payload)
    ensures StatusInSchema(t, EditRow(t, row, edit, env).value.payload)
  {
    var after := EditRow(t, row, edit, env).value.payload;
    match edit
    case UpdateRow(_, _, _, _) => UnguardedParse(t, after, row.payload, env.accepts);
    case ResolveRow(_, _) => UnguardedParse(t, after, row.payload, env.accepts);
    case MoveAssumption(_, act, changes) =>
      StateMove(t, row, changes, act.Outcome(), AssumptionMoves(StateOf(row.payload).value), env);
    case MoveDependency(_, step, changes) =>
      StateMove(t, row, changes, step.Outcome(), DependencyMoves(StateOf(row.payload).value), env);
    case _ =>
  }

  lemma RewrittenRowMoves(t: DocType, before: Row, after: Row, selected: bool)
    requires Rewritten(t, before, after, selected) && StatusInSchema(t, before.payload)
    ensures Moves(t, before.payload, after.payload) && StatusInSchema(t, after.payload)
  {
    WordingIsNeverStatus(t);
    if StatesOf(t).Some? { assert StatusField !in Rewritable(t) && StatusField in before.payload; }
    forall f | f in SCHEDULE_FIELDS && f in after.payload
      ensures f in before.payload && after.payload[f] == before.payload[f] {}
  }

  /* ------------------------------------------------------------ one call, all rows */

  /** The row of the earlier version a row descends from; None for a new one. */
  function Ancestor(op: Op, rows: seq<Row>, i: nat): Option<nat> {
    if op.EditOp? && op.edit.RemoveRow? then
      var at := IndexOf(RowIdsOf(rows), op.edit.rowId);
      if at.Some? && at.value <= i then Some(i + 1) else Some(i)
    else if i < |rows| then Some(i) else None
  }

  ghost predicate AllMove(t: DocType, op: Op, before: seq<Row>, after: seq<Row>) {
    && Typed(t, after)
    && forall i :: 0 <= i < |after| && Ancestor(op, before, i).Some? ==>
         var a := Ancestor(op, before, i).value;
         a < |before| && Moves(t, before[a].payload, after[i].payload)
  }

  lemma SamePayloadsMove(t: DocType, op: Op, before: seq<Row>, after: seq<Row>)
    requires Typed(t, before) && |after| == |before| && !op.EditOp?
    requires forall i :: 0 <= i < |after| ==> after[i].payload == before[i].payload
    ensures AllMove(t, op, before, after)
  {
  }

  lemma EditedRowsMove(t: DocType, content: Content, op: Op, env: Env)
    requires op.EditOp? && ApplyEdit(t, content, op.edit, env).Ok? && Typed(t, content.rows)
    ensures AllMove(t, op, content.rows, ApplyEdit(t, content, op.edit, env).value.rows)
  {
    var edit := op.edit;
    if edit.RemoveRow? {
      RemovedRowMoves(t, content, op, env);
    } else if edit.AddRow? {
      AddedRowMoves(t, content, op, env);
    } else if edit.UpdateSection? || edit.RegenerateSection? || edit.ResolveSection? || edit.UpdateFeature?
        || edit.ResolveFeature? {
      assert ApplyEdit(t, content, edit, env).value.rows == content.rows;
    } else {
      ChangedRowMoves(t, content, op, env);
    }
  }

  lemma RemovedRowMoves(t: DocType, content: Content, op: Op, env: Env)
    requires op.EditOp? && op.edit.RemoveRow? && ApplyEdit(t, content, op.edit, env).Ok? && Typed(t, content.rows)
    ensures AllMove(t, op, content.rows, ApplyEdit(t, content, op.edit, env).value.rows)
  {
    IndexOfFinds(RowIdsOf(content.rows), op.edit.rowId);
  }

  lemma AddedRowMoves(t: DocType, content: Content, op: Op, env: Env)
    requires op.EditOp? && op.edit.AddRow? && ApplyEdit(t, content, op.edit, env).Ok? && Typed(t, content.rows)
    ensures AllMove(t, op, content.rows, ApplyEdit(t, content, op.edit, env).value.rows)
  {
    var after := ApplyEdit(t, content, op.edit, env).value.rows;
    assert after[..|content.rows|] == content.rows;
  }

  lemma ChangedRowMoves(t: DocType, content: Content, op: Op, env: Env)
    requires op.EditOp? && ApplyEdit(t, content, op.edit, env).Ok? && Typed(t, content.rows)
    requires op.edit.UpdateRow? || op.edit.ExcludeRow? || op.edit.ResolveRow? || op.edit.MoveAssumption?
             || op.edit.MoveDependency?
    ensures AllMove(t, op, content.rows, ApplyEdit(t, content, op.edit, env).value.rows)
  {
    IndexOfFinds(RowIdsOf(content.rows), op.edit.rowId);
    var at := IndexOf(RowIdsOf(content.rows), op.edit.rowId).value;
    EditedRowMoves(t, content.rows[at], op.edit, env);
    assert ApplyEdit(t, content, op.edit, env).value.rows
        == content.rows[at := EditRow(t, content.rows[at], op.edit, env).value];
    UpdatedRowsMove(t, op, content.rows, at, EditRow(t, content.rows[at], op.edit, env).value);
  }

  lemma UpdatedRowsMove(t: DocType, op: Op, rows: seq<Row>, at: nat, row: Row)
    requires Typed(t, rows) && at < |rows| && !(op.EditOp? && op.edit.RemoveRow?)
    requires Moves(t, rows[at].payload, row.payload) && StatusInSchema(t, row.payload)
    ensures AllMove(t, op, rows, rows[at := row])
  {
  }

  lemma EditNow(doc: Doc, t: DocType, expected: nat, edit: Edit, env: Env, gate: Gate)
    requires HasRows(t) && EditContent(doc, t, expected, edit, env, gate).Ok?
    ensures ApplyEdit(t, Current(doc), edit, env).Ok?
    ensures Current(EditContent(doc, t, expected, edit, env, gate).value).rows
            == ApplyEdit(t, Current(doc), edit, env).value.rows
  {
  }

  lemma RowsNow(doc: Doc, t: DocType, expected: nat, selection: Selection, named: map<nat, Payload>,
                composed: seq<ComposedRow>, env: Env, gate: Gate)
    requires RegenerateRows(doc, t, expected, selection, named, composed, env, gate).Ok?
    ensures var ids := RowIds(env.nextId, Current(doc));
      var rows := RewriteRows(t, Current(doc).rows, selection, named, composed, ids, env.accepts);
      rows.Ok? && Current(RegenerateRows(doc, t, expected, selection, named, composed, env, gate).value).rows
          == rows.value
  {
  }

  lemma RegeneratedRowsMove(doc: Doc, t: DocType, op: Op, env: Env, gate: Gate)
    requires op.RegenerateRowsOp? && Apply(doc, t, op, env, gate).Ok? && Typed(t, Current(doc).rows)
    ensures AllMove(t, op, Current(doc).rows, Current(Apply(doc, t, op, env, gate).value).rows)
  {
    RowsNow(doc, t, op.expected, op.selection, op.namedRows, op.composedRows, env, gate);
    RewrittenRowsMove(t, op, Current(doc).rows, RowIds(env.nextId, Current(doc)), env);
  }

  lemma RewrittenRowsMove(t: DocType, op: Op, rows: seq<Row>, ids: nat, env: Env)
    requires op.RegenerateRowsOp? && Typed(t, rows)
    requires RewriteRows(t, rows, op.selection, op.namedRows, op.composedRows, ids, env.accepts).Ok?
    ensures AllMove(t, op, rows,
            RewriteRows(t, rows, op.selection, op.namedRows, op.composedRows, ids, env.accepts).value)
  {
    RewriteFrame(t, rows, op.selection, op.namedRows, op.composedRows, ids, env.accepts);
    var after := RewriteRows(t, rows, op.selection, op.namedRows, op.composedRows, ids, env.accepts).value;
    forall i | 0 <= i < |after|
      ensures Moves(t, rows[i].payload, after[i].payload) && StatusInSchema(t, after[i].payload) {
      RewrittenRowMoves(t, rows[i], after[i], IsSelected(t, rows[i], op.selection));
    }
  }

  lemma CandidateRowsMove(doc: Doc, t: DocType, op: Op, env: Env, gate: Gate)
    requires op.CandidatesOp? && Apply(doc, t, op, env, gate).Ok? && Typed(t, Current(doc).rows)
    ensures AllMove(t, op, Current(doc).rows, Current(Apply(doc, t, op, env, gate).value).rows)
  {
    var added := CandidatesAppend(doc, t, op.expected, op.candidates, env, gate);
    AppendedRowsMove(t, op, Current(doc).rows, added);
  }

  lemma CandidatesAppend(doc: Doc, t: DocType, expected: nat, candidates: seq<ComposedRow>, env: Env, gate: Gate)
    returns (added: seq<Row>)
    requires AddCandidates(doc, t, expected, candidates, env, gate).Ok?
    ensures Current(AddCandidates(doc, t, expected, candidates, env, gate).value).rows == Current(doc).rows + added
    ensures Typed(t, added)
  {
    added := seq(|candidates|, i requires 0 <= i < |candidates| => NewRow(AsCandidate(candidates[i]), env.nextId + i));
    forall i | 0 <= i < |added| ensures StatusInSchema(t, added[i].payload) {
      assert StateOf(added[i].payload) == Some(DraftAssumption);
    }
  }

  lemma AppendedRowsMove(t: DocType, op: Op, before: seq<Row>, added: seq<Row>)
    requires Typed(t, before) && Typed(t, added) && !op.EditOp?
    ensures AllMove(t, op, before, before + added)
  {
  }

  lemma NoRowsAhead(doc: Doc, t: DocType, op: Op, env: Env, gate: Gate)
    requires UpToNow(doc) && Apply(doc, t, op, env, gate).Ok?
    requires op.RegenerateFeaturesOp? || op.ReviseOp? || (op.ReopenOp? && doc.record.status == Final)
    ensures Current(Apply(doc, t, op, env, gate).value).rows == []
  {
    ArchiveFirst(doc, doc.record.status, NO_LINEAGE);
    if op.RegenerateFeaturesOp? {
      RegenerateFeaturesCut(doc, t, op.expected, op.selection, op.sameModule, op.named, env, gate);
    } else {
      RevisedRowsKeptIff(doc, t, op.expected, env);
    }
  }

  /** One call on a list document moves each of its rows along its lifecycle, or not at
      all, and never changes a schedule. */
  lemma ApplyMovesRows(doc: Doc, t: DocType, op: Op, env: Env, gate: Gate)
    requires HasRows(t) && UpToNow(doc) && Typed(t, Current(doc).rows) && Apply(doc, t, op, env, gate).Ok?
    requires !op.GenerateOp? && !op.RestoreOp?
    ensures AllMove(t, op, Current(doc).rows, Current(Apply(doc, t, op, env, gate).value).rows)
  {
    match op
    case EditOp(expected, edit) =>
      EditNow(doc, t, expected, edit, env, gate);
      EditedRowsMove(t, Current(doc), op, env);
    case RegenerateRowsOp(_, _, _, _) => RegeneratedRowsMove(doc, t, op, env, gate);
    case CandidatesOp(_, _) => CandidateRowsMove(doc, t, op, env, gate);
    case RegenerateFeaturesOp(_, _, _, _) => NoRowsAhead(doc, t, op, env, gate);
    case ReviseOp(_) => NoRowsAhead(doc, t, op, env, gate);
    case ReopenOp(expected) =>
      if doc.record.status == Final { NoRowsAhead(doc, t, op, env, gate); }
      else {
        ReopenedIsWhole(doc, t, expected, env);
        SamePayloadsMove(t, op, Current(doc).rows, Current(Apply(doc, t, op, env, gate).value).rows);
      }
    case _ => UntouchedRowsMove(doc, t, op, env, gate);
  }

  lemma UntouchedRowsMove(doc: Doc, t: DocType, op: Op, env: Env, gate: Gate)
    requires HasRows(t) && Typed(t, Current(doc).rows) && Apply(doc, t, op, env, gate).Ok?
    requires op.ExcludeOp? || op.ValidateOp? || op.AcknowledgeOp? || op.ApproveOp? || op.MarkFinalOp?
    ensures AllMove(t, op, Current(doc).rows, Current(Apply(doc, t, op, env, gate).value).rows)
  {
    UntouchedRows(doc, t, op, env, gate);
    SamePayloadsMove(t, op, Current(doc).rows, Current(Apply(doc, t, op, env, gate).value).rows);
  }

  lemma UntouchedRows(doc: Doc, t: DocType, op: Op, env: Env, gate: Gate)
    requires HasRows(t) && Apply(doc, t, op, env, gate).Ok?
    requires op.ExcludeOp? || op.ValidateOp? || op.AcknowledgeOp? || op.ApproveOp? || op.MarkFinalOp?
    ensures Current(Apply(doc, t, op, env, gate).value).rows == Current(doc).rows
  {
  }

  /* ------------------------------------------------------------- over whole runs */

  type Trace = seq<Payload>

  /** Each row with everything it has said, oldest first. */
  ghost function Extend(p: Project, call: Call, t: DocType, traces: seq<Trace>): seq<Trace> {
    var next := Step(p, call);
    if t !in p || t !in next || call.t != t || Outcome(p, call).Refused? then traces
    else
      var before, after := Current(p[t]).rows, Current(next[t]).rows;
      seq(|after|, i requires 0 <= i < |after| =>
        var a := Ancestor(call.op, before, i);
        (if a.Some? && a.value < |traces| then traces[a.value] else []) + [after[i].payload])
  }

  ghost function Traces(p: Project, calls: seq<Call>, t: DocType, traces: seq<Trace>): seq<Trace>
    decreases |calls|
  {
    if calls == [] then traces else Traces(Step(p, calls[0]), calls[1..], t, Extend(p, calls[0], t, traces))
  }

  ghost predicate IsPath(t: DocType, trace: Trace) {
    forall k :: 0 <= k < |trace| - 1 ==> Moves(t, trace[k], trace[k + 1])
  }

  ghost predicate Traced(doc: Doc, t: DocType, traces: seq<Trace>) {
    var rows := Current(doc).rows;
    && UpToNow(doc) && Typed(t, rows) && |traces| == |rows|
    && forall i :: 0 <= i < |rows| ==>
         |traces[i]| > 0 && traces[i][|traces[i]| - 1] == rows[i].payload && IsPath(t, traces[i])
  }

  predicate NeverRewritten(calls: seq<Call>, t: DocType) {
    forall i :: 0 <= i < |calls| && calls[i].t == t ==> !calls[i].op.GenerateOp? && !calls[i].op.RestoreOp?
  }

  lemma StepTraced(p: Project, call: Call, t: DocType, traces: seq<Trace>)
    requires HasRows(t) && t in p && Traced(p[t], t, traces)
    requires call.t == t ==> !call.op.GenerateOp? && !call.op.RestoreOp?
    ensures t in Step(p, call) && Traced(Step(p, call)[t], t, Extend(p, call, t, traces))
  {
    OwnStep(p, call);
    if call.t != t {
      StepTouchesOne(p, call, t);
    } else if Outcome(p, call).Ok? {
      OwnStepTraced(p, call, traces);
    }
  }

  lemma OwnStepTraced(p: Project, call: Call, traces: seq<Trace>)
    requires HasRows(call.t) && call.t in p && Traced(p[call.t], call.t, traces) && Outcome(p, call).Ok?
    requires !call.op.GenerateOp? && !call.op.RestoreOp?
    ensures call.t in Step(p, call) && Traced(Step(p, call)[call.t], call.t, Extend(p, call, call.t, traces))
  {
    var t, gate := call.t, GateFor(p, call.t, call.env.authority);
    OwnStep(p, call);
    ApplyMovesRows(p[t], t, call.op, call.env, gate);
    ApplyKeepsUpToNow(p[t], t, call.op, call.env, gate);
    ExtendedPaths(t, call.op, Current(p[t]).rows, Current(Step(p, call)[t]).rows, traces, Extend(p, call, t, traces));
  }

  lemma ExtendedPaths(t: DocType, op: Op, before: seq<Row>, after: seq<Row>, traces: seq<Trace>, extended: seq<Trace>)
    requires AllMove(t, op, before, after) && |traces| == |before| && |extended| == |after|
    requires forall i :: 0 <= i < |before| ==>
      |traces[i]| > 0 && traces[i][|traces[i]| - 1] == before[i].payload && IsPath(t, traces[i])
    requires forall i :: 0 <= i < |after| ==>
      var a := Ancestor(op, before, i);
      extended[i] == (if a.Some? && a.value < |traces| then traces[a.value] else []) + [after[i].payload]
    ensures forall i :: 0 <= i < |after| ==>
      |extended[i]| > 0 && extended[i][|extended[i]| - 1] == after[i].payload && IsPath(t, extended[i])
  {
  }

  /** Over every run that neither generates nor restores it, whatever is edited, suggested,
      rewritten, approved, reopened or issued in between: each row's history is a path of
      its lifecycle table, and no work package's schedule ever takes a different value. */
  lemma {:induction false} LifecyclesArePaths(p: Project, calls: seq<Call>, t: DocType, traces: seq<Trace>)
    requires HasRows(t) && t in p && Traced(p[t], t, traces) && NeverRewritten(calls, t)
    ensures t in Run(p, calls) && Traced(Run(p, calls)[t], t, Traces(p, calls, t, traces))
    decreases |calls|
  {
    if calls != [] {
      StepTraced(p, calls[0], t, traces);
      assert forall i :: 0 <= i < |calls[1..]| ==> calls[1..][i] == calls[i + 1];
      LifecyclesArePaths(Step(p, calls[0]), calls[1..], t, Extend(p, calls[0], t, traces));
    }
  }

  /** Acceptance and supersession are for good: no later moment of the row's history shows
      anything else. */
  lemma {:induction false} AcceptanceIsForGood(trace: Trace, i: nat, j: nat)
    requires IsPath(DependencySheet, trace) && i <= j < |trace|
    requires StateOf(trace[i]) in {Some(Accepted), Some(Superseded)}
    ensures StateOf(trace[j]) == StateOf(trace[i])
    decreases j
  {
    if i < j {
      AcceptanceIsForGood(trace, i, j - 1);
      assert Moves(DependencySheet, trace[j - 1], trace[j]);
    }
  }

  /** No call waives, supersedes or puts a dependency under validation: the table has those
      states, and a row is in one only if it was written there. */
  lemma {:induction false} UnreachedStatesAreInitial(trace: Trace, j: nat)
    requires IsPath(DependencySheet, trace) && j < |trace|
    requires StateOf(trace[j]) in {Some(Waived), Some(Validating), Some(Superseded), Some(NotRequested)}
    ensures forall i :: 0 <= i <= j ==> StateOf(trace[i]) == StateOf(trace[j])
    decreases j
  {
    if j > 0 {
      assert Moves(DependencySheet, trace[j - 1], trace[j]);
      UnreachedStatesAreInitial(trace, j - 1);
    }
  }

  /** A schedule field a work package has at the end is one it always had, unchanged. */
  lemma {:induction false} ScheduleNeverMoves(trace: Trace, i: nat, j: nat)
    requires IsPath(WorkBreakdown, trace) && i <= j < |trace|
    ensures SameSchedule(trace[i], trace[j])
    decreases j
  {
    if i < j {
      ScheduleNeverMoves(trace, i, j - 1);
      assert Moves(WorkBreakdown, trace[j - 1], trace[j]);
    }
  }
}
