/** What history keeps: signed versions never change, and the archive and the working
    version agree except after two operations. */
module DocumentHistory {
  import opened Wrappers
  import opened DocumentTypes
  import opened DocumentContent
  import opened DocumentEngine
  import opened DocumentProject

  /* ----------------------------------------------------------- version numbers */

  lemma LatestIs(versions: set<nat>, v: nat)
    requires v in versions && forall w :: w in versions ==> w <= v
    ensures Latest(versions) == v
  {
  }

  lemma NextIsNew(archive: map<nat, Archived>)
    ensures NextVersion(archive) !in archive
    ensures forall v :: v in archive ==> v < NextVersion(archive)
  {
    forall v | v in archive ensures v < NextVersion(archive) { assert v in archive.Keys; }
  }

  /** The working version's number is archived or the next free one. */
  ghost predicate InReach(doc: Doc) {
    doc.record.version in doc.archive || doc.record.version == NextVersion(doc.archive)
  }

  /** The working version is the newest archived one, archived as it now stands. */
  ghost predicate Synced(doc: Doc) {
    && doc.record.version in doc.archive
    && doc.record.version == Latest(doc.archive.Keys)
    && doc.archive[doc.record.version].content == Current(doc)
  }

  /** Archiving a working version numbered past all of history leaves the two in step. */
  lemma ArchivedIsSynced(doc: Doc, lineage: Lineage)
    requires forall v :: v in doc.archive ==> v <= doc.record.version
    ensures Synced(ArchiveWorking(doc, lineage))
    ensures ArchiveWorking(doc, lineage).archive[doc.record.version].status == doc.record.status
  {
    var after := ArchiveWorking(doc, lineage);
    assert after.archive.Keys == doc.archive.Keys + {doc.record.version};
    LatestIs(after.archive.Keys, doc.record.version);
  }

  /** A cut numbered past all of history is synced, and adds to history without change. */
  lemma CutVersionSyncs(archived: Doc, t: DocType, next: Record, content: Content, lineage: Lineage)
    requires next.version == NextVersion(archived.archive)
    ensures var after := CutVersion(archived, t, next, content, lineage);
      && Synced(after) && after.record == next && after.archive[next.version].status == next.status
      && (forall v :: v in archived.archive ==> v in after.archive && after.archive[v] == archived.archive[v])
  {
    NextIsNew(archived.archive);
    ArchivedIsSynced(Write(archived.(record := next), t, next.version, content), lineage);
  }

  /** Archiving the working version first can only raise the next number. */
  lemma ArchiveFirst(doc: Doc, status: Status, lineage: Lineage)
    ensures var archived := Archive(doc, doc.record, Current(doc), status, lineage);
      && NextVersion(archived.archive) >= NextVersion(doc.archive)
      && NextVersion(archived.archive) > doc.record.version
      && archived.archive == doc.archive[doc.record.version := archived.archive[doc.record.version]]
      && archived.archive[doc.record.version].content == Current(doc)
      && archived.archive[doc.record.version].status == status
  {
    var archived := Archive(doc, doc.record, Current(doc), status, lineage);
    assert archived.archive.Keys == doc.archive.Keys + {doc.record.version};
    assert Latest(doc.archive.Keys) <= Latest(archived.archive.Keys) by {
      if doc.archive.Keys != {} { assert Latest(doc.archive.Keys) in archived.archive.Keys; }
    }
    assert doc.record.version in archived.archive.Keys;
  }

  /** History after a call: it only grows, and only the working version's entry may have
      been rewritten, with the content the version had. */
  ghost predicate HistoryKept(doc: Doc, archivesFirst: bool, after: Doc) {
    forall v :: v in doc.archive ==>
      && v in after.archive
      && if v == doc.record.version && archivesFirst
         then after.archive[v].content == Current(doc) && after.archive[v].status == doc.record.status
         else after.archive[v] == doc.archive[v]
  }

  /** What every cutting operation leaves behind. */
  ghost predicate CleanCut(doc: Doc, archivesFirst: bool, after: Doc) {
    && Synced(after) && HistoryKept(doc, archivesFirst, after)
    && after.record.version >= NextVersion(doc.archive)
    && after.archive[after.record.version].status == after.record.status
    && !IsSigned(after.record.status)
  }

  lemma AfterContentChangeCut(doc: Doc, edited: Doc, t: DocType, changeType: Option<ChangeType>)
    requires edited.archive == doc.archive && edited.record.status == doc.record.status && IsEditable(doc.record.status)
    ensures CleanCut(doc, false, AfterContentChange(edited, t, doc.record, changeType))
    ensures AfterContentChange(edited, t, doc.record, changeType).record.version == NextVersion(doc.archive)
  {
    CutVersionSyncs(edited, t, AfterContentChange(edited, t, doc.record, changeType).record,
                    CarryForward(ContentAt(edited, doc.record.version)), Lineage(changeType, None, None));
  }

  lemma EditCut(doc: Doc, t: DocType, expected: nat, edit: Edit, env: Env, gate: Gate)
    requires EditContent(doc, t, expected, edit, env, gate).Ok?
    ensures CleanCut(doc, false, EditContent(doc, t, expected, edit, env, gate).value)
  {
    var edited := Overwrite(doc, doc.record.version, ApplyEdit(t, Current(doc), edit, env).value);
    AfterContentChangeCut(doc, edited, t, ChangeTypeOf(edit));
  }

  lemma ExcludeCut(doc: Doc, t: DocType, expected: nat, requirementId: string, reason: string, known: bool, gate: Gate)
    requires ExcludeRequirement(doc, t, expected, requirementId, reason, known, gate).Ok?
    ensures CleanCut(doc, false, ExcludeRequirement(doc, t, expected, requirementId, reason, known, gate).value)
  {
    var record := doc.record.(exclusions := Exclude(doc.record.exclusions, requirementId, reason),
                              recordVersion := doc.record.recordVersion + 1);
    AfterContentChangeCut(doc, doc.(record := record), t, None);
  }

  lemma GenerateCut(doc: Doc, t: DocType, expected: nat, composed: ComposedContent, env: Env, gate: Gate)
    requires Generate(doc, t, expected, composed, env, gate).Ok?
    ensures CleanCut(doc, true, Generate(doc, t, expected, composed, env, gate).value)
  {
    ArchiveFirst(doc, doc.record.status, NO_LINEAGE);
    CutVersionSyncs(ArchiveWorking(doc, NO_LINEAGE), t, Generate(doc, t, expected, composed, env, gate).value.record,
                    Compose(composed, Current(doc), env.nextId), Lineage(Some(Regenerated), None, None));
  }

  lemma ReopenCut(doc: Doc, t: DocType, expected: nat, env: Env)
    requires doc.record.status == Approved && Reopen(doc, t, expected, env).Ok?
    ensures CleanCut(doc, true, Reopen(doc, t, expected, env).value)
  {
    ArchiveFirst(doc, Approved, NO_LINEAGE);
    CutVersionSyncs(Archive(doc, doc.record, Current(doc), Approved, NO_LINEAGE), t,
                    Reopen(doc, t, expected, env).value.record,
                    ReopenedContent(Current(doc), env.nextId), Lineage(Some(Reopened), None, Some(doc.record.version)));
  }

  lemma RestoreCut(doc: Doc, t: DocType, expected: nat, from: nat, env: Env, gate: Gate)
    requires Restore(doc, t, expected, from, env, gate).Ok?
    ensures CleanCut(doc, true, Restore(doc, t, expected, from, env, gate).value)
  {
    ArchiveFirst(doc, doc.record.status, NO_LINEAGE);
    CutVersionSyncs(ArchiveWorking(doc, NO_LINEAGE), t, Restore(doc, t, expected, from, env, gate).value.record,
                    RestoredContent(doc.archive[from].content, env.nextId),
                    Lineage(Some(RestoredChange), Some(from), None));
  }

  lemma ReviseCut(doc: Doc, t: DocType, expected: nat, env: Env)
    requires Revise(doc, t, expected, env).Ok?
    ensures CleanCut(doc, true, Revise(doc, t, expected, env).value)
  {
    var issued := Lineage(Some(Issued), None, None);
    ArchiveFirst(doc, Final, issued);
    var archived := Archive(doc, doc.record, Current(doc), Final, issued);
    NextIsNew(archived.archive);
    var after := Revise(doc, t, expected, env).value;
    var written := archived.(record := after.record, sections := after.sections, features := after.features);
    ArchivedIsSynced(written, Lineage(Some(RevisedFromFinal), None, Some(doc.record.version)));
  }

  lemma RegenerateRowsCut(doc: Doc, t: DocType, expected: nat, selection: Selection, named: map<nat, Payload>,
                          composed: seq<ComposedRow>, env: Env, gate: Gate)
    requires InReach(doc)
    requires RegenerateRows(doc, t, expected, selection, named, composed, env, gate).Ok?
    ensures CleanCut(doc, true, RegenerateRows(doc, t, expected, selection, named, composed, env, gate).value)
  {
    ArchiveFirst(doc, doc.record.status, NO_LINEAGE);
    NextIsNew(doc.archive);
    var archived := ArchiveWorking(doc, NO_LINEAGE);
    var after := RegenerateRows(doc, t, expected, selection, named, composed, env, gate).value;
    var written := archived.(record := after.record, sections := after.sections, rows := after.rows);
    ArchivedIsSynced(written, Lineage(Some(TargetedRegeneration), None, None));
  }

  /* ------------------------------------------- operations that cut no archived version */

  /** A call that leaves the working version where it is, and history but for one entry. */
  ghost predicate StaysPut(doc: Doc, after: Doc) {
    && after.record.version == doc.record.version
    && (forall v :: v in doc.archive ==> v in after.archive)
    && (forall v :: v in doc.archive && v != doc.record.version ==> after.archive[v] == doc.archive[v])
  }

  lemma ApproveStays(doc: Doc, t: DocType, expected: nat, blocked: bool, env: Env, gate: Gate)
    requires InReach(doc) && Approve(doc, t, expected, blocked, env, gate).Ok?
    ensures var after := Approve(doc, t, expected, blocked, env, gate).value;
      && StaysPut(doc, after) && Current(after) == Current(doc) && after.record.status == Approved
      && doc.record.version in after.archive
      && after.archive[doc.record.version].content == Current(doc)
      && after.archive[doc.record.version].status == Approved
      && !IsSigned(doc.record.status)
      && (Synced(doc) ==> Synced(after))
  {
    var after := Approve(doc, t, expected, blocked, env, gate).value;
    assert after.archive.Keys == doc.archive.Keys + {doc.record.version};
    if Synced(doc) { assert after.archive.Keys == doc.archive.Keys; }
  }

  lemma MarkFinalStays(doc: Doc, t: DocType, expected: nat, env: Env)
    requires MarkFinal(doc, t, expected, env).Ok?
    ensures var after := MarkFinal(doc, t, expected, env).value;
      && StaysPut(doc, after) && Current(after) == Current(doc)
      && doc.record.status == Approved && after.record.status == Final
      && after.archive.Keys == doc.archive.Keys
      && (doc.record.version in doc.archive ==>
            after.archive[doc.record.version] == doc.archive[doc.record.version].(status := Final))
      && (Synced(doc) ==> Synced(after))
  {
    var after := MarkFinal(doc, t, expected, env).value;
    assert after.archive.Keys == doc.archive.Keys;
  }

  lemma RegenerateFeaturesCut(doc: Doc, t: DocType, expected: nat, selection: Selection, sameModule: string -> bool,
                              named: map<string, Wording>, env: Env, gate: Gate)
    requires RegenerateFeatures(doc, t, expected, selection, sameModule, named, env, gate).Ok?
    ensures var after := RegenerateFeatures(doc, t, expected, selection, sameModule, named, env, gate).value;
      && HistoryKept(doc, true, after) && doc.record.version in after.archive
      && after.archive[doc.record.version].content == Current(doc)
      && after.archive[doc.record.version].status == doc.record.status
      && after.record.version == NextVersion(after.archive) && after.record.version > doc.record.version
      && !IsSigned(after.record.status)
  {
    ArchiveFirst(doc, doc.record.status, NO_LINEAGE);
  }
}
