/** The document service as the program runs it: stored collections changed step by step,
    every operation proved against the engine's step function. */
module DocumentService {
  import opened Wrappers
  import opened DocumentTypes
  import opened DocumentContent
  import opened DocumentEngine
  import opened DocumentProject
  import opened DocumentSigned
  import opened DocumentFoundations

  /** What one document has before anything is written. */
  function Blank(record: Record): Doc { Doc(record, map[], map[], map[], map[]) }

  class DocumentsRepository {
    var docs: Project

    constructor ()
      ensures docs == map[]
    {
      docs := map[];
    }

    method Create(t: DocType, record: Record)
      requires t !in docs
      modifies this
      ensures docs == old(docs)[t := Blank(record)]
    {
      docs := docs[t := Blank(record)];
    }

    /** The compare-and-set write: it lands only on the record version it was based on. */
    method Update(t: DocType, expected: nat, changes: Record) returns (won: bool)
      modifies this
      ensures won <==> t in old(docs) && old(docs)[t].record.recordVersion == expected
      ensures docs == if won then old(docs)[t := old(docs)[t].(record := changes.(recordVersion := expected + 1))]
              else old(docs)
    {
      won := t in docs && docs[t].record.recordVersion == expected;
      if won { docs := docs[t := docs[t].(record := changes.(recordVersion := expected + 1))]; }
    }

    /** Record the reasons, whatever the record version is now. */
    method Touch(t: DocType, reasons: seq<DocType>)
      modifies this
      ensures docs == if t in old(docs)
        then old(docs)[t := old(docs)[t].(record := old(docs)[t].record.(
               outdatedBy := reasons, recordVersion := old(docs)[t].record.recordVersion + 1))]
        else old(docs)
    {
      if t in docs {
        var record := docs[t].record;
        docs := docs[t :=
            docs[t].(record := record.(outdatedBy := reasons, recordVersion := record.recordVersion + 1))];
      }
    }

    /** One past the newest archived version. The working version is not looked at. */
    method NextVersion(t: DocType) returns (version: nat)
      requires t in docs
      ensures version == DocumentEngine.NextVersion(docs[t].archive)
    {
      var latest, left := 0, docs[t].archive.Keys;
      while left != {}
        invariant left <= docs[t].archive.Keys
        invariant latest == 0 || latest in docs[t].archive.Keys
        invariant forall v :: v in docs[t].archive.Keys && v !in left ==> v <= latest
        decreases |left|
      {
        var v :| v in left;
        left := left - {v};
        if v > latest { latest := v; }
      }
      version := latest + 1;
    }

    method CurrentContent(t: DocType, version: nat) returns (content: Content)
      requires t in docs
      ensures content == ContentAt(docs[t], version)
    {
      var doc := docs[t];
      content := Content(
        if version in doc.sections then doc.sections[version] else [],
        if version in doc.features then doc.features[version] else [],
        if version in doc.rows then doc.rows[version] else []);
    }

    method ReplaceSections(t: DocType, version: nat, sections: seq<Section>)
      requires t in docs
      modifies this
      ensures docs == old(docs)[t := old(docs)[t].(sections := old(docs)[t].sections[version := sections])]
    {
      docs := docs[t := docs[t].(sections := docs[t].sections[version := sections])];
    }

    method ReplaceFeatures(t: DocType, version: nat, features: seq<Feature>)
      requires t in docs
      modifies this
      ensures docs == old(docs)[t := old(docs)[t].(features := old(docs)[t].features[version := features])]
    {
      docs := docs[t := docs[t].(features := docs[t].features[version := features])];
    }

    /** Every row of the document goes, whatever version it belonged to. */
    method ReplaceRows(t: DocType, version: nat, rows: seq<Row>)
      requires t in docs
      modifies this
      ensures docs == old(docs)[t := old(docs)[t].(rows := map[version := rows])]
    {
      docs := docs[t := docs[t].(rows := map[version := rows])];
    }

    method InsertRows(t: DocType, version: nat, rows: seq<Row>)
      requires t in docs
      modifies this
      ensures docs == if rows == [] then old(docs)
        else old(docs)[t :=
          old(docs)[t].(rows := old(docs)[t].rows[version := ContentAt(old(docs)[t], version).rows + rows])]
    {
      if rows != [] {
        var content := CurrentContent(t, version);
        docs := docs[t := docs[t].(rows := docs[t].rows[version := content.rows + rows])];
      }
    }

    /** An edit's own write, to the live content of one version. */
    method WriteLive(t: DocType, version: nat, content: Content)
      requires t in docs
      modifies this
      ensures docs == old(docs)[t := Overwrite(old(docs)[t], version, content)]
    {
      docs := docs[t := Overwrite(docs[t], version, content)];
    }

    method CreateVersion(t: DocType, version: nat, archived: Archived)
      requires t in docs && version !in docs[t].archive
      modifies this
      ensures docs == old(docs)[t := old(docs)[t].(archive := old(docs)[t].archive[version := archived])]
    {
      docs := docs[t := docs[t].(archive := docs[t].archive[version := archived])];
    }

    /** Changes a version that is stored; otherwise nothing happens. */
    method UpdateVersion(t: DocType, version: nat, archived: Archived)
      requires t in docs
      modifies this
      ensures docs == if version in old(docs)[t].archive
        then old(docs)[t := old(docs)[t].(archive := old(docs)[t].archive[version := archived])]
        else old(docs)
    {
      if version in docs[t].archive {
        docs := docs[t := docs[t].(archive := docs[t].archive[version := archived])];
      }
    }
  }

  class DocumentsService {
    const repository: DocumentsRepository

    constructor (repository: DocumentsRepository)
      ensures this.repository == repository
    {
      this.repository := repository;
    }

    /* ------------------------------------------------------------ shared steps */

    method Archive(t: DocType, record: Record, content: Content, status: Status, lineage: Lineage)
      requires t in repository.docs
      modifies repository
      ensures repository.docs
           == old(repository.docs)[t :=
               DocumentEngine.Archive(old(repository.docs)[t], record, content, status, lineage)]
    {
      var stored := repository.docs[t].archive;
      var existing := if record.version in stored then stored[record.version].lineage else NO_LINEAGE;
      var merged := Lineage(Kept(existing.changeType, lineage.changeType),
                            Kept(existing.restoredFrom, lineage.restoredFrom),
                            Kept(existing.revisedFrom, lineage.revisedFrom));
      var version := Archived(status, content, record.validation, record.against, merged);
      if record.version in stored {
        repository.UpdateVersion(t, record.version, version);
      } else {
        repository.CreateVersion(t, record.version, version);
      }
    }

    method ArchiveCurrent(t: DocType, lineage: Lineage)
      requires t in repository.docs
      modifies repository
      ensures repository.docs == old(repository.docs)[t := ArchiveWorking(old(repository.docs)[t], lineage)]
    {
      var record := repository.docs[t].record;
      var content := repository.CurrentContent(t, record.version);
      Archive(t, record, content, record.status, lineage);
    }

    /** Write a new version's content: sections, features, and rows where there are any. */
    method Store(t: DocType, version: nat, content: Content)
      requires t in repository.docs
      modifies repository
      ensures repository.docs == old(repository.docs)[t := Write(old(repository.docs)[t], t, version, content)]
    {
      repository.ReplaceSections(t, version, content.sections);
      repository.ReplaceFeatures(t, version, content.features);
      if HasRows(t) { repository.ReplaceRows(t, version, content.rows); }
    }

    method Tell(t: DocType, source: DocType)
      modifies repository
      ensures repository.docs == Told(old(repository.docs), t, source)
    {
      if t in repository.docs && repository.docs[t].record.status != NotStarted {
        repository.Touch(t, Without(repository.docs[t].record.outdatedBy, source) + [source]);
      }
    }

    method MarkDependentsOutdated(source: DocType)
      modifies repository
      ensures repository.docs == MarkDependents(old(repository.docs), source)
    {
      ghost var before := repository.docs;
      var dependents := DownstreamDocuments(source);
      for i := 0 to |dependents|
        invariant repository.docs == MarkThose(before, source, dependents[..i])
      {
        assert dependents[..i + 1] == dependents[..i] + [dependents[i]];
        assert dependents[i] !in dependents[..i] by {
          assert forall k :: 0 <= k < i ==> Order(dependents[k]) < Order(dependents[i]);
        }
        MarkOne(before, source, dependents[..i], dependents[i]);
        Tell(dependents[i], source);
      }
      assert dependents[..|dependents|] == dependents;
      MarkAll(before, source, dependents);
    }

    /** What the cutting operations end with: commit the record, write the content, archive. */
    method Cut(t: DocType, next: Record, content: Content, lineage: Lineage)
      requires t in repository.docs && next.recordVersion == repository.docs[t].record.recordVersion + 1
      modifies repository
      ensures repository.docs == old(repository.docs)[t :=
              CutVersion(old(repository.docs)[t], t, next, content, lineage)]
    {
      var won := repository.Update(t, repository.docs[t].record.recordVersion, next);
      Store(t, next.version, content);
      ArchiveCurrent(t, lineage);
    }

    /** The gate every content change goes through. */
    method EditableDocument(t: DocType, expected: nat, env: Env) returns (found: Result<Record, Error>)
      ensures found.Ok? <==>
        && t in repository.docs && repository.docs[t].record.recordVersion == expected
        && repository.docs[t].record.status in {Draft, NeedsRevision, Approved}
        && IsUnlocked(repository.docs, t, env.authority)
      ensures found.Ok? ==> found.value == repository.docs[t].record
      ensures found.Refused? ==> RefusedFor(found.error, repository.docs, t, expected, env)
      ensures t in repository.docs ==>
        found == match CheckEditable(repository.docs[t], expected, GateFor(repository.docs, t, env.authority))
                 case Some(error) => Refused(error)
                 case None => Ok(repository.docs[t].record)
    {
      if t !in repository.docs { return Refused(NotFound); }
      var record := repository.docs[t].record;
      if record.recordVersion != expected { return Refused(VersionConflict); }
      if !IsEditable(record.status) {
        return Refused(if record.status == Final then DocumentFinal else InvalidTransition);
      }
      if !IsUnlocked(repository.docs, t, env.authority) { return Refused(DocumentLocked); }
      return Ok(record);
    }

    /** The edited live content becomes a new version. */
    method CutEdited(t: DocType, record: Record, changeType: Option<ChangeType>)
      requires t in repository.docs
      modifies repository
      ensures repository.docs
           == old(repository.docs)[t :=
               DocumentEngine.AfterContentChange(old(repository.docs)[t], t, record, changeType)]
    {
      var content := repository.CurrentContent(t, record.version);
      var version := repository.NextVersion(t);
      var live := repository.docs[t].record;
      Cut(t, live.(version := version, recordVersion := live.recordVersion + 1,
                   status := if record.status == Approved then Draft else live.status,
                   supersedes := Some(record.version), validation := None),
          CarryForward(content), Lineage(changeType, None, None));
    }

    /** After any content change: cut, and tell the documents downstream of an approved one. */
    method AfterContentChange(t: DocType, record: Record, changeType: Option<ChangeType>)
      requires t in repository.docs
      modifies repository
      ensures repository.docs == Effect(old(repository.docs), t,
        Ok(DocumentEngine.AfterContentChange(old(repository.docs)[t], t, record, changeType)),
        record.status == Approved)
    {
      CutEdited(t, record, changeType);
      if record.status == Approved { MarkDependentsOutdated(t); }
    }

    /* --------------------------------------------------------------- operations */

    /** Archive what is being replaced, then cut a version with the new composition. */
    method WriteAgain(t: DocType, composed: ComposedContent, env: Env)
      requires t in repository.docs
      modifies repository
      ensures repository.docs == old(repository.docs)[t := Regenerate(old(repository.docs)[t], t, composed, env)]
    {
      var existing := repository.docs[t].record;
      var previous := repository.CurrentContent(t, existing.version);
      ArchiveCurrent(t, NO_LINEAGE);
      var version := repository.NextVersion(t);
      Cut(t, existing.(version := version, recordVersion := existing.recordVersion + 1, status := Draft,
                       against := Stamp(existing.against, env.authority), outdatedBy := [],
                       supersedes := Some(existing.version), validation := None),
          Compose(composed, previous, env.nextId), Lineage(Some(Regenerated), None, None));
    }

    method WriteFirst(t: DocType, composed: ComposedContent, env: Env)
      requires t !in repository.docs
      modifies repository
      ensures repository.docs == old(repository.docs)[t := FirstVersion(t, composed, env)]
    {
      var record := Record(1, 0, Draft, None, [], [], Stamp(Against(None, None, None), env.authority), None);
      repository.Create(t, record);
      Store(t, record.version, Compose(composed, Content([], [], []), env.nextId));
      ArchiveCurrent(t, Lineage(Some(FirstGenerated), None, None));
    }

    method WriteComposed(t: DocType, composed: ComposedContent, env: Env)
      modifies repository
      ensures repository.docs == old(repository.docs)[t :=
        if t in old(repository.docs) then Regenerate(old(repository.docs)[t], t, composed, env)
          else FirstVersion(t, composed, env)]
    {
      if t in repository.docs { WriteAgain(t, composed, env); } else { WriteFirst(t, composed, env); }
    }

    method Generate(t: DocType, expected: nat, composed: ComposedContent, env: Env) returns (error: Option<Error>)
      modifies repository
      ensures repository.docs == Step(old(repository.docs), Call(t, GenerateOp(expected, composed), env))
      ensures error == ErrorOf(Outcome(old(repository.docs), Call(t, GenerateOp(expected, composed), env)))
    {
      if !IsUnlocked(repository.docs, t, env.authority) { return Some(DocumentLocked); }
      if t in repository.docs {
        var existing := repository.docs[t].record;
        if existing.recordVersion != expected { return Some(VersionConflict); }
        if IsRunning(existing.status) { return Some(DocumentGenerating); }
        if existing.status == Final { return Some(DocumentFinal); }
        if !CanGenerate(existing.status) { return Some(InvalidTransition); }
      }
      WriteComposed(t, composed, env);
      return None;
    }

    method WriteEdited(t: DocType, content: Content, changeType: Option<ChangeType>)
      requires t in repository.docs
      modifies repository
      ensures var doc := old(repository.docs)[t];
        repository.docs
            == Effect(old(repository.docs), t, Ok(WithEdit(doc, t, content, changeType)), doc.record.status == Approved)
    {
      ghost var before := repository.docs;
      var record := repository.docs[t].record;
      repository.WriteLive(t, record.version, content);
      ghost var written := repository.docs[t];
      AfterContentChange(t, record, changeType);
      EffectReplaces(before, t, written, DocumentEngine.AfterContentChange(written, t, record, changeType),
          record.status == Approved);
    }

    method TryExclude(t: DocType, requirementId: string, reason: string, known: bool) returns (error: Option<Error>)
      requires t in repository.docs
      modifies repository
      ensures var doc := old(repository.docs)[t];
        && repository.docs
           == Effect(old(repository.docs), t, Excluded(doc, t, requirementId, reason, known),
               doc.record.status == Approved)
        && error == ErrorOf(Excluded(doc, t, requirementId, reason, known))
    {
      if !known { return Some(UnknownRequirement); }
      ghost var before := repository.docs;
      var record := repository.docs[t].record;
      Note(t, requirementId, reason);
      ghost var noted := repository.docs[t];
      AfterContentChange(t, record, None);
      EffectReplaces(before, t, noted, DocumentEngine.AfterContentChange(noted, t, record, None),
          record.status == Approved);
      return None;
    }

    method Note(t: DocType, requirementId: string, reason: string)
      requires t in repository.docs
      modifies repository
      ensures repository.docs == old(repository.docs)[t := Noted(old(repository.docs)[t], requirementId, reason)]
    {
      var record := repository.docs[t].record;
      var won := repository.Update(t, record.recordVersion,
                                   record.(exclusions := Exclude(record.exclusions, requirementId, reason)));
    }

    method TryEdit(t: DocType, edit: Edit, env: Env) returns (error: Option<Error>)
      requires t in repository.docs
      modifies repository
      ensures var doc := old(repository.docs)[t];
        && repository.docs == Effect(old(repository.docs), t, Edited(doc, t, edit, env), doc.record.status == Approved)
        && error == ErrorOf(Edited(doc, t, edit, env))
    {
      var content := repository.CurrentContent(t, repository.docs[t].record.version);
      var edited := ApplyEdit(t, content, edit, env);
      if edited.Refused? { return Some(edited.error); }
      WriteEdited(t, edited.value, ChangeTypeOf(edit));
      return None;
    }

    /** Every edit of a section, a feature or a row: change it in place, then cut. */
    method Change(t: DocType, expected: nat, edit: Edit, env: Env) returns (error: Option<Error>)
      modifies repository
      ensures repository.docs == Step(old(repository.docs), Call(t, EditOp(expected, edit), env))
      ensures error == ErrorOf(Outcome(old(repository.docs), Call(t, EditOp(expected, edit), env)))
    {
      var found := EditableDocument(t, expected, env);
      if found.Refused? { return Some(found.error); }
      error := TryEdit(t, edit, env);
    }

    method ExcludeRequirement(t: DocType, expected: nat, requirementId: string, reason: string, known: bool, env: Env)
      returns (error: Option<Error>)
      modifies repository
      ensures repository.docs
              == Step(old(repository.docs), Call(t, ExcludeOp(expected, requirementId, reason, known), env))
      ensures error
              == ErrorOf(Outcome(old(repository.docs), Call(t, ExcludeOp(expected, requirementId, reason, known), env)))
    {
      var found := EditableDocument(t, expected, env);
      if found.Refused? { return Some(found.error); }
      error := TryExclude(t, requirementId, reason, known);
    }

    /** Commit the approval, then archive the version as approved. */
    method Sign(t: DocType)
      requires t in repository.docs
      modifies repository
      ensures repository.docs == old(repository.docs)[t := Signed(old(repository.docs)[t])]
    {
      var record := repository.docs[t].record;
      var won := repository.Update(t, record.recordVersion, record.(status := Approved));
      var content := repository.CurrentContent(t, record.version);
      Archive(t, record, content, Approved, NO_LINEAGE);
    }

    method Approve(t: DocType, expected: nat, blocked: bool, env: Env) returns (error: Option<Error>)
      modifies repository
      ensures repository.docs == Step(old(repository.docs), Call(t, ApproveOp(expected, blocked), env))
      ensures error == ErrorOf(Outcome(old(repository.docs), Call(t, ApproveOp(expected, blocked), env)))
    {
      if t !in repository.docs { return Some(NotFound); }
      var record := repository.docs[t].record;
      if record.recordVersion != expected { return Some(VersionConflict); }
      var content := repository.CurrentContent(t, record.version);
      if IsOutdated(t, record, env.authority) { return Some(UpstreamStale); }
      if IsSigned(record.status) { return Some(AlreadyApproved); }
      if !CanTransition(record.status, Approved) { return Some(InvalidTransition); }
      if record.validation.None? || record.validation.value.documentVersion != record.version {
        return Some(NotValidated);
      }
      if !Permits(record.validation.value) || blocked || !PrerequisitesSigned(repository.docs, t, env.authority)
         || HasUndecided(content) || HasUnconfirmed(t, content) {
        return Some(HasBlockers);
      }
      Sign(t);
      return None;
    }

    method ReopenApproved(t: DocType, env: Env)
      requires t in repository.docs
      modifies repository
      ensures repository.docs == old(repository.docs)[t := Withdrawn(old(repository.docs)[t], t, env)]
    {
      var record := repository.docs[t].record;
      var approved := repository.CurrentContent(t, record.version);
      Archive(t, record, approved, Approved, NO_LINEAGE);
      var version := repository.NextVersion(t);
      Store(t, version, ReopenedContent(approved, env.nextId));
      var won := repository.Update(t, record.recordVersion,
        record.(version := version, status := NeedsRevision, supersedes := Some(record.version), validation := None));
      ArchiveCurrent(t, Lineage(Some(Reopened), None, Some(record.version)));
    }

    method Reopen(t: DocType, expected: nat, env: Env) returns (error: Option<Error>)
      modifies repository
      ensures repository.docs == Step(old(repository.docs), Call(t, ReopenOp(expected), env))
      ensures error == ErrorOf(Outcome(old(repository.docs), Call(t, ReopenOp(expected), env)))
    {
      if t !in repository.docs { return Some(NotFound); }
      var record := repository.docs[t].record;
      if record.recordVersion != expected { return Some(VersionConflict); }
      if record.status == Final {
        ReviseIssued(t, env);
      } else if record.status == Approved {
        ReopenApproved(t, env);
      } else {
        return Some(NotApproved);
      }
      MarkDependentsOutdated(t);
      return None;
    }

    method ReviseIssued(t: DocType, env: Env)
      requires t in repository.docs
      modifies repository
      ensures repository.docs == old(repository.docs)[t := NewRevision(old(repository.docs)[t], env)]
    {
      var record := repository.docs[t].record;
      var issued := repository.CurrentContent(t, record.version);
      Archive(t, record, issued, Final, Lineage(Some(Issued), None, None));
      var version := repository.NextVersion(t);
      repository.ReplaceSections(t, version, RevisedSections(issued.sections, env.nextId));
      repository.ReplaceFeatures(t, version, CopyFeatures(issued.features, FeatureIds(env.nextId, issued)));
      var won := repository.Update(t, record.recordVersion,
        record.(version := version, status := Draft, supersedes := Some(record.version), validation := None,
                outdatedBy := [], against := Stamp(record.against, env.authority)));
      ArchiveCurrent(t, Lineage(Some(RevisedFromFinal), None, Some(record.version)));
    }

    method Revise(t: DocType, expected: nat, env: Env) returns (error: Option<Error>)
      modifies repository
      ensures repository.docs == Step(old(repository.docs), Call(t, ReviseOp(expected), env))
      ensures error == ErrorOf(Outcome(old(repository.docs), Call(t, ReviseOp(expected), env)))
    {
      if t !in repository.docs { return Some(NotFound); }
      var record := repository.docs[t].record;
      if record.recordVersion != expected { return Some(VersionConflict); }
      if record.status != Final { return Some(NotApproved); }
      ReviseIssued(t, env);
      MarkDependentsOutdated(t);
      return None;
    }

    method MarkFinal(t: DocType, expected: nat, env: Env) returns (error: Option<Error>)
      modifies repository
      ensures repository.docs == Step(old(repository.docs), Call(t, MarkFinalOp(expected), env))
      ensures error == ErrorOf(Outcome(old(repository.docs), Call(t, MarkFinalOp(expected), env)))
    {
      if t !in repository.docs { return Some(NotFound); }
      var record := repository.docs[t].record;
      if record.recordVersion != expected { return Some(VersionConflict); }
      if IsOutdated(t, record, env.authority) { return Some(UpstreamStale); }
      if !CanTransition(record.status, Final) {
        return Some(if record.status == Final then DocumentFinal else NotApproved);
      }
      var won := repository.Update(t, record.recordVersion, record.(status := Final));
      if record.version in repository.docs[t].archive {
        repository.UpdateVersion(t, record.version, repository.docs[t].archive[record.version].(status := Final));
      }
      return None;
    }

    method CopyForward(t: DocType, from: nat, env: Env)
      requires t in repository.docs && from in repository.docs[t].archive
      modifies repository
      ensures repository.docs == old(repository.docs)[t := CopiedForward(old(repository.docs)[t], t, from, env)]
    {
      var record, stored := repository.docs[t].record, repository.docs[t].archive[from].content;
      ArchiveCurrent(t, NO_LINEAGE);
      var version := repository.NextVersion(t);
      Cut(t, record.(version := version, recordVersion := record.recordVersion + 1, status := Draft,
                     supersedes := Some(record.version), validation := None),
          RestoredContent(stored, env.nextId), Lineage(Some(RestoredChange), Some(from), None));
    }

    method Restore(t: DocType, expected: nat, from: nat, env: Env) returns (error: Option<Error>)
      modifies repository
      ensures repository.docs == Step(old(repository.docs), Call(t, RestoreOp(expected, from), env))
      ensures error == ErrorOf(Outcome(old(repository.docs), Call(t, RestoreOp(expected, from), env)))
    {
      var found := EditableDocument(t, expected, env);
      if found.Refused? { return Some(found.error); }
      if from !in repository.docs[t].archive { return Some(VersionNotFound); }
      CopyForward(t, from, env);
      return None;
    }

    method AddAssumptionCandidates(t: DocType, expected: nat, candidates: seq<ComposedRow>, env: Env)
        returns (error: Option<Error>)
      modifies repository
      ensures repository.docs == Step(old(repository.docs), Call(t, CandidatesOp(expected, candidates), env))
      ensures error == if t in old(repository.docs) || t == Assumptions
                       then ErrorOf(Outcome(old(repository.docs), Call(t, CandidatesOp(expected, candidates), env)))
                       else Some(WrongShape)
    {
      if t != Assumptions { return Some(WrongShape); }
      var found := EditableDocument(t, expected, env);
      if found.Refused? { return Some(found.error); }
      var added := seq(|candidates|,
        i requires 0 <= i < |candidates| => NewRow(AsCandidate(candidates[i]), env.nextId + i));
      repository.InsertRows(t, found.value.version, added);
      return None;
    }

    method StoreRows(t: DocType, rows: seq<Row>, env: Env)
      requires t in repository.docs
      modifies repository
      ensures repository.docs == old(repository.docs)[t := WithRows(old(repository.docs)[t], rows, env)]
    {
      var record := repository.docs[t].record;
      var previous := repository.CurrentContent(t, record.version);
      var version := repository.NextVersion(t);
      ArchiveCurrent(t, NO_LINEAGE);
      var won := repository.Update(t, record.recordVersion,
        record.(version := version, status := Draft, supersedes := Some(record.version), validation := None));
      repository.ReplaceSections(t, version,
          CopySections(previous.sections, env.nextId, (s: Section) => s.(regenerationReason := "")));
      repository.ReplaceRows(t, version, rows);
      ArchiveCurrent(t, Lineage(Some(TargetedRegeneration), None, None));
    }

    method TryRewriteRows(t: DocType, selection: Selection, named: map<nat, Payload>, composed: seq<ComposedRow>,
                          env: Env)
      returns (error: Option<Error>)
      requires t in repository.docs
      modifies repository
      ensures var outcome := RewrittenRows(old(repository.docs)[t], t, selection, named, composed, env);
        repository.docs == Effect(old(repository.docs), t, outcome, false) && error == ErrorOf(outcome)
    {
      if !HasRows(t) { return Some(WrongShape); }
      var previous := repository.CurrentContent(t, repository.docs[t].record.version);
      if !AnyRowSelected(t, previous.rows, selection) { return Some(RowNotFound); }
      var rows := RewriteRows(t, previous.rows, selection, named, composed, RowIds(env.nextId, previous), env.accepts);
      if rows.Refused? { return Some(rows.error); }
      StoreRows(t, rows.value, env);
      return None;
    }

    method RegenerateRows(t: DocType, expected: nat, selection: Selection, named: map<nat, Payload>,
                          composed: seq<ComposedRow>, env: Env) returns (error: Option<Error>)
      modifies repository
      ensures repository.docs
              == Step(old(repository.docs), Call(t, RegenerateRowsOp(expected, selection, named, composed), env))
      ensures error
              == ErrorOf(Outcome(old(repository.docs),
                  Call(t, RegenerateRowsOp(expected, selection, named, composed), env)))
    {
      var found := EditableDocument(t, expected, env);
      if found.Refused? { return Some(found.error); }
      error := TryRewriteRows(t, selection, named, composed, env);
    }

    method StoreFeatures(t: DocType, content: Content, selection: Selection, sameModule: string -> bool,
                         named: map<string, Wording>, env: Env)
      requires t in repository.docs && content == Current(repository.docs[t])
      modifies repository
      ensures repository.docs
           == old(repository.docs)[t :=
               WithFeatures(old(repository.docs)[t], content, selection, sameModule, named, env)]
    {
      var record := repository.docs[t].record;
      ArchiveCurrent(t, NO_LINEAGE);
      var version := repository.NextVersion(t);
      var features := seq(|content.features|, i requires 0 <= i < |content.features| =>
        RewriteFeature(content.features[i], FeatureSelected(content.features[i], selection, sameModule), named,
                       FeatureIds(env.nextId, content) + i));
      var won := repository.Update(t, record.recordVersion,
        record.(version := version, status := if record.status == Approved then Draft else record.status,
                supersedes := Some(record.version), validation := None));
      repository.ReplaceSections(t, version, CopySections(content.sections, env.nextId, (s: Section) => s));
      repository.ReplaceFeatures(t, version, features);
    }

    method TryRewriteFeatures(t: DocType, selection: Selection, sameModule: string -> bool,
                              named: map<string, Wording>, env: Env)
      returns (error: Option<Error>)
      requires t in repository.docs
      modifies repository
      ensures var doc := old(repository.docs)[t];
        var outcome := RewrittenFeatures(doc, t, selection, sameModule, named, env);
        repository.docs == Effect(old(repository.docs), t, outcome, doc.record.status == Approved)
            && error == ErrorOf(outcome)
    {
      if t in {OurUnderstanding, StatementOfWork} { return Some(WrongShape); }
      var record := repository.docs[t].record;
      var content := repository.CurrentContent(t, record.version);
      if !AnyFeatureSelected(content.features, selection, sameModule) { return Some(FeatureNotFound); }
      StoreFeatures(t, content, selection, sameModule, named, env);
      if record.status == Approved { MarkDependentsOutdated(t); }
      return None;
    }

    method RegenerateFeatures(t: DocType, expected: nat, selection: Selection, sameModule: string -> bool,
                              named: map<string, Wording>, env: Env) returns (error: Option<Error>)
      modifies repository
      ensures repository.docs
              == Step(old(repository.docs), Call(t, RegenerateFeaturesOp(expected, selection, sameModule, named), env))
      ensures error
              == ErrorOf(Outcome(old(repository.docs),
                  Call(t, RegenerateFeaturesOp(expected, selection, sameModule, named), env)))
    {
      var found := EditableDocument(t, expected, env);
      if found.Refused? { return Some(found.error); }
      error := TryRewriteFeatures(t, selection, sameModule, named, env);
    }

    method Validate(t: DocType, findings: seq<Finding>, env: Env) returns (error: Option<Error>)
      modifies repository
      ensures repository.docs == Step(old(repository.docs), Call(t, ValidateOp(findings), env))
      ensures error == ErrorOf(Outcome(old(repository.docs), Call(t, ValidateOp(findings), env)))
    {
      if t !in repository.docs { return Some(NotFound); }
      var record := repository.docs[t].record;
      var won := repository.Update(t, record.recordVersion,
        record.(validation := Some(Validation(record.version, findings))));
      return None;
    }

    method AcknowledgeFinding(t: DocType, expected: nat, kind: string, env: Env) returns (error: Option<Error>)
      modifies repository
      ensures repository.docs == Step(old(repository.docs), Call(t, AcknowledgeOp(expected, kind), env))
      ensures error == ErrorOf(Outcome(old(repository.docs), Call(t, AcknowledgeOp(expected, kind), env)))
    {
      var found := EditableDocument(t, expected, env);
      if found.Refused? { return Some(found.error); }
      var record := found.value;
      if record.validation.None? || !HasWarning(record.validation.value.findings, kind) {
        return Some(NoFindingToAcknowledge);
      }
      var validation := record.validation.value;
      var won := repository.Update(t, record.recordVersion,
        record.(validation := Some(validation.(findings := AcknowledgeAll(validation.findings, kind)))));
      return None;
    }

    /* ------------------------------------------------------------------- runs */

    /** Whatever the call, serving it is one step of the project. */
    method Perform(call: Call) returns (error: Option<Error>)
      modifies repository
      ensures repository.docs == Step(old(repository.docs), call)
      ensures error.None? <==> Outcome(old(repository.docs), call).Ok?
    {
      match call.op
      case GenerateOp(expected, composed) => error := Generate(call.t, expected, composed, call.env);
      case EditOp(expected, edit) => error := Change(call.t, expected, edit, call.env);
      case ExcludeOp(expected, requirementId, reason, known) =>
        error := ExcludeRequirement(call.t, expected, requirementId, reason, known, call.env);
      case ValidateOp(findings) => error := Validate(call.t, findings, call.env);
      case AcknowledgeOp(expected, kind) => error := AcknowledgeFinding(call.t, expected, kind, call.env);
      case ApproveOp(expected, blocked) => error := Approve(call.t, expected, blocked, call.env);
      case ReopenOp(expected) => error := Reopen(call.t, expected, call.env);
      case ReviseOp(expected) => error := Revise(call.t, expected, call.env);
      case MarkFinalOp(expected) => error := MarkFinal(call.t, expected, call.env);
      case RestoreOp(expected, from) => error := Restore(call.t, expected, from, call.env);
      case CandidatesOp(expected, candidates) =>
        error := AddAssumptionCandidates(call.t, expected, candidates, call.env);
      case RegenerateRowsOp(expected, selection, named, composed) =>
        error := RegenerateRows(call.t, expected, selection, named, composed, call.env);
      case RegenerateFeaturesOp(expected, selection, sameModule, named) =>
        error := RegenerateFeatures(call.t, expected, selection, sameModule, named, call.env);
    }

    /** Serving calls one after another is a run, so what every run keeps, the service
        keeps: from an empty project, without suggestions on an approved list, no signed
        version ever changes; and without silent withdrawals, what is signed stands on
        signed ground. */
    method PerformAll(calls: seq<Call>)
      modifies repository
      ensures repository.docs == Run(old(repository.docs), calls)
      ensures ProjectHeld(old(repository.docs)) && NeverAddsToApproved(old(repository.docs), calls) ==>
                forall t :: t in old(repository.docs) ==>
                  t in repository.docs && SignedKept(old(repository.docs)[t].archive, repository.docs[t].archive)
      ensures Grounded(old(repository.docs)) && NeverWithdrawsSilently(old(repository.docs), calls) ==>
              Grounded(repository.docs)
    {
      ghost var before := repository.docs;
      for i := 0 to |calls|
        invariant repository.docs == Run(before, calls[..i])
      {
        RunOneMore(before, calls[..i], calls[i]);
        assert calls[..i + 1] == calls[..i] + [calls[i]];
        var error := Perform(calls[i]);
      }
      assert calls[..|calls|] == calls;
      RunKeepsPromises(before, calls);
    }
  }

  lemma RunKeepsPromises(p: Project, calls: seq<Call>)
    ensures ProjectHeld(p) && NeverAddsToApproved(p, calls) ==>
              forall t :: t in p ==> t in Run(p, calls) && SignedKept(p[t].archive, Run(p, calls)[t].archive)
    ensures Grounded(p) && NeverWithdrawsSilently(p, calls) ==> Grounded(Run(p, calls))
  {
    if ProjectHeld(p) && NeverAddsToApproved(p, calls) {
      forall t | t in p ensures t in Run(p, calls) && SignedKept(p[t].archive, Run(p, calls)[t].archive) {
        SignedHistoryIsImmutable(p, calls, t);
      }
    }
    if Grounded(p) && NeverWithdrawsSilently(p, calls) { RunsStayGrounded(p, calls); }
  }

  /** What each refusal of the editing gate says of the document. */
  predicate RefusedFor(error: Error, p: Project, t: DocType, expected: nat, env: Env) {
    match error
    case NotFound => t !in p
    case VersionConflict => t in p && p[t].record.recordVersion != expected
    case DocumentFinal => t in p && p[t].record.recordVersion == expected && p[t].record.status == Final
    case InvalidTransition =>
      t in p && p[t].record.recordVersion == expected && p[t].record.status in {NotStarted, Queued, Generating, Failed}
    case DocumentLocked =>
      t in p && p[t].record.recordVersion == expected && p[t].record.status in {Draft, NeedsRevision, Approved}
      && !IsUnlocked(p, t, env.authority)
    case _ => false
  }

  predicate HasWarning(findings: seq<Finding>, kind: string) {
    exists i :: 0 <= i < |findings| && findings[i].kind == kind && findings[i].severity == Warning
  }

  ghost function ErrorOf(outcome: Result<Doc, Error>): Option<Error> {
    match outcome
    case Ok(_) => None
    case Refused(error) => Some(error)
  }

  /** The dependents visited so far have their reason; the rest do not yet. */
  ghost function MarkThose(p: Project, source: DocType, told: seq<DocType>): Project {
    map t | t in p :: if t in told && p[t].record.status != NotStarted then Mark(p[t], source) else p[t]
  }

  /** One document told that another moved. */
  ghost function Told(p: Project, t: DocType, source: DocType): Project {
    if t in p && p[t].record.status != NotStarted then p[t := Mark(p[t], source)] else p
  }

  lemma MarkOne(p: Project, source: DocType, told: seq<DocType>, t: DocType)
    requires t !in told
    ensures MarkThose(p, source, told + [t]) == Told(MarkThose(p, source, told), t, source)
  {
  }

  lemma MarkAll(p: Project, source: DocType, told: seq<DocType>)
    requires forall t :: t in told <==> IsDownstream(source, t)
    ensures MarkThose(p, source, told) == MarkDependents(p, source)
  {
  }

  /** Writing a document twice is writing it once, whoever is told afterwards. */
  lemma EffectReplaces(p: Project, t: DocType, first: Doc, second: Doc, tells: bool)
    ensures Effect(p[t := first], t, Ok(second), tells) == Effect(p, t, Ok(second), tells)
  {
    assert p[t := first][t := second] == p[t := second];
  }
}
