/** The document engine: one working record, its live content by version, its archive,
    and every operation as a function from one state to the next. */
module DocumentEngine {
  import opened Wrappers
  import opened DocumentTypes
  import opened DocumentContent

  datatype Content = Content(sections: seq<Section>, features: seq<Feature>, rows: seq<Row>)

  datatype ComposedContent = ComposedContent(
    sections: seq<ComposedSection>, features: seq<ComposedFeature>, rows: seq<ComposedRow>)

  datatype Severity = Info | Warning | Blocking
  datatype Finding = Finding(kind: string, severity: Severity, acknowledged: bool)
  datatype Validation = Validation(documentVersion: nat, findings: seq<Finding>)

  /** Upstream versions: those a document was written against, or those current now. */
  datatype Against = Against(baseline: Option<nat>, stack: Option<nat>, estimate: Option<nat>)
  datatype Authority = Authority(current: Against, baselineCurrent: bool)

  datatype Exclusion = Exclusion(requirementId: string, reason: string)

  datatype Record = Record(
    version: nat,
    recordVersion: nat,
    status: Status,
    validation: Option<Validation>,
    /** Prerequisites that changed after this document was written. */
    outdatedBy: seq<DocType>,
    exclusions: seq<Exclusion>,
    against: Against,
    supersedes: Option<nat>)

  datatype ChangeType =
    | FirstGenerated | Regenerated | SectionEdited | TargetedRegeneration | RowEditedChange | RowRemovedChange
    | ProposalAccepted | Reopened | Issued | RevisedFromFinal | RestoredChange

  datatype Lineage = Lineage(changeType: Option<ChangeType>, restoredFrom: Option<nat>, revisedFrom: Option<nat>)

  const NO_LINEAGE := Lineage(None, None, None)

  datatype Archived = Archived(
    status: Status, content: Content, validation: Option<Validation>, against: Against, lineage: Lineage)

  datatype Doc = Doc(
    record: Record,
    sections: map<nat, seq<Section>>,
    features: map<nat, seq<Feature>>,
    rows: map<nat, seq<Row>>,
    archive: map<nat, Archived>)

  datatype Error =
    | NotFound | VersionConflict | DocumentFinal | InvalidTransition | DocumentLocked | DocumentGenerating
    | UpstreamStale | AlreadyApproved | NotApproved | NotValidated | HasBlockers | VersionNotFound
    | SectionNotFound | FeatureNotFound | RowNotFound | NoProposal | WrongShape | UnknownRequirement
    | NoFindingToAcknowledge | StatusNotEditableHere | ScheduleNotEditableHere | NotInLifecycle

  /** What one call brings: today's upstream authority, the next unused id, and the row
      schema of the document with its secret and reference checks. */
  datatype Env = Env(authority: Authority, nextId: nat, accepts: Payload -> bool)

  /** What the rest of the project says about this document at the time of the call. */
  datatype Gate = Gate(unlocked: bool, prerequisitesSigned: bool)

  /* ------------------------------------------------------------ live content */

  function Listed<T>(table: map<nat, seq<T>>, version: nat): seq<T> {
    if version in table then table[version] else []
  }

  function ContentAt(doc: Doc, version: nat): Content {
    Content(Listed(doc.sections, version), Listed(doc.features, version), Listed(doc.rows, version))
  }

  function Current(doc: Doc): Content { ContentAt(doc, doc.record.version) }

  /** Replace one version's sections and features. Rows are replaced only where the
      document has them, and then the rows of every other version go. */
  function Write(doc: Doc, t: DocType, version: nat, content: Content): Doc {
    doc.(sections := doc.sections[version := content.sections],
         features := doc.features[version := content.features],
         rows := if HasRows(t) then map[version := content.rows] else doc.rows)
  }

  /* ----------------------------------------------------------------- archive */

  ghost function Latest(versions: set<nat>): (latest: nat)
    ensures versions == {} ==> latest == 0
    ensures versions != {} ==> latest in versions
    ensures forall v :: v in versions ==> v <= latest
  {
    if versions == {} then 0
    else
      var v :| v in versions;
      var rest := Latest(versions - {v});
      assert forall w :: w in versions ==> w == v || w in versions - {v};
      assert versions - {v} == {} ==> versions == {v};
      if versions == {v} || rest <= v then v else rest
  }

  ghost function NextVersion(archive: map<nat, Archived>): nat { Latest(archive.Keys) + 1 }

  function Kept<T>(stored: Option<T>, offered: Option<T>): Option<T> {
    if stored.Some? then stored else offered
  }

  /** Write a version's content into history. Lineage is written once per version. */
  function Archive(doc: Doc, record: Record, content: Content, status: Status, lineage: Lineage): Doc {
    var stored := if record.version in doc.archive then doc.archive[record.version].lineage else NO_LINEAGE;
    var merged := Lineage(Kept(stored.changeType, lineage.changeType),
                          Kept(stored.restoredFrom, lineage.restoredFrom),
                          Kept(stored.revisedFrom, lineage.revisedFrom));
    doc.(archive := doc.archive[record.version := Archived(status, content, record.validation, record.against, merged)])
  }

  /** Archive the working version as it now stands. */
  function ArchiveWorking(doc: Doc, lineage: Lineage): Doc {
    Archive(doc, doc.record, Current(doc), doc.record.status, lineage)
  }

  /** Put content under the record's new number and archive it there. */
  function CutVersion(archived: Doc, t: DocType, next: Record, content: Content, lineage: Lineage): Doc {
    ArchiveWorking(Write(archived.(record := next), t, next.version, content), lineage)
  }

  /* ------------------------------------------------------------- currentness */

  predicate Moved(kind: UpstreamKind, t: DocType, was: Option<nat>, now: Option<nat>) {
    kind in UpstreamOf(t) && was.Some? && was != now
  }

  predicate UpstreamMoved(t: DocType, against: Against, authority: Authority) {
    || Moved(Baseline, t, against.baseline, authority.current.baseline)
    || Moved(Stack, t, against.stack, authority.current.stack)
    || Moved(Estimate, t, against.estimate, authority.current.estimate)
    || (!authority.baselineCurrent && against.baseline.Some?)
  }

  /** Some reason says the document is no longer current, derived or recorded on it. */
  predicate IsOutdated(t: DocType, record: Record, authority: Authority) {
    record.outdatedBy != [] || UpstreamMoved(t, record.against, authority)
  }

  function Stamp(against: Against, authority: Authority): Against {
    Against(Kept(authority.current.baseline, against.baseline),
            Kept(authority.current.stack, against.stack),
            Kept(authority.current.estimate, against.estimate))
  }

  /* ------------------------------------------------- identities on a new version */

  /** What a version cut by an edit carries: everything but a feature's open proposal
      and the reason a section was last regenerated. */
  function CarryForward(content: Content): Content {
    Content(
      seq(|content.sections|, i requires 0 <= i < |content.sections| => content.sections[i].(regenerationReason := "")),
      seq(|content.features|, i requires 0 <= i < |content.features| => content.features[i].(proposed := None)),
      content.rows)
  }

  function CopySections(sections: seq<Section>, nextId: nat, copy: Section -> Section): seq<Section> {
    seq(|sections|, i requires 0 <= i < |sections| => copy(sections[i]).(id := nextId + i))
  }

  function CopyFeatures(features: seq<Feature>, nextId: nat): seq<Feature> {
    seq(|features|, i requires 0 <= i < |features| => features[i].(id := nextId + i, proposed := None))
  }

  function CopyRows(rows: seq<Row>, nextId: nat, copy: Row -> Row): seq<Row> {
    seq(|rows|, i requires 0 <= i < |rows| => copy(rows[i]).(id := nextId + i))
  }

  /** Ids handed out in one call: sections first, then features, then rows. */
  function FeatureIds(nextId: nat, content: Content): nat { nextId + |content.sections| }
  function RowIds(nextId: nat, content: Content): nat { nextId + |content.sections| + |content.features| }

  /** A reopened version: the approved content under new ids, section proposals dropped. */
  function ReopenedContent(approved: Content, nextId: nat): Content {
    Content(
      CopySections(approved.sections, nextId, (s: Section) => s.(proposedBody := "", regenerationReason := "")),
      CopyFeatures(approved.features, FeatureIds(nextId, approved)),
      CopyRows(approved.rows, RowIds(nextId, approved), (r: Row) => r))
  }

  /** A revised version's sections: issued words, now a person's. */
  function RevisedSections(issued: seq<Section>, nextId: nat): seq<Section> {
    CopySections(issued, nextId,
      (s: Section) => s.(origin := UserEdited, proposedBody := "", regenerationReason := "Revised from issued version"))
  }

  /** A restored version: everything somebody chose is protected from the next generation. */
  function RestoredContent(stored: Content, nextId: nat): Content {
    Content(
      CopySections(stored.sections, nextId,
        (s: Section) => s.(origin := UserEdited, proposedBody := "", regenerationReason := "Restored from version")),
      CopyFeatures(stored.features, FeatureIds(nextId, stored)),
      CopyRows(stored.rows, RowIds(nextId, stored), (r: Row) => r.(origin := RowEdited, proposed := None)))
  }

  /* -------------------------------------------------------------- generation */

  function Compose(composed: ComposedContent, previous: Content, nextId: nat): Content {
    Content(
      MergeSections(composed.sections, previous.sections, nextId),
      BuildFeatures(composed.features, previous.features, nextId + |composed.sections|),
      BuildRows(composed.rows, previous.rows, nextId + |composed.sections| + |composed.features|))
  }

  ghost function GenerateFirst(t: DocType, composed: ComposedContent, env: Env, gate: Gate): Result<Doc, Error> {
    if !gate.unlocked then Refused(DocumentLocked) else Ok(FirstVersion(t, composed, env))
  }

  ghost function FirstVersion(t: DocType, composed: ComposedContent, env: Env): Doc {
    var record :=
      Record(NextVersion(map[]), 0, Draft, None, [], [], Stamp(Against(None, None, None), env.authority), None);
    var empty := Doc(record, map[], map[], map[], map[]);
    CutVersion(empty, t, record, Compose(composed, Content([], [], []), env.nextId),
        Lineage(Some(FirstGenerated), None, None))
  }

  ghost function Generate(doc: Doc, t: DocType, expected: nat, composed: ComposedContent, env: Env, gate: Gate)
    : Result<Doc, Error>
  {
    var record := doc.record;
    if !gate.unlocked then Refused(DocumentLocked)
    else if record.recordVersion != expected then Refused(VersionConflict)
    else if IsRunning(record.status) then Refused(DocumentGenerating)
    else if record.status == Final then Refused(DocumentFinal)
    else if !CanGenerate(record.status) then Refused(InvalidTransition)
    else Ok(Regenerate(doc, t, composed, env))
  }

  /** Archive what is being replaced, then cut a version with the new composition. */
  ghost function Regenerate(doc: Doc, t: DocType, composed: ComposedContent, env: Env): Doc {
    var record := doc.record;
    var archived := ArchiveWorking(doc, NO_LINEAGE);
    var version := NextVersion(archived.archive);
    var next := record.(version := version, recordVersion := record.recordVersion + 1, status := Draft,
                        against := Stamp(record.against, env.authority), outdatedBy := [],
                        supersedes := Some(record.version), validation := None);
    CutVersion(archived, t, next, Compose(composed, Current(doc), env.nextId), Lineage(Some(Regenerated), None, None))
  }

  /* --------------------------------------------------------- after an edit */

  /** An edit has changed the live content in place: cut a version that holds it. `read`
      is the record the caller read before the edit. */
  ghost function AfterContentChange(doc: Doc, t: DocType, read: Record, changeType: Option<ChangeType>): Doc {
    var content := ContentAt(doc, read.version);
    var version := NextVersion(doc.archive);
    var live := doc.record;
    var next := live.(version := version, recordVersion := live.recordVersion + 1,
                      status := if read.status == Approved then Draft else live.status,
                      supersedes := Some(read.version), validation := None);
    CutVersion(doc, t, next, CarryForward(content), Lineage(changeType, None, None))
  }

  function CheckEditable(doc: Doc, expected: nat, gate: Gate): Option<Error> {
    if doc.record.recordVersion != expected then Some(VersionConflict)
    else if !IsEditable(doc.record.status) then
      Some(if doc.record.status == Final then DocumentFinal else InvalidTransition)
    else if !gate.unlocked then Some(DocumentLocked)
    else None
  }

  /* --------------------------------------------------------- lifecycle tables */

  const DEPENDENCY_STATES: set<Lifecycle> :=
    {NotRequested, Requested, PartiallyReceived, Received, Validating, Accepted, Waived, Rejected, Superseded}

  const ASSUMPTION_STATES: set<Lifecycle> :=
    {DraftAssumption, Confirmed, Validated, Invalidated, Rejected, Superseded}

  function DependencyMoves(from: Lifecycle): set<Lifecycle> {
    match from
    case NotRequested => {Requested, Waived, Superseded}
    case Requested => {PartiallyReceived, Received, Waived, Superseded}
    case PartiallyReceived => {Received, Rejected, Waived, Superseded}
    case Received => {Validating, Accepted, Rejected, Superseded}
    case Validating => {Accepted, Rejected, Superseded}
    case Accepted => {Superseded}
    case Rejected => {Requested, Waived, Superseded}
    case Waived => {Requested}
    case _ => {}
  }

  function AssumptionMoves(from: Lifecycle): set<Lifecycle> {
    match from
    case DraftAssumption => {Confirmed, Rejected, Superseded}
    case Confirmed => {Validated, Invalidated, Rejected, Superseded}
    case Rejected => {DraftAssumption}
    case Validated => {Invalidated, Superseded}
    case Invalidated => {Superseded, DraftAssumption}
    case _ => {}
  }

  function StateOf(payload: Payload): Option<Lifecycle> {
    if StatusField in payload && payload[StatusField].State? then Some(payload[StatusField].state) else None
  }

  /** The states a row of this document can be stored with; None where it has no status. */
  function StatesOf(t: DocType): Option<set<Lifecycle>> {
    match t
    case DependencySheet => Some(DEPENDENCY_STATES)
    case Assumptions => Some(ASSUMPTION_STATES)
    case _ => None
  }

  function MovesOf(t: DocType, from: Lifecycle): set<Lifecycle> {
    if t == DependencySheet then DependencyMoves(from) else AssumptionMoves(from)
  }

  /** The status field of a stored row is one the document's schema declares. */
  predicate StatusInSchema(t: DocType, payload: Payload) {
    StatesOf(t).Some? ==> StateOf(payload).Some? && StateOf(payload).value in StatesOf(t).value
  }

  /* ------------------------------------------------------------- row payloads */

  const SCHEDULE_FIELDS: set<Field> :=
    {RelativeStartDay, RelativeFinishDay, ActualStartDate, ActualFinishDate,
     WorkingDuration, CalendarDuration, SlackDays, OnCriticalPath}

  function GuardedFields(t: DocType): set<Field> {
    match t
    case Assumptions => {StatusField, Provenance, ConfirmedBy, ConfirmedAt}
    case DependencySheet => {StatusField, RequestedAt, ReceivedAt, ValidatedAt}
    case _ => {}
  }

  /** The candidate sets one of these fields to something the row does not have. */
  predicate Touches(fields: set<Field>, candidate: Payload, previous: Payload) {
    exists f :: f in fields && f in candidate && (f !in previous || candidate[f] != previous[f])
  }

  /** The one gate between a request and a stored row. */
  function ParseRow(t: DocType, candidate: Payload, previous: Option<Payload>, allowStatusChange: bool,
                    accepts: Payload -> bool): Result<Payload, Error>
  {
    if previous.Some? && !allowStatusChange && Touches(GuardedFields(t), candidate, previous.value) then
      Refused(StatusNotEditableHere)
    else if t == WorkBreakdown && previous.Some? && Touches(SCHEDULE_FIELDS, candidate, previous.value) then
      Refused(ScheduleNotEditableHere)
    else if !accepts(candidate) || !StatusInSchema(t, candidate) then Refused(WrongShape)
    else Ok(candidate)
  }

  /** What rewriting may change of a row: how it is put, never its subject. */
  function Rewritable(t: DocType): set<Field> {
    match t
    case AcceptanceCriteria => {Module, Submodule, Screen, Actor, Given, When, Then, Rule, Notes}
    case WorkBreakdown => {Task, Description, Deliverable, Notes}
    case DependencySheet => {Dependency, Description, Purpose, ExpectedFormat, ImpactIfDelayed, Remarks}
    case _ => {Statement, Category, Impact, ImpactAreas, ImpactIfFalse, ValidationNeeded, Notes}
  }

  function RewritableFields(t: DocType, candidate: Payload): Payload {
    map f | f in candidate && f in Rewritable(t) :: candidate[f]
  }

  /* ------------------------------------------------------------------ edits */

  /** A person's answer to a suggested rewrite. */
  datatype Decision<T> = Keep | Accept | EditTo(value: T)

  datatype WordingChange = WordingChange(
    module_: Option<string>, submodule: Option<string>, screen: Option<string>, description: Option<string>)
  {
    function Over(base: Wording): Wording {
      Wording(module_.GetOr(base.module_), submodule.GetOr(base.submodule),
              screen.GetOr(base.screen), description.GetOr(base.description))
    }
  }

  datatype AssumptionAct = Confirm | Reject | SettleTrue | SettleFalse
  {
    function Outcome(): Lifecycle {
      match this
      case Confirm => Confirmed
      case Reject => Rejected
      case SettleTrue => Validated
      case SettleFalse => Invalidated
    }
  }

  datatype DependencyAct = Ask | Receive(partial: bool) | Check(accepted: bool)
  {
    function Outcome(): Lifecycle {
      match this
      case Ask => Requested
      case Receive(partial) => if partial then PartiallyReceived else Received
      case Check(accepted) => if accepted then Accepted else Rejected
    }
  }

  datatype Edit =
    | UpdateSection(sectionId: nat, title: string, body: string)
    | RegenerateSection(sectionId: nat, body: string, reason: string)
    | ResolveSection(sectionId: nat, text: Decision<string>)
    | UpdateFeature(featureId: nat, wording: WordingChange, notes: Option<string>)
    | ResolveFeature(featureId: nat, choice: Decision<WordingChange>)
    | UpdateRow(rowId: nat, changes: Payload, references: Option<seq<Reference>>, attribution: Option<string>)
    | AddRow(payload: Payload, addedBy: string, cites: seq<Reference>)
    | ExcludeRow(rowId: nat, reason: string)
    | RemoveRow(rowId: nat)
    | ResolveRow(rowId: nat, rewrite: Decision<Payload>)
    | MoveAssumption(rowId: nat, act: AssumptionAct, changes: Payload)
    | MoveDependency(rowId: nat, step: DependencyAct, changes: Payload)

  function ChangeTypeOf(edit: Edit): Option<ChangeType> {
    match edit
    case UpdateSection(_, _, _) => Some(SectionEdited)
    case RegenerateSection(_, _, _) => Some(TargetedRegeneration)
    case UpdateRow(_, _, _, _) => Some(RowEditedChange)
    case RemoveRow(_) => Some(RowRemovedChange)
    case ResolveRow(_, _) => Some(ProposalAccepted)
    case _ => None
  }

  function IndexOf(ids: seq<nat>, id: nat): Option<nat> {
    if ids == [] then None
    else if ids[0] == id then Some(0)
    else match IndexOf(ids[1..], id) case Some(i) => Some(i + 1) case None => None
  }

  function SectionIds(sections: seq<Section>): seq<nat> {
    seq(|sections|, i requires 0 <= i < |sections| => sections[i].id)
  }

  function FeatureIdsOf(features: seq<Feature>): seq<nat> {
    seq(|features|, i requires 0 <= i < |features| => features[i].id)
  }

  function RowIdsOf(rows: seq<Row>): seq<nat> {
    seq(|rows|, i requires 0 <= i < |rows| => rows[i].id)
  }

  lemma {:induction false} IndexOfFinds(ids: seq<nat>, id: nat)
    ensures IndexOf(ids, id).Some? ==> IndexOf(ids, id).value < |ids| && ids[IndexOf(ids, id).value] == id
    ensures IndexOf(ids, id).None? <==> id !in ids
  {
    if ids != [] { IndexOfFinds(ids[1..], id); }
  }

  predicate IsSpace(c: char) {
    var n := c as int;
    9 <= n <= 13 || n in {32, 160, 0x1680, 0x2028, 0x2029, 0x202F, 0x205F, 0x3000, 0xFEFF} || 0x2000 <= n <= 0x200A
  }

  predicate IsBlank(text: string) { forall c :: c in text ==> IsSpace(c) }

  /** What an edit does to the section it names. */
  function EditSection(section: Section, edit: Edit): Result<Section, Error> {
    match edit
    case UpdateSection(_, title, body) =>
      Ok(section.(title := if title == "" then section.title else title, body := body, proposedBody := "",
                  origin := if IsBlank(section.body) then UserAuthored else UserEdited))
    case RegenerateSection(_, body, reason) =>
      Ok(if IsSectionProtected(section.origin)
         then section.(proposedBody := body, regenerationReason := reason)
         else section.(body := body, regenerationReason := reason))
    case ResolveSection(_, decision) =>
      if section.proposedBody == "" then Refused(NoProposal)
      else
        var body := match decision
                    case Keep => section.body
                    case Accept => section.proposedBody
                    case EditTo(text) => text;
        Ok(section.(body := body, origin := UserEdited, proposedBody := ""))
    case _ => Refused(WrongShape)
  }

  /** What an edit does to the feature it names. There is no way to say hours. */
  function EditFeature(feature: Feature, edit: Edit): Result<Feature, Error> {
    match edit
    case UpdateFeature(_, change, notes) =>
      Ok(feature.(wording := change.Over(feature.wording), notes := notes.GetOr(feature.notes),
                  reviewStatus := UserEdited))
    case ResolveFeature(_, decision) =>
      if feature.proposed == None then Refused(NoProposal)
      else
        var wording := match decision
                       case Keep => feature.wording
                       case Accept => feature.proposed.value
                       case EditTo(change) => change.Over(feature.proposed.value);
        Ok(feature.(wording := wording, reviewStatus := UserEdited, proposed := None))
    case _ => Refused(WrongShape)
  }

  function MoveState(t: DocType, row: Row, changes: Payload, to: Lifecycle, moves: set<Lifecycle>, env: Env)
    : Result<Row, Error>
  {
    if to !in moves then Refused(NotInLifecycle)
    else match ParseRow(t, row.payload + changes + map[StatusField := State(to)], Some(row.payload), true, env.accepts)
         case Ok(payload) => Ok(row.(payload := payload))
         case Refused(error) => Refused(error)
  }

  /** What an edit does to the row it names. */
  function EditRow(t: DocType, row: Row, edit: Edit, env: Env): Result<Row, Error> {
    match edit
    case UpdateRow(_, changes, references, attribution) =>
      (match ParseRow(t, row.payload + changes, Some(row.payload), false, env.accepts)
       case Ok(payload) =>
         Ok(row.(payload := payload, references := references.GetOr(row.references),
                 origin := if row.origin == RowDefined then RowDefined else RowEdited,
                 attribution := attribution.GetOr(row.attribution)))
       case Refused(error) => Refused(error))
    case ExcludeRow(_, reason) => Ok(row.(excludedReason := reason))
    case ResolveRow(_, decision) =>
      if row.proposed == None then Refused(NoProposal)
      else
        var chosen := match decision
                      case Keep => row.payload
                      case Accept => row.proposed.value
                      case EditTo(words) => row.proposed.value + RewritableFields(t, words);
        (match ParseRow(t, chosen, Some(row.payload), false, env.accepts)
         case Ok(payload) => Ok(row.(payload := payload, proposed := None))
         case Refused(error) => Refused(error))
    case MoveAssumption(_, act, changes) =>
      if StateOf(row.payload).None? then Refused(NotInLifecycle)
      else MoveState(t, row, changes, act.Outcome(), AssumptionMoves(StateOf(row.payload).value), env)
    case MoveDependency(_, step, changes) =>
      if StateOf(row.payload).None? then Refused(NotInLifecycle)
      else MoveState(t, row, changes, step.Outcome(), DependencyMoves(StateOf(row.payload).value), env)
    case _ => Refused(WrongShape)
  }

  /** The live content after an edit, before any version is cut. */
  function ApplyEdit(t: DocType, content: Content, edit: Edit, env: Env): Result<Content, Error> {
    if edit.UpdateSection? || edit.RegenerateSection? || edit.ResolveSection? then
      var at := IndexOf(SectionIds(content.sections), edit.sectionId);
      if at.None? then Refused(SectionNotFound)
      else
        IndexOfFinds(SectionIds(content.sections), edit.sectionId);
        match EditSection(content.sections[at.value], edit)
        case Ok(section) => Ok(content.(sections := content.sections[at.value := section]))
        case Refused(error) => Refused(error)
    else if edit.UpdateFeature? || edit.ResolveFeature? then
      var at := IndexOf(FeatureIdsOf(content.features), edit.featureId);
      if at.None? then Refused(FeatureNotFound)
      else
        IndexOfFinds(FeatureIdsOf(content.features), edit.featureId);
        match EditFeature(content.features[at.value], edit)
        case Ok(feature) => Ok(content.(features := content.features[at.value := feature]))
        case Refused(error) => Refused(error)
    else if edit.AddRow? then
      if !HasRows(t) then Refused(WrongShape)
      else match ParseRow(t, edit.payload, None, false, env.accepts)
           case Ok(payload) =>
             Ok(content.(rows :=
                 content.rows + [Row(env.nextId, RowDefined, edit.addedBy, payload, None, edit.cites, "")]))
           case Refused(error) => Refused(error)
    else
      var at := IndexOf(RowIdsOf(content.rows), edit.rowId);
      if at.None? then Refused(RowNotFound)
      else
        IndexOfFinds(RowIdsOf(content.rows), edit.rowId);
        if edit.RemoveRow? then
          Ok(content.(rows := content.rows[..at.value] + content.rows[at.value + 1..]))
        else match EditRow(t, content.rows[at.value], edit, env)
             case Ok(row) => Ok(content.(rows := content.rows[at.value := row]))
             case Refused(error) => Refused(error)
  }

  /** Change the live tables in place, as an edit does before a version is cut. */
  function Overwrite(doc: Doc, version: nat, content: Content): Doc {
    doc.(sections := doc.sections[version := content.sections],
         features := doc.features[version := content.features],
         rows := doc.rows[version := content.rows])
  }

  ghost function EditContent(doc: Doc, t: DocType, expected: nat, edit: Edit, env: Env,
                             gate: Gate): Result<Doc, Error> {
    var refusal := CheckEditable(doc, expected, gate);
    if refusal.Some? then Refused(refusal.value) else Edited(doc, t, edit, env)
  }

  ghost function Edited(doc: Doc, t: DocType, edit: Edit, env: Env): Result<Doc, Error> {
    match ApplyEdit(t, Current(doc), edit, env)
    case Refused(error) => Refused(error)
    case Ok(content) => Ok(WithEdit(doc, t, content, ChangeTypeOf(edit)))
  }

  /** The edited content over the working version, then a cut. */
  ghost function WithEdit(doc: Doc, t: DocType, content: Content, changeType: Option<ChangeType>): Doc {
    AfterContentChange(Overwrite(doc, doc.record.version, content), t, doc.record, changeType)
  }

  function Exclude(exclusions: seq<Exclusion>, requirementId: string, reason: string): seq<Exclusion> {
    if exclusions == [] then [Exclusion(requirementId, reason)]
    else if exclusions[0].requirementId == requirementId then Exclude(exclusions[1..], requirementId, reason)
    else [exclusions[0]] + Exclude(exclusions[1..], requirementId, reason)
  }

  ghost function ExcludeRequirement(doc: Doc, t: DocType, expected: nat, requirementId: string, reason: string,
                                    known: bool, gate: Gate): Result<Doc, Error>
  {
    var refusal := CheckEditable(doc, expected, gate);
    if refusal.Some? then Refused(refusal.value)
    else Excluded(doc, t, requirementId, reason, known)
  }

  ghost function Excluded(doc: Doc, t: DocType, requirementId: string, reason: string,
                          known: bool): Result<Doc, Error> {
    if !known then Refused(UnknownRequirement) else Ok(WithExclusion(doc, t, requirementId, reason))
  }

  /** The exclusion on the record, committed, then a cut made from the record read before. */
  ghost function WithExclusion(doc: Doc, t: DocType, requirementId: string, reason: string): Doc {
    AfterContentChange(Noted(doc, requirementId, reason), t, doc.record, None)
  }

  function Noted(doc: Doc, requirementId: string, reason: string): Doc {
    doc.(record := doc.record.(exclusions := Exclude(doc.record.exclusions, requirementId, reason),
                               recordVersion := doc.record.recordVersion + 1))
  }

  /* ------------------------------------------------------------- validation */

  function Validate(doc: Doc, findings: seq<Finding>): Doc {
    doc.(record := doc.record.(validation := Some(Validation(doc.record.version, findings)),
                               recordVersion := doc.record.recordVersion + 1))
  }

  function AcknowledgeAll(findings: seq<Finding>, kind: string): seq<Finding> {
    seq(|findings|, i requires 0 <= i < |findings| =>
      if findings[i].kind == kind && findings[i].severity == Warning
      then findings[i].(acknowledged := true) else findings[i])
  }

  function Acknowledge(doc: Doc, expected: nat, kind: string, gate: Gate): Result<Doc, Error> {
    var refusal := CheckEditable(doc, expected, gate);
    if refusal.Some? then Refused(refusal.value)
    else if doc.record.validation.None?
         || !(exists i :: 0 <= i < |doc.record.validation.value.findings|
                && doc.record.validation.value.findings[i].kind == kind
                && doc.record.validation.value.findings[i].severity == Warning) then
      Refused(NoFindingToAcknowledge)
    else
      var validation := doc.record.validation.value;
      Ok(doc.(record := doc.record.(
        validation := Some(validation.(findings := AcknowledgeAll(validation.findings, kind))),
        recordVersion := doc.record.recordVersion + 1)))
  }

  predicate Permits(validation: Validation) {
    forall i :: 0 <= i < |validation.findings| ==> validation.findings[i].severity != Blocking
  }

  /** Suggested rewrites nobody has decided about. */
  predicate HasUndecided(content: Content) {
    || (exists i :: 0 <= i < |content.sections| && content.sections[i].proposedBody != "")
    || (exists i :: 0 <= i < |content.features| && content.features[i].proposed.Some?)
    || (exists i :: 0 <= i < |content.rows| && content.rows[i].proposed.Some?)
  }

  /** Some assumption is still only a suggestion. */
  predicate HasUnconfirmed(t: DocType, content: Content) {
    t == Assumptions
    && exists i :: 0 <= i < |content.rows| && StateOf(content.rows[i].payload) == Some(DraftAssumption)
  }

  /* ------------------------------------------------- approving and reopening */

  /** `blocked` stands for the blockers computed from coverage, effort, scope and attribution. */
  function Approve(doc: Doc, t: DocType, expected: nat, blocked: bool, env: Env, gate: Gate): Result<Doc, Error> {
    var record := doc.record;
    if record.recordVersion != expected then Refused(VersionConflict)
    else if IsOutdated(t, record, env.authority) then Refused(UpstreamStale)
    else if IsSigned(record.status) then Refused(AlreadyApproved)
    else if !CanTransition(record.status, Approved) then Refused(InvalidTransition)
    else if record.validation.None? || record.validation.value.documentVersion != record.version then
      Refused(NotValidated)
    else if !Permits(record.validation.value) || blocked || !gate.prerequisitesSigned
         || HasUndecided(Current(doc)) || HasUnconfirmed(t, Current(doc)) then
      Refused(HasBlockers)
    else Ok(Signed(doc))
  }

  /** The working version approved, and archived as approved. */
  function Signed(doc: Doc): Doc {
    var committed := doc.(record := doc.record.(status := Approved, recordVersion := doc.record.recordVersion + 1));
    Archive(committed, doc.record, Current(committed), Approved, NO_LINEAGE)
  }

  ghost function Reopen(doc: Doc, t: DocType, expected: nat, env: Env): Result<Doc, Error> {
    var record := doc.record;
    if record.recordVersion != expected then Refused(VersionConflict)
    else if record.status == Final then Revise(doc, t, expected, env)
    else if record.status != Approved then Refused(NotApproved)
    else Ok(Withdrawn(doc, t, env))
  }

  /** A copy of an approved version to work on. */
  ghost function Withdrawn(doc: Doc, t: DocType, env: Env): Doc {
    var record, approved := doc.record, Current(doc);
    var archived := Archive(doc, record, approved, Approved, NO_LINEAGE);
    var version := NextVersion(archived.archive);
    var next := record.(version := version, recordVersion := record.recordVersion + 1, status := NeedsRevision,
                        supersedes := Some(record.version), validation := None);
    CutVersion(archived, t, next, ReopenedContent(approved, env.nextId),
        Lineage(Some(Reopened), None, Some(record.version)))
  }

  ghost function Revise(doc: Doc, t: DocType, expected: nat, env: Env): Result<Doc, Error> {
    var record := doc.record;
    if record.recordVersion != expected then Refused(VersionConflict)
    else if record.status != Final then Refused(NotApproved)
    else Ok(NewRevision(doc, env))
  }

  /** A new working version beside an issued one. Its rows are not copied. */
  ghost function NewRevision(doc: Doc, env: Env): Doc {
    var record, issued := doc.record, Current(doc);
    var archived := Archive(doc, record, issued, Final, Lineage(Some(Issued), None, None));
    var version := NextVersion(archived.archive);
    var written := archived.(
      sections := archived.sections[version := RevisedSections(issued.sections, env.nextId)],
      features := archived.features[version := CopyFeatures(issued.features, FeatureIds(env.nextId, issued))]);
    var next := record.(version := version, recordVersion := record.recordVersion + 1, status := Draft,
                        supersedes := Some(record.version), validation := None, outdatedBy := [],
                        against := Stamp(record.against, env.authority));
    ArchiveWorking(written.(record := next), Lineage(Some(RevisedFromFinal), None, Some(record.version)))
  }

  function MarkFinal(doc: Doc, t: DocType, expected: nat, env: Env): Result<Doc, Error> {
    var record := doc.record;
    if record.recordVersion != expected then Refused(VersionConflict)
    else if IsOutdated(t, record, env.authority) then Refused(UpstreamStale)
    else if !CanTransition(record.status, Final) then
      Refused(if record.status == Final then DocumentFinal else NotApproved)
    else
      Ok(doc.(record := record.(status := Final, recordVersion := record.recordVersion + 1),
              archive := if record.version in doc.archive
                         then doc.archive[record.version := doc.archive[record.version].(status := Final)]
                         else doc.archive))
  }

  /* ------------------------------------------------------------------ restore */

  ghost function Restore(doc: Doc, t: DocType, expected: nat, from: nat, env: Env, gate: Gate): Result<Doc, Error> {
    var refusal := CheckEditable(doc, expected, gate);
    if refusal.Some? then Refused(refusal.value)
    else if from !in doc.archive then Refused(VersionNotFound)
    else Ok(CopiedForward(doc, t, from, env))
  }

  /** An earlier version's content, copied into a new one. */
  ghost function CopiedForward(doc: Doc, t: DocType, from: nat, env: Env): Doc
    requires from in doc.archive
  {
    var record, stored := doc.record, doc.archive[from].content;
    var archived := ArchiveWorking(doc, NO_LINEAGE);
    var version := NextVersion(archived.archive);
    var next := record.(version := version, recordVersion := record.recordVersion + 1, status := Draft,
                        supersedes := Some(record.version), validation := None);
    CutVersion(archived, t, next, RestoredContent(stored, env.nextId), Lineage(Some(RestoredChange), Some(from), None))
  }

  /* -------------------------------------------------------- targeted rewrites */

  /** A suggestion as it is stored: a row nobody has stood behind. */
  function AsCandidate(suggested: ComposedRow): ComposedRow {
    suggested.(payload := suggested.payload[StatusField := State(DraftAssumption)])
  }

  /** A model's suggestions, appended to the working version's rows. No version is cut.
      `candidates` are the ones left once repeated statements have been dropped. */
  function AddCandidates(doc: Doc, t: DocType, expected: nat, candidates: seq<ComposedRow>, env: Env, gate: Gate)
    : Result<Doc, Error>
  {
    var refusal := CheckEditable(doc, expected, gate);
    if t != Assumptions then Refused(WrongShape)
    else if refusal.Some? then Refused(refusal.value)
    else if candidates == [] then Ok(doc)
    else
      var added := seq(|candidates|,
        i requires 0 <= i < |candidates| => NewRow(AsCandidate(candidates[i]), env.nextId + i));
      Ok(doc.(rows := doc.rows[doc.record.version := Current(doc).rows + added]))
  }

  datatype Selection = ByIds(ids: set<nat>) | ByGroup(group: string) | NoSelection

  predicate IsSelected(t: DocType, row: Row, selection: Selection) {
    match selection
    case ByIds(ids) => row.id in ids
    case ByGroup(group) =>
      var field := if t == AcceptanceCriteria then Module else Category;
      field in row.payload && row.payload[field] == Text(group)
    case NoSelection => false
  }

  predicate AnyRowSelected(t: DocType, rows: seq<Row>, selection: Selection) {
    exists i :: 0 <= i < |rows| && IsSelected(t, rows[i], selection)
  }

  function FirstWithKey(composed: seq<ComposedRow>, key: string): Option<Payload> {
    if composed == [] then None
    else if RowKey(composed[0].payload) == key then Some(composed[0].payload)
    else FirstWithKey(composed[1..], key)
  }

  function Replacement(row: Row, named: map<nat, Payload>, composed: seq<ComposedRow>): Option<Payload> {
    if row.id in named then Some(named[row.id]) else FirstWithKey(composed, RowKey(row.payload))
  }

  function RewriteRow(t: DocType, row: Row, selection: Selection, named: map<nat, Payload>, composed: seq<ComposedRow>,
                      id: nat, accepts: Payload -> bool): Result<Row, Error>
  {
    var replacement := Replacement(row, named, composed);
    if !IsSelected(t, row, selection) || replacement.None? then Ok(row.(id := id))
    else match ParseRow(t, row.payload + RewritableFields(t, replacement.value), Some(row.payload), false, accepts)
         case Refused(error) => Refused(error)
         case Ok(rewritten) =>
           Ok(if IsRowProtected(row.origin) then row.(id := id, proposed := Some(rewritten))
              else row.(id := id, payload := rewritten, proposed := None))
  }

  function RewriteRows(t: DocType, rows: seq<Row>, selection: Selection, named: map<nat, Payload>,
                       composed: seq<ComposedRow>, nextId: nat, accepts: Payload -> bool): Result<seq<Row>, Error>
  {
    if rows == [] then Ok([])
    else match RewriteRow(t, rows[0], selection, named, composed, nextId, accepts)
         case Refused(error) => Refused(error)
         case Ok(row) =>
           match RewriteRows(t, rows[1..], selection, named, composed, nextId + 1, accepts)
           case Refused(error) => Refused(error)
           case Ok(rest) => Ok([row] + rest)
  }

  ghost function RegenerateRows(doc: Doc, t: DocType, expected: nat, selection: Selection, named: map<nat, Payload>,
                                composed: seq<ComposedRow>, env: Env, gate: Gate): Result<Doc, Error>
  {
    var refusal := CheckEditable(doc, expected, gate);
    if refusal.Some? then Refused(refusal.value) else RewrittenRows(doc, t, selection, named, composed, env)
  }

  ghost function RewrittenRows(doc: Doc, t: DocType, selection: Selection, named: map<nat, Payload>,
                               composed: seq<ComposedRow>, env: Env): Result<Doc, Error>
  {
    var previous := Current(doc);
    if !HasRows(t) then Refused(WrongShape)
    else if !AnyRowSelected(t, previous.rows, selection) then Refused(RowNotFound)
    else match RewriteRows(t, previous.rows, selection, named, composed, RowIds(env.nextId, previous), env.accepts)
         case Refused(error) => Refused(error)
         case Ok(rows) => Ok(WithRows(doc, rows, env))
  }

  /** A version cut by rewriting rows. Its number is taken before the working version is archived. */
  ghost function WithRows(doc: Doc, rows: seq<Row>, env: Env): Doc {
    var version := NextVersion(doc.archive);
    var next := doc.record.(version := version, recordVersion := doc.record.recordVersion + 1, status := Draft,
                            supersedes := Some(doc.record.version), validation := None);
    var archived := ArchiveWorking(doc, NO_LINEAGE);
    var copied := CopySections(Current(doc).sections, env.nextId, (s: Section) => s.(regenerationReason := ""));
    ArchiveWorking(archived.(record := next, sections := archived.sections[version := copied],
                             rows := map[version := rows]),
                   Lineage(Some(TargetedRegeneration), None, None))
  }

  predicate FeatureSelected(feature: Feature, selection: Selection, sameModule: string -> bool) {
    match selection
    case ByIds(ids) => feature.id in ids
    case ByGroup(_) => sameModule(feature.wording.module_)
    case NoSelection => false
  }

  predicate AnyFeatureSelected(features: seq<Feature>, selection: Selection, sameModule: string -> bool) {
    exists i :: 0 <= i < |features| && FeatureSelected(features[i], selection, sameModule)
  }

  function RewriteFeature(feature: Feature, selected: bool, named: map<string, Wording>, id: nat): Feature {
    var unit := Join(feature.hours.unitIds);
    var wording := if unit in named then named[unit] else feature.wording;
    if !selected then feature.(id := id, proposed := None)
    else if feature.reviewStatus == Generated then feature.(id := id, wording := wording, proposed := None)
    else feature.(id := id, proposed := Some(wording))
  }

  /** Rewrite the wording of some features. The version it cuts is not archived. */
  ghost function RegenerateFeatures(doc: Doc, t: DocType, expected: nat, selection: Selection,
                                    sameModule: string -> bool, named: map<string, Wording>,
                                    env: Env, gate: Gate): Result<Doc, Error>
  {
    var refusal := CheckEditable(doc, expected, gate);
    if refusal.Some? then Refused(refusal.value) else RewrittenFeatures(doc, t, selection, sameModule, named, env)
  }

  ghost function RewrittenFeatures(doc: Doc, t: DocType, selection: Selection, sameModule: string -> bool,
                                   named: map<string, Wording>, env: Env): Result<Doc, Error>
  {
    var content := Current(doc);
    if t in {OurUnderstanding, StatementOfWork} then Refused(WrongShape)
    else if !AnyFeatureSelected(content.features, selection, sameModule) then Refused(FeatureNotFound)
    else Ok(WithFeatures(doc, content, selection, sameModule, named, env))
  }

  /** A version cut by rewriting features, which nothing archives. */
  ghost function WithFeatures(doc: Doc, content: Content, selection: Selection, sameModule: string -> bool,
                              named: map<string, Wording>, env: Env): Doc {
    var archived := ArchiveWorking(doc, NO_LINEAGE);
    var version := NextVersion(archived.archive);
    var features := seq(|content.features|, i requires 0 <= i < |content.features| =>
      RewriteFeature(content.features[i], FeatureSelected(content.features[i], selection, sameModule), named,
                     FeatureIds(env.nextId, content) + i));
    archived.(
      record := doc.record.(version := version, recordVersion := doc.record.recordVersion + 1,
                            status := if doc.record.status == Approved then Draft else doc.record.status,
                            supersedes := Some(doc.record.version), validation := None),
      sections := archived.sections[version := CopySections(content.sections, env.nextId, (s: Section) => s)],
      features := archived.features[version := features])
  }

  /* ---------------------------------------------------------------- the calls */

  datatype Op =
    | GenerateOp(expected: nat, composed: ComposedContent)
    | EditOp(expected: nat, edit: Edit)
    | ExcludeOp(expected: nat, requirementId: string, reason: string, known: bool)
    | ValidateOp(findings: seq<Finding>)
    | AcknowledgeOp(expected: nat, kind: string)
    | ApproveOp(expected: nat, blocked: bool)
    | ReopenOp(expected: nat)
    | ReviseOp(expected: nat)
    | MarkFinalOp(expected: nat)
    | RestoreOp(expected: nat, from: nat)
    | CandidatesOp(expected: nat, candidates: seq<ComposedRow>)
    | RegenerateRowsOp(expected: nat, selection: Selection, namedRows: map<nat, Payload>,
        composedRows: seq<ComposedRow>)
    | RegenerateFeaturesOp(expected: nat, selection: Selection, sameModule: string -> bool, named: map<string, Wording>)

  /** One call on a document that exists. */
  ghost function Apply(doc: Doc, t: DocType, op: Op, env: Env, gate: Gate): Result<Doc, Error> {
    match op
    case GenerateOp(expected, composed) => Generate(doc, t, expected, composed, env, gate)
    case EditOp(expected, edit) => EditContent(doc, t, expected, edit, env, gate)
    case ExcludeOp(expected, requirementId, reason, known) =>
      ExcludeRequirement(doc, t, expected, requirementId, reason, known, gate)
    case ValidateOp(findings) => Ok(Validate(doc, findings))
    case AcknowledgeOp(expected, kind) => Acknowledge(doc, expected, kind, gate)
    case ApproveOp(expected, blocked) => Approve(doc, t, expected, blocked, env, gate)
    case ReopenOp(expected) => Reopen(doc, t, expected, env)
    case ReviseOp(expected) => Revise(doc, t, expected, env)
    case MarkFinalOp(expected) => MarkFinal(doc, t, expected, env)
    case RestoreOp(expected, from) => Restore(doc, t, expected, from, env, gate)
    case CandidatesOp(expected, candidates) => AddCandidates(doc, t, expected, candidates, env, gate)
    case RegenerateRowsOp(expected, selection, named, composed) =>
      RegenerateRows(doc, t, expected, selection, named, composed, env, gate)
    case RegenerateFeaturesOp(expected, selection, sameModule, named) =>
      RegenerateFeatures(doc, t, expected, selection, sameModule, named, env, gate)
  }

  /** Whether a successful call tells the documents downstream that this one moved. */
  predicate TellsDownstream(status: Status, op: Op) {
    match op
    case EditOp(_, _) => status == Approved
    case ExcludeOp(_, _, _, _) => status == Approved
    case RegenerateFeaturesOp(_, _, _, _) => status == Approved
    case ReopenOp(_) => true
    case ReviseOp(_) => true
    case _ => false
  }
}
