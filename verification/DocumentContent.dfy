/** What a document holds, and how a new composition is merged with what people decided. */
module DocumentContent {
  import opened Wrappers
  import opened OrderedMap

  datatype Reference = Reference(kind: string, id: string)

  /* ---------------------------------------------------------------- sections */

  datatype Origin = Generated | UserEdited | UserAuthored

  predicate IsSectionProtected(origin: Origin) { origin != Generated }

  datatype Section = Section(
    id: nat,
    key: string,
    title: string,
    body: string,
    origin: Origin,
    omittedReason: string,
    references: seq<Reference>,
    proposedBody: string,
    regenerationReason: string)

  datatype ComposedSection = ComposedSection(
    key: string, title: string, body: string, omittedReason: string, references: seq<Reference>)

  /** A lookup table built from a list keeps the last section of each key. */
  function LastWithKey(sections: seq<Section>, key: string): Option<Section> {
    if sections == [] then None
    else if sections[|sections| - 1].key == key then Some(sections[|sections| - 1])
    else LastWithKey(sections[..|sections| - 1], key)
  }

  function MergeSection(composed: ComposedSection, existing: Option<Section>, id: nat): Section {
    if existing.Some? && IsSectionProtected(existing.value.origin) then
      Section(id, composed.key, composed.title, existing.value.body, existing.value.origin,
              composed.omittedReason, composed.references, composed.body, "")
    else
      Section(id, composed.key, composed.title, composed.body, Generated,
              composed.omittedReason, composed.references, "", "")
  }

  function MergeSections(composed: seq<ComposedSection>, previous: seq<Section>, nextId: nat): seq<Section> {
    seq(|composed|, i requires 0 <= i < |composed| =>
      MergeSection(composed[i], LastWithKey(previous, composed[i].key), nextId + i))
  }

  ghost predicate DistinctSectionKeys(sections: seq<Section>) {
    forall i, j :: 0 <= i < j < |sections| ==> sections[i].key != sections[j].key
  }

  lemma {:induction false} LastWithKeyFinds(sections: seq<Section>, k: nat)
    requires DistinctSectionKeys(sections) && k < |sections|
    ensures LastWithKey(sections, sections[k].key) == Some(sections[k])
  {
    if k < |sections| - 1 {
      assert sections[..|sections| - 1][k] == sections[k];
      LastWithKeyFinds(sections[..|sections| - 1], k);
    }
  }

  /** A person's section keeps its words through a regeneration, and gains the new text
      as a proposal, exactly when the composition still has its key. */
  lemma ProtectedSectionSurvivesIff(composed: seq<ComposedSection>, previous: seq<Section>, nextId: nat, k: nat)
    requires DistinctSectionKeys(previous) && k < |previous| && IsSectionProtected(previous[k].origin)
    ensures var merged := MergeSections(composed, previous, nextId);
      (exists i :: 0 <= i < |merged| && merged[i].key == previous[k].key)
      <==> (exists i :: 0 <= i < |composed| && composed[i].key == previous[k].key)
    ensures var merged := MergeSections(composed, previous, nextId);
      forall i :: 0 <= i < |merged| && merged[i].key == previous[k].key ==>
        && merged[i].body == previous[k].body && merged[i].origin == previous[k].origin
        && merged[i].proposedBody == composed[i].body
  {
    LastWithKeyFinds(previous, k);
    var merged := MergeSections(composed, previous, nextId);
    assert forall i :: 0 <= i < |merged| ==> merged[i].key == composed[i].key;
  }

  /* ---------------------------------------------------------------- features */

  datatype Wording = Wording(module_: string, submodule: string, screen: string, description: string)

  /** What a feature costs, and the estimate units it was priced from. */
  datatype Hours = Hours(unitIds: seq<string>, effort: map<string, real>, total: real)

  datatype Feature = Feature(
    id: nat,
    requirementIds: seq<string>,
    wording: Wording,
    hours: Hours,
    references: seq<Reference>,
    reviewStatus: Origin,
    notes: string,
    proposed: Option<Wording>)

  datatype ComposedFeature = ComposedFeature(
    requirementIds: seq<string>, wording: Wording, hours: Hours, references: seq<Reference>, notes: string)

  function Join(ids: seq<string>): string {
    if ids == [] then "" else if |ids| == 1 then ids[0] else ids[0] + "|" + Join(ids[1..])
  }

  /** The last row a person edited for these estimate units. */
  function LastEdited(features: seq<Feature>, unit: string): Option<Feature> {
    if features == [] then None
    else
      var last := features[|features| - 1];
      if last.reviewStatus != Generated && Join(last.hours.unitIds) == unit then Some(last)
      else LastEdited(features[..|features| - 1], unit)
  }

  function BuildFeature(composed: ComposedFeature, edited: Option<Feature>, id: nat): Feature {
    match edited
    case Some(row) => Feature(id, composed.requirementIds, row.wording, composed.hours, composed.references,
                              row.reviewStatus, row.notes, None)
    case None => Feature(id, composed.requirementIds, composed.wording, composed.hours, composed.references,
                         Generated, composed.notes, None)
  }

  function BuildFeatures(composed: seq<ComposedFeature>, previous: seq<Feature>, nextId: nat): seq<Feature> {
    seq(|composed|, i requires 0 <= i < |composed| =>
      BuildFeature(composed[i], LastEdited(previous, Join(composed[i].hours.unitIds)), nextId + i))
  }

  /** The hours of a listing, row by row: what reconciliation reads. */
  function HoursOf(features: seq<Feature>): seq<Hours> {
    seq(|features|, i requires 0 <= i < |features| => features[i].hours)
  }

  function ComposedHours(composed: seq<ComposedFeature>): seq<Hours> {
    seq(|composed|, i requires 0 <= i < |composed| => composed[i].hours)
  }

  /* -------------------------------------------------------------------- rows */

  datatype RowOrigin = RowGenerated | RowEdited | RowDefined

  predicate IsRowProtected(origin: RowOrigin) { origin != RowGenerated }

  /** The lifecycle values of client dependencies and of assumptions. Two of the words
      are used by both. */
  datatype Lifecycle =
    | NotRequested | Requested | PartiallyReceived | Received | Validating | Accepted | Waived
    | Rejected | Superseded
    | DraftAssumption | Confirmed | Validated | Invalidated

  datatype Json = Null | Text(text: string) | State(state: Lifecycle) | Other(code: int)

  /** The payload fields the engine knows by name; the rest belong to the document. */
  datatype Field =
    | CriterionKey | AssumptionKey | WbsId | DependencyKey
    | StatusField | Provenance | ConfirmedBy | ConfirmedAt
    | RequestedAt | ReceivedAt | ValidatedAt
    | RelativeStartDay | RelativeFinishDay | ActualStartDate | ActualFinishDate
    | WorkingDuration | CalendarDuration | SlackDays | OnCriticalPath
    | Module | Submodule | Screen | Actor | Given | When | Then | Rule | Notes
    | Task | Description | Deliverable
    | Dependency | Purpose | ExpectedFormat | ImpactIfDelayed | Remarks
    | Statement | Category | Impact | ImpactAreas | ImpactIfFalse | ValidationNeeded
    | Named(name: string)

  /** A row's own fields. A field that is not a key of the map is undefined. */
  type Payload = map<Field, Json>

  datatype Row = Row(
    id: nat,
    origin: RowOrigin,
    attribution: string,
    payload: Payload,
    proposed: Option<Payload>,
    references: seq<Reference>,
    excludedReason: string)

  datatype ComposedRow = ComposedRow(payload: Payload, references: seq<Reference>)

  predicate Defines(payload: Payload, field: Field) {
    field in payload && payload[field] != Null
  }

  /** A row's identity across regenerations: the first key its payload defines, if text. */
  function RowKey(payload: Payload): string {
    var key :=
      if Defines(payload, CriterionKey) then payload[CriterionKey]
      else if Defines(payload, AssumptionKey) then payload[AssumptionKey]
      else if Defines(payload, WbsId) then payload[WbsId]
      else if Defines(payload, DependencyKey) then payload[DependencyKey]
      else Null;
    if key.Text? then key.text else ""
  }

  function Protected(rows: seq<Row>): seq<Row> {
    if rows == [] then []
    else (if IsRowProtected(rows[0].origin) then [rows[0]] else []) + Protected(rows[1..])
  }

  type ByKey = OrderedMap<string, Row>

  function KeepByKey(rows: seq<Row>): ByKey {
    if rows == [] then []
    else
      var last := rows[|rows| - 1];
      Put(KeepByKey(rows[..|rows| - 1]), RowKey(last.payload), last)
  }

  /** A human row the composition also produced: the person's words, the new ones beside. */
  function KeptRow(existing: Row, composed: ComposedRow, id: nat): Row {
    Row(id, existing.origin, existing.attribution, existing.payload, Some(composed.payload),
        composed.references, existing.excludedReason)
  }

  function NewRow(composed: ComposedRow, id: nat): Row {
    Row(id, RowGenerated, "", composed.payload, None, composed.references, "")
  }

  function PlacedRow(existing: Option<Row>, composed: ComposedRow, id: nat): Row {
    match existing
    case Some(row) => KeptRow(row, composed, id)
    case None => NewRow(composed, id)
  }

  /** The composed rows in order, each taking the human row of its key if one is left. */
  function Fill(composed: seq<ComposedRow>, byKey: ByKey, nextId: nat): (seq<Row>, ByKey) {
    if composed == [] then ([], byKey)
    else
      var key := RowKey(composed[0].payload);
      var row := PlacedRow(Get(byKey, key), composed[0], nextId);
      var (rows, left) := Fill(composed[1..], Remove(byKey, key), nextId + 1);
      ([row] + rows, left)
  }

  function Orphan(row: Row, id: nat): Row {
    row.(id := id, proposed := None)
  }

  function Orphans(left: ByKey, nextId: nat): seq<Row> {
    if left == [] then [] else [Orphan(left[0].1, nextId)] + Orphans(left[1..], nextId + 1)
  }

  function BuildRows(composed: seq<ComposedRow>, previous: seq<Row>, nextId: nat): seq<Row> {
    var (rows, left) := Fill(composed, KeepByKey(Protected(previous)), nextId);
    rows + Orphans(left, nextId + |composed|)
  }

  /** The merge as the program runs it: a table emptied row by row, orphans appended. */
  method MergeRows(composed: seq<ComposedRow>, previous: seq<Row>, nextId: nat) returns (rows: seq<Row>)
    ensures rows == BuildRows(composed, previous, nextId)
  {
    var byKey := IndexByKey(Protected(previous));
    KeepByKeyShape(Protected(previous));
    rows, byKey := TakeComposed(composed, byKey, nextId);
    var order := |rows|;
    ghost var filled := rows;
    for k := 0 to |byKey|
      invariant order == |composed| + k
      invariant rows + Orphans(byKey[k..], nextId + order) == filled + Orphans(byKey, nextId + |composed|)
    {
      assert byKey[k..][1..] == byKey[k + 1..];
      rows := rows + [Orphan(byKey[k].1, nextId + order)];
      order := order + 1;
    }
    assert byKey[|byKey|..] == [];
  }

  method IndexByKey(protectedRows: seq<Row>) returns (byKey: ByKey)
    ensures byKey == KeepByKey(protectedRows)
  {
    byKey := [];
    for i := 0 to |protectedRows|
      invariant byKey == KeepByKey(protectedRows[..i])
    {
      assert protectedRows[..i + 1][..i] == protectedRows[..i];
      byKey := Put(byKey, RowKey(protectedRows[i].payload), protectedRows[i]);
    }
    assert protectedRows[..|protectedRows|] == protectedRows;
  }

  method TakeComposed(composed: seq<ComposedRow>, table: ByKey, nextId: nat) returns (rows: seq<Row>, byKey: ByKey)
    requires Distinct(table)
    ensures rows == Fill(composed, table, nextId).0 && byKey == Fill(composed, table, nextId).1
    ensures |rows| == |composed|
  {
    rows, byKey := [], table;
    for i := 0 to |composed|
      invariant |rows| == i && Distinct(byKey)
      invariant Fill(composed, table, nextId).0 == rows + Fill(composed[i..], byKey, nextId + i).0
      invariant Fill(composed, table, nextId).1 == Fill(composed[i..], byKey, nextId + i).1
    {
      var key := RowKey(composed[i].payload);
      var existing := Get(byKey, key);
      GetOfRemove(byKey, key, key);
      FillStep(composed, i, byKey, nextId, rows);
      if existing.Some? {
        rows := rows + [KeptRow(existing.value, composed[i], nextId + i)];
        byKey := Remove(byKey, key);
      } else {
        RemoveAbsent(byKey, key);
        rows := rows + [NewRow(composed[i], nextId + i)];
      }
    }
    assert composed[|composed|..] == [] && rows + [] == rows;
  }

  lemma FillStep(composed: seq<ComposedRow>, i: nat, byKey: ByKey, nextId: nat, rows: seq<Row>)
    requires i < |composed|
    ensures var key := RowKey(composed[i].payload);
      var row := PlacedRow(Get(byKey, key), composed[i], nextId + i);
      var rest := Fill(composed[i + 1..], Remove(byKey, key), nextId + i + 1);
      rows + Fill(composed[i..], byKey, nextId + i).0 == (rows + [row]) + rest.0
      && Fill(composed[i..], byKey, nextId + i).1 == rest.1
  {
    assert composed[i..][1..] == composed[i + 1..];
  }

  lemma {:induction false} RemoveAbsent(m: ByKey, key: string)
    requires Get(m, key) == None
    ensures Remove(m, key) == m
  {
    if m != [] { RemoveAbsent(m[1..], key); }
  }

  lemma {:induction false} KeepByKeyShape(rows: seq<Row>)
    ensures Distinct(KeepByKey(rows))
    ensures |KeepByKey(rows)| <= |rows|
    ensures forall i :: 0 <= i < |KeepByKey(rows)| ==>
              KeepByKey(rows)[i].0 == RowKey(KeepByKey(rows)[i].1.payload) && KeepByKey(rows)[i].1 in rows
  {
    if rows != [] {
      var init, last := rows[..|rows| - 1], rows[|rows| - 1];
      var key := RowKey(last.payload);
      KeepByKeyShape(init);
      PutShape(KeepByKey(init), key, last);
      var table := KeepByKey(rows);
      forall i | 0 <= i < |table| ensures table[i].0 == RowKey(table[i].1.payload) && table[i].1 in rows {
        GetAt(table, i);
        GetOfPut(KeepByKey(init), key, last, table[i].0);
        if table[i].0 != key { GetFinds(KeepByKey(init), table[i].0); }
      }
    }
  }
}
