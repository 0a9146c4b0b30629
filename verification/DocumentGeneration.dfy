/** What a generation writes: whose words every section, feature and row carries after it. */
module DocumentGeneration {
  import opened Wrappers
  import opened OrderedMap
  import opened DocumentTypes
  import opened DocumentContent
  import opened DocumentEngine
  import opened DocumentHistory
  import opened RowRegeneration

  /* ---------------------------------------------------------------- sections */

  ghost predicate IsLastOfKey(previous: seq<Section>, k: int, key: string) {
    0 <= k < |previous| && previous[k].key == key && forall j :: k < j < |previous| ==> previous[j].key != key
  }

  /** The section whose words stand for a key: the last one of it, if a person wrote it. */
  ghost predicate SpeaksForKey(previous: seq<Section>, k: int, key: string) {
    IsLastOfKey(previous, k, key) && previous[k].origin in {UserEdited, UserAuthored}
  }

  /** A section after a generation: what is composed, but for a person's words. */
  ghost predicate SectionWritten(previous: seq<Section>, composed: ComposedSection, now: Section) {
    && now.key == composed.key && now.title == composed.title && now.omittedReason == composed.omittedReason
    && now.references == composed.references && now.regenerationReason == ""
    && (forall k :: SpeaksForKey(previous, k, composed.key) ==>
          now.body == previous[k].body && now.origin == previous[k].origin && now.proposedBody == composed.body)
    && ((forall k :: !SpeaksForKey(previous, k, composed.key)) ==>
          now.body == composed.body && now.origin == Generated && now.proposedBody == "")
  }

  lemma {:induction false} LastOfKey(previous: seq<Section>, key: string)
    ensures match LastWithKey(previous, key)
            case None => forall k :: 0 <= k < |previous| ==> previous[k].key != key
            case Some(last) => exists k :: IsLastOfKey(previous, k, key) && previous[k] == last
  {
    if previous != [] {
      var init, last := previous[..|previous| - 1], |previous| - 1;
      if previous[last].key == key {
        assert IsLastOfKey(previous, last, key);
      } else {
        LastOfKey(init, key);
        if LastWithKey(init, key).Some? {
          var k :| IsLastOfKey(init, k, key) && init[k] == LastWithKey(init, key).value;
          assert IsLastOfKey(previous, k, key) by {
            assert forall j :: 0 <= j < last ==> previous[j] == init[j];
          }
        }
      }
    }
  }

  lemma MergedSection(composed: seq<ComposedSection>, previous: seq<Section>, nextId: nat, i: nat)
    requires i < |composed|
    ensures SectionWritten(previous, composed[i], MergeSections(composed, previous, nextId)[i])
  {
    var key := composed[i].key;
    LastOfKey(previous, key);
    if LastWithKey(previous, key).Some? {
      var k :| IsLastOfKey(previous, k, key) && previous[k] == LastWithKey(previous, key).value;
      assert previous[k].origin != Generated ==> SpeaksForKey(previous, k, key);
    }
  }

  /* ---------------------------------------------------------------- features */

  /** The row whose wording stands for some estimate units: the last edited one of them. */
  ghost predicate SpeaksForUnits(previous: seq<Feature>, k: int, units: string) {
    && 0 <= k < |previous| && Join(previous[k].hours.unitIds) == units && previous[k].reviewStatus != Generated
    && forall j :: k < j < |previous| ==>
         previous[j].reviewStatus == Generated || Join(previous[j].hours.unitIds) != units
  }

  ghost predicate NoneHolds(ids: seq<string>, separator: char) {
    forall i :: 0 <= i < |ids| ==> separator !in ids[i]
  }

  /** The joined ids stand for the list of ids: two lists, neither empty nor with the
      separator in an id, are joined alike only if they are the same list. */
  lemma {:induction false} JoinTellsApart(a: seq<string>, b: seq<string>)
    requires a != [] && b != [] && NoneHolds(a, '|') && NoneHolds(b, '|')
    ensures Join(a) == Join(b) <==> a == b
  {
    if |a| > 1 && |b| > 1 {
      JoinTellsApart(a[1..], b[1..]);
      if Join(a) == Join(b) { SameHead(a[0], Join(a[1..]), b[0], Join(b[1..])); }
      assert a == [a[0]] + a[1..] && b == [b[0]] + b[1..];
    } else if |a| > 1 {
      assert Join(a)[|a[0]|] == '|';
    } else if |b| > 1 {
      assert Join(b)[|b[0]|] == '|';
    }
  }

  lemma HeadEnds(head: string, rest: string)
    requires '|' !in head
    ensures var whole := head + "|" + rest;
      whole[|head|] == '|' && forall i :: 0 <= i < |head| ==> whole[i] != '|'
  {
  }

  lemma SameHead(a: string, resta: string, b: string, restb: string)
    requires '|' !in a && '|' !in b && a + "|" + resta == b + "|" + restb
    ensures a == b && resta == restb
  {
    var whole := a + "|" + resta;
    HeadEnds(a, resta);
    HeadEnds(b, restb);
    assert a == whole[..|a|] && b == whole[..|b|];
    assert resta == whole[|a| + 1..] && restb == whole[|b| + 1..];
  }

  /** A feature after a generation: composed, but for a person's wording and notes. */
  ghost predicate FeatureWritten(previous: seq<Feature>, composed: ComposedFeature, now: Feature) {
    && now.requirementIds == composed.requirementIds && now.hours == composed.hours
    && now.references == composed.references && now.proposed == None
    && (forall k :: SpeaksForUnits(previous, k, Join(composed.hours.unitIds)) ==>
          now.wording == previous[k].wording && now.notes == previous[k].notes
          && now.reviewStatus == previous[k].reviewStatus)
    && ((forall k :: !SpeaksForUnits(previous, k, Join(composed.hours.unitIds))) ==>
          now.wording == composed.wording && now.notes == composed.notes && now.reviewStatus == Generated)
  }

  lemma {:induction false} LastEditedOfUnits(previous: seq<Feature>, units: string)
    ensures match LastEdited(previous, units)
            case None => forall k :: !SpeaksForUnits(previous, k, units)
            case Some(row) => exists k :: SpeaksForUnits(previous, k, units) && previous[k] == row
  {
    if previous != [] {
      var init, last := previous[..|previous| - 1], |previous| - 1;
      LastEditedOfUnits(init, units);
      if previous[last].reviewStatus != Generated && Join(previous[last].hours.unitIds) == units {
        assert SpeaksForUnits(previous, last, units);
      } else {
        forall k ensures SpeaksForUnits(previous, k, units) <==> SpeaksForUnits(init, k, units) {
          assert forall j :: 0 <= j < last ==> previous[j] == init[j];
        }
      }
    }
  }

  lemma BuiltFeature(composed: seq<ComposedFeature>, previous: seq<Feature>, nextId: nat, i: nat)
    requires i < |composed|
    ensures FeatureWritten(previous, composed[i], BuildFeatures(composed, previous, nextId)[i])
  {
    var units := Join(composed[i].hours.unitIds);
    LastEditedOfUnits(previous, units);
    if LastEdited(previous, units).Some? {
      var k :| SpeaksForUnits(previous, k, units) && previous[k] == LastEdited(previous, units).value;
      forall j | SpeaksForUnits(previous, j, units) ensures j == k {}
    }
  }

  /* -------------------------------------------------------------------- rows */

  const ROW_KEYS: set<Field> := {CriterionKey, AssumptionKey, WbsId, DependencyKey}

  /** A row's key is the one its document gives it: of a payload that defines one of the
      four key fields and gives it text, that text. */
  lemma RowKeyIsItsOwn(payload: Payload, field: Field, text: string)
    requires field in ROW_KEYS && field in payload && payload[field] == Text(text)
    requires forall other :: other in ROW_KEYS && other != field ==> !Defines(payload, other)
    ensures RowKey(payload) == text
  {
    assert CriterionKey in ROW_KEYS && AssumptionKey in ROW_KEYS && WbsId in ROW_KEYS && DependencyKey in ROW_KEYS;
  }

  /** The row that stands for a key: the last one of it that a person edited or defined. */
  ghost predicate StandsForKey(previous: seq<Row>, k: int, key: string) {
    && 0 <= k < |previous| && previous[k].origin in {RowEdited, RowDefined} && RowKey(previous[k].payload) == key
    && forall j :: k < j < |previous| ==>
         previous[j].origin == RowGenerated || RowKey(previous[j].payload) != key
  }

  /** No earlier composed row has the key of this one. */
  ghost predicate FirstOfKey(composed: seq<ComposedRow>, i: nat)
    requires i < |composed|
  {
    forall j :: 0 <= j < i ==> RowKey(composed[j].payload) != RowKey(composed[i].payload)
  }

  /** The row standing for a composed one: a person's row with the composed payload as its
      proposal, given to the first composed row of its key; or the composed row itself. */
  ghost predicate RowWritten(previous: seq<Row>, composed: seq<ComposedRow>, i: nat, now: Row)
    requires i < |composed|
  {
    var key := RowKey(composed[i].payload);
    && now.references == composed[i].references
    && (forall k :: FirstOfKey(composed, i) && StandsForKey(previous, k, key) ==>
          HumanOf(now) == HumanOf(previous[k]) && now.proposed == Some(composed[i].payload))
    && ((forall k :: !(FirstOfKey(composed, i) && StandsForKey(previous, k, key))) ==>
          HumanOf(now) == Human(RowGenerated, "", composed[i].payload, "") && now.proposed == None)
  }

  /** A row past the composed ones: a person's row nothing composed has the key of, as it was. */
  ghost predicate RowLeftOver(previous: seq<Row>, composed: seq<ComposedRow>, now: Row) {
    exists k ::
      && StandsForKey(previous, k, RowKey(now.payload))
      && RowKey(now.payload) !in ComposedKeys(composed)
      && now == previous[k].(id := now.id, proposed := None)
  }

  ghost predicate RowsWritten(previous: seq<Row>, composed: seq<ComposedRow>, now: seq<Row>) {
    && |now| >= |composed|
    && (forall i :: 0 <= i < |composed| ==> RowWritten(previous, composed, i, now[i]))
    && (forall i :: |composed| <= i < |now| ==> RowLeftOver(previous, composed, now[i]))
  }

  lemma {:induction false} ProtectedOfLast(init: seq<Row>, last: Row)
    ensures Protected(init + [last]) == Protected(init) + if IsRowProtected(last.origin) then [last] else []
  {
    if init == [] {
      assert [last][1..] == [] && init + [last] == [last];
    } else {
      assert (init + [last])[1..] == init[1..] + [last];
      ProtectedOfLast(init[1..], last);
    }
  }

  lemma {:induction false} TableHoldsLast(previous: seq<Row>, key: string)
    ensures match Get(KeepByKey(Protected(previous)), key)
            case None => forall k :: !StandsForKey(previous, k, key)
            case Some(row) => exists k :: StandsForKey(previous, k, key) && previous[k] == row
  {
    if previous != [] {
      var init, last := previous[..|previous| - 1], |previous| - 1;
      var kept := Protected(init);
      TableHoldsLast(init, key);
      ProtectedOfLast(init, previous[last]);
      assert previous == init + [previous[last]];
      if previous[last].origin != RowGenerated {
        assert (kept + [previous[last]])[..|kept|] == kept;
        GetOfPut(KeepByKey(kept), RowKey(previous[last].payload), previous[last], key);
      } else {
        assert kept + [] == kept;
      }
      if previous[last].origin != RowGenerated && RowKey(previous[last].payload) == key {
        assert StandsForKey(previous, last, key);
      } else {
        forall k ensures StandsForKey(previous, k, key) <==> StandsForKey(init, k, key) {
          assert forall j :: 0 <= j < last ==> previous[j] == init[j];
        }
      }
    }
  }

  /** The first composed row of a key takes the table's row of it; a later one finds none. */
  lemma {:induction false} FilledRow(composed: seq<ComposedRow>, byKey: ByKey, nextId: nat, i: nat)
    requires Distinct(byKey) && i < |composed|
    ensures var key, rows := RowKey(composed[i].payload), Fill(composed, byKey, nextId).0;
      && i < |rows|
      && (if FirstOfKey(composed, i) && Get(byKey, key).Some?
          then HumanOf(rows[i]) == HumanOf(Get(byKey, key).value) && rows[i].proposed == Some(composed[i].payload)
          else HumanOf(rows[i]) == Human(RowGenerated, "", composed[i].payload, "") && rows[i].proposed == None)
      && rows[i].references == composed[i].references
  {
    var first := RowKey(composed[0].payload);
    var key := RowKey(composed[i].payload);
    if i > 0 {
      var rest := composed[1..];
      GetOfRemove(byKey, first, key);
      FilledRow(rest, Remove(byKey, first), nextId + 1, i - 1);
      assert rest[i - 1] == composed[i];
      assert FirstOfKey(composed, i) <==> FirstOfKey(rest, i - 1) && first != key by {
        assert forall j :: 0 <= j < i - 1 ==> rest[j] == composed[j + 1];
        assert forall j :: 1 <= j < i ==> composed[j] == rest[j - 1];
      }
    }
  }

  lemma {:induction false} LeftInTable(composed: seq<ComposedRow>, byKey: ByKey, nextId: nat, key: string)
    requires Distinct(byKey)
    ensures Get(Fill(composed, byKey, nextId).1, key).Some? ==>
              Get(Fill(composed, byKey, nextId).1, key) == Get(byKey, key)
  {
    if composed != [] {
      var first := RowKey(composed[0].payload);
      GetOfRemove(byKey, first, key);
      LeftInTable(composed[1..], Remove(byKey, first), nextId + 1, key);
    }
  }

  lemma BuiltRow(composed: seq<ComposedRow>, previous: seq<Row>, nextId: nat, i: nat)
    requires i < |composed|
    ensures i < |BuildRows(composed, previous, nextId)|
    ensures RowWritten(previous, composed, i, BuildRows(composed, previous, nextId)[i])
  {
    var byKey, key := KeepByKey(Protected(previous)), RowKey(composed[i].payload);
    KeepByKeyShape(Protected(previous));
    FilledRow(composed, byKey, nextId, i);
    TableHoldsLast(previous, key);
    if Get(byKey, key).Some? {
      var k :| StandsForKey(previous, k, key) && previous[k] == Get(byKey, key).value;
      forall j | StandsForKey(previous, j, key) ensures j == k {}
    }
  }

  lemma BuiltOrphan(composed: seq<ComposedRow>, previous: seq<Row>, nextId: nat, i: nat)
    requires |composed| <= i < |BuildRows(composed, previous, nextId)|
    ensures RowLeftOver(previous, composed, BuildRows(composed, previous, nextId)[i])
  {
    var byKey := KeepByKey(Protected(previous));
    var left := MergedShape(composed, previous, nextId);
    var at := i - |composed|;
    TrailingRow(composed, previous, nextId, i);
    OrphansShape(left, nextId + |composed|);
    FillLength(composed, byKey, nextId);
    KeepByKeyShape(Protected(previous));
    GetAt(left, at);
    LeftInTable(composed, byKey, nextId, left[at].0);
    TableHoldsLast(previous, left[at].0);
  }

  lemma {:induction false} FillLength(composed: seq<ComposedRow>, byKey: ByKey, nextId: nat)
    ensures |Fill(composed, byKey, nextId).0| == |composed|
  {
    if composed != [] { FillLength(composed[1..], Remove(byKey, RowKey(composed[0].payload)), nextId + 1); }
  }

  lemma BuiltRows(composed: seq<ComposedRow>, previous: seq<Row>, nextId: nat)
    ensures RowsWritten(previous, composed, BuildRows(composed, previous, nextId))
  {
    var rows := BuildRows(composed, previous, nextId);
    RegeneratedRows(composed, previous, nextId);
    forall i | 0 <= i < |composed| ensures RowWritten(previous, composed, i, rows[i]) {
      BuiltRow(composed, previous, nextId, i);
    }
    forall i | |composed| <= i < |rows| ensures RowLeftOver(previous, composed, rows[i]) {
      BuiltOrphan(composed, previous, nextId, i);
    }
  }

  /* ------------------------------------------------------------ the whole call */

  /** Content written by a generation over earlier content, section by section, feature by
      feature and, where the document lists rows, row by row. */
  ghost predicate Written(previous: Content, composed: ComposedContent, now: Content, listsRows: bool) {
    && |now.sections| == |composed.sections| && |now.features| == |composed.features|
    && (forall i :: 0 <= i < |now.sections| ==>
          SectionWritten(previous.sections, composed.sections[i], now.sections[i]))
    && (forall i :: 0 <= i < |now.features| ==>
          FeatureWritten(previous.features, composed.features[i], now.features[i]))
    && (listsRows ==> RowsWritten(previous.rows, composed.rows, now.rows))
  }

  lemma ComposedIsWritten(composed: ComposedContent, previous: Content, nextId: nat, now: Content, listsRows: bool)
    requires var merged := Compose(composed, previous, nextId);
      now.sections == merged.sections && now.features == merged.features && (listsRows ==> now.rows == merged.rows)
    ensures Written(previous, composed, now, listsRows)
  {
    forall i | 0 <= i < |now.sections|
      ensures SectionWritten(previous.sections, composed.sections[i], now.sections[i]) {
      MergedSection(composed.sections, previous.sections, nextId, i);
    }
    forall i | 0 <= i < |now.features|
      ensures FeatureWritten(previous.features, composed.features[i], now.features[i]) {
      BuiltFeature(composed.features, previous.features, nextId + |composed.sections|, i);
    }
    BuiltRows(composed.rows, previous.rows, nextId + |composed.sections| + |composed.features|);
  }

  /** A generation leaves a draft of the new composition in which exactly the sections,
      features and rows a person wrote keep their words, the composed ones waiting beside
      sections and rows. No old text of the application survives it. */
  lemma GenerationWrites(doc: Doc, t: DocType, expected: nat, composed: ComposedContent, env: Env, gate: Gate)
    requires Generate(doc, t, expected, composed, env, gate).Ok?
    ensures var after := Generate(doc, t, expected, composed, env, gate).value;
      && Written(Current(doc), composed, Current(after), HasRows(t))
      && after.record.status == Draft && after.record.validation == None && after.record.outdatedBy == []
      && after.record.supersedes == Some(doc.record.version) && after.record.exclusions == doc.record.exclusions
  {
    var after := Generate(doc, t, expected, composed, env, gate).value;
    ComposedIsWritten(composed, Current(doc), env.nextId, Current(after), HasRows(t));
  }

  /** A first generation has nobody's words to keep: every line is what was composed. */
  lemma FirstGenerationWrites(t: DocType, composed: ComposedContent, env: Env, gate: Gate)
    requires GenerateFirst(t, composed, env, gate).Ok?
    ensures var after := GenerateFirst(t, composed, env, gate).value;
      && Written(Content([], [], []), composed, Current(after), HasRows(t))
      && after.record.status == Draft && after.record.supersedes == None
      && after.record.against == env.authority.current
  {
    var after := GenerateFirst(t, composed, env, gate).value;
    ComposedIsWritten(composed, Content([], [], []), env.nextId, Current(after), HasRows(t));
  }

  /** The upstream versions a generation goes by: today's, and where one has no version
      today, the one written against before. */
  lemma GenerationStamps(doc: Doc, t: DocType, expected: nat, composed: ComposedContent, env: Env, gate: Gate)
    requires Generate(doc, t, expected, composed, env, gate).Ok?
    ensures var was, today, now := doc.record.against, env.authority.current,
                                   Generate(doc, t, expected, composed, env, gate).value.record.against;
      && now.baseline == (if today.baseline.Some? then today.baseline else was.baseline)
      && now.stack == (if today.stack.Some? then today.stack else was.stack)
      && now.estimate == (if today.estimate.Some? then today.estimate else was.estimate)
  {
  }
}
