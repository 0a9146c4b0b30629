/** What the remaining calls write: targeted rewrites of rows and features, a model's
    suggestions, exclusions and acknowledgements. */
module DocumentRewrites {
  import opened Wrappers
  import opened DocumentTypes
  import opened DocumentContent
  import opened DocumentEngine
  import opened DocumentHistory
  import opened RowRegeneration
  import opened DocumentEdits

  /* ------------------------------------------------------------- rewriting rows */

  /** The payload a rewrite takes a row's new words from: the one named for the row, else
      that of the first composed row with the row's key. */
  ghost predicate WordsFor(row: Row, named: map<nat, Payload>, composed: seq<ComposedRow>, words: Payload) {
    || (row.id in named && words == named[row.id])
    || (row.id !in named && exists j ::
          && 0 <= j < |composed| && composed[j].payload == words && RowKey(words) == RowKey(row.payload)
          && forall l :: 0 <= l < j ==> RowKey(composed[l].payload) != RowKey(row.payload))
  }

  ghost predicate NothingFor(row: Row, named: map<nat, Payload>, composed: seq<ComposedRow>) {
    row.id !in named && forall j :: 0 <= j < |composed| ==> RowKey(composed[j].payload) != RowKey(row.payload)
  }

  /** A row after a rewrite of some rows: new words in a row of the application, and beside
      the old ones in a person's; without new words, as it was. */
  ghost predicate RowRewritten(t: DocType, was: Row, now: Row, named: map<nat, Payload>, composed: seq<ComposedRow>,
                               selected: bool) {
    if !selected || NothingFor(was, named, composed) then now == was.(id := now.id)
    else exists words ::
      && WordsFor(was, named, composed, words)
      && if was.origin == RowGenerated
         then now == was.(id := now.id, payload := now.payload, proposed := None)
              && Reworded(t, was.payload, words, now.payload)
         else now == was.(id := now.id, proposed := now.proposed)
              && now.proposed.Some? && Reworded(t, was.payload, words, now.proposed.value)
  }

  /** The request names the row by its id, or by the module of a criterion or the category
      of any other row. */
  ghost predicate RowPicked(t: DocType, row: Row, selection: Selection) {
    match selection
    case ByIds(ids) => row.id in ids
    case ByGroup(group) =>
      if t == AcceptanceCriteria then Module in row.payload && row.payload[Module] == Text(group)
      else Category in row.payload && row.payload[Category] == Text(group)
    case NoSelection => false
  }

  lemma {:induction false} FirstComposed(composed: seq<ComposedRow>, key: string)
    ensures match FirstWithKey(composed, key)
            case None => forall j :: 0 <= j < |composed| ==> RowKey(composed[j].payload) != key
            case Some(words) =>
              exists j ::
                && 0 <= j < |composed| && composed[j].payload == words && RowKey(words) == key
                && forall l :: 0 <= l < j ==> RowKey(composed[l].payload) != key
  {
    if composed != [] && RowKey(composed[0].payload) != key {
      var rest := composed[1..];
      FirstComposed(rest, key);
      assert forall j :: 0 < j < |composed| ==> composed[j] == rest[j - 1];
      if FirstWithKey(rest, key).Some? {
        var words := FirstWithKey(rest, key).value;
        var j :|
          && 0 <= j < |rest| && rest[j].payload == words && RowKey(words) == key
          && forall l :: 0 <= l < j ==> RowKey(rest[l].payload) != key;
        assert composed[j + 1].payload == words;
      }
    } else if composed != [] {
      assert composed[0].payload == FirstWithKey(composed, key).value;
    }
  }

  lemma OneRowRewritten(t: DocType, row: Row, selection: Selection, named: map<nat, Payload>,
                        composed: seq<ComposedRow>, id: nat, accepts: Payload -> bool)
    requires RewriteRow(t, row, selection, named, composed, id, accepts).Ok?
    ensures RowRewritten(t, row, RewriteRow(t, row, selection, named, composed, id, accepts).value, named, composed,
                         IsSelected(t, row, selection))
  {
    ReplacementIs(row, named, composed);
    var replacement := Replacement(row, named, composed);
    if replacement.Some? { RewordedBy(t, row.payload, replacement.value); }
  }

  lemma ReplacementIs(row: Row, named: map<nat, Payload>, composed: seq<ComposedRow>)
    ensures match Replacement(row, named, composed)
            case None => NothingFor(row, named, composed)
            case Some(words) => WordsFor(row, named, composed, words) && !NothingFor(row, named, composed)
  {
    FirstComposed(composed, RowKey(row.payload));
  }

  lemma RewordedBy(t: DocType, base: Payload, words: Payload)
    ensures Reworded(t, base, words, base + RewritableFields(t, words))
  {
  }

  lemma {:induction false} AllRowsRewritten(t: DocType, rows: seq<Row>, selection: Selection, named: map<nat, Payload>,
                                            composed: seq<ComposedRow>, nextId: nat, accepts: Payload -> bool)
    requires RewriteRows(t, rows, selection, named, composed, nextId, accepts).Ok?
    ensures var after := RewriteRows(t, rows, selection, named, composed, nextId, accepts).value;
      && |after| == |rows|
      && forall i :: 0 <= i < |rows| ==>
           RowRewritten(t, rows[i], after[i], named, composed, IsSelected(t, rows[i], selection))
  {
    if rows != [] {
      OneRowRewritten(t, rows[0], selection, named, composed, nextId, accepts);
      AllRowsRewritten(t, rows[1..], selection, named, composed, nextId + 1, accepts);
      var after := RewriteRows(t, rows, selection, named, composed, nextId, accepts).value;
      assert forall i :: 1 <= i < |rows| ==> rows[i] == rows[1..][i - 1] && after[i] == after[1..][i - 1];
    }
  }

  /** A rewrite of rows gives each selected row the words named for it or composed under its
      key, as its own or as a proposal by whose row it is; the sections say what they said. */
  lemma RowRewriteWrites(doc: Doc, t: DocType, expected: nat, selection: Selection, named: map<nat, Payload>,
                         composed: seq<ComposedRow>, env: Env, gate: Gate)
    requires RegenerateRows(doc, t, expected, selection, named, composed, env, gate).Ok?
    ensures HasRows(t)
    ensures var before, after := Current(doc),
                                 RegenerateRows(doc, t, expected, selection, named, composed, env, gate).value;
      && |Current(after).rows| == |before.rows| && |Current(after).sections| == |before.sections|
      && (forall i :: 0 <= i < |before.rows| ==>
            RowRewritten(t, before.rows[i], Current(after).rows[i], named, composed,
                         RowPicked(t, before.rows[i], selection)))
      && (exists i :: 0 <= i < |before.rows| && RowPicked(t, before.rows[i], selection))
      && (forall i :: 0 <= i < |before.sections| ==>
            var now := Current(after).sections[i];
            now == before.sections[i].(id := now.id, regenerationReason := ""))
      && after.record.status == Draft && after.record.validation == None
      && after.record.supersedes == Some(doc.record.version)
  {
    AllRowsRewritten(t, Current(doc).rows, selection, named, composed, RowIds(env.nextId, Current(doc)), env.accepts);
    forall row: Row ensures RowPicked(t, row, selection) <==> IsSelected(t, row, selection) {}
  }

  /* --------------------------------------------------------- rewriting features */

  /** A feature after a rewrite of some features. One nobody selected loses its proposal. */
  ghost predicate FeatureRewritten(was: Feature, now: Feature, named: map<string, Wording>, selected: bool) {
    var units := Join(was.hours.unitIds);
    var words := if units in named then named[units] else was.wording;
    if !selected then now == was.(id := now.id, proposed := None)
    else if was.reviewStatus == Generated then now == was.(id := now.id, wording := words, proposed := None)
    else now == was.(id := now.id, proposed := Some(words))
  }

  /** The request names the feature by its id, or by its module whatever the case. */
  ghost predicate FeaturePicked(feature: Feature, selection: Selection, sameModule: string -> bool) {
    (selection.ByIds? && feature.id in selection.ids) || (selection.ByGroup? && sameModule(feature.wording.module_))
  }

  /** A rewrite of features gives each selected one the wording named for its units, as its
      own or as a proposal by whose feature it is; the sections say what they said. */
  lemma FeatureRewriteWrites(doc: Doc, t: DocType, expected: nat, selection: Selection, sameModule: string -> bool,
                             named: map<string, Wording>, env: Env, gate: Gate)
    requires RegenerateFeatures(doc, t, expected, selection, sameModule, named, env, gate).Ok?
    ensures var before, after := Current(doc),
                                 RegenerateFeatures(doc, t, expected, selection, sameModule, named, env, gate).value;
      && |Current(after).features| == |before.features| && |Current(after).sections| == |before.sections|
      && (forall i :: 0 <= i < |before.features| ==>
            FeatureRewritten(before.features[i], Current(after).features[i], named,
                             FeaturePicked(before.features[i], selection, sameModule)))
      && (exists i :: 0 <= i < |before.features| && FeaturePicked(before.features[i], selection, sameModule))
      && (forall i :: 0 <= i < |before.sections| ==>
            Current(after).sections[i] == before.sections[i].(id := Current(after).sections[i].id))
      && after.record.validation == None && after.record.supersedes == Some(doc.record.version)
  {
  }

  /* ----------------------------------------------------------------- suggestions */

  /** A suggestion as stored: nobody's, a draft whatever state it claims, and otherwise
      as it was suggested. */
  ghost predicate SuggestionStored(suggested: ComposedRow, row: Row) {
    && row.origin == RowGenerated && row.attribution == "" && row.excludedReason == "" && row.proposed == None
    && row.references == suggested.references
    && Overlaid(suggested.payload, map[StatusField := State(DraftAssumption)], row.payload)
  }

  /** Suggestions at the end of a table of rows. */
  ghost predicate SuggestionsStored(before: seq<Row>, candidates: seq<ComposedRow>, after: seq<Row>) {
    && |after| == |before| + |candidates| && after[..|before|] == before
    && forall i :: 0 <= i < |candidates| ==> SuggestionStored(candidates[i], after[|before| + i])
  }

  lemma CandidateStored(suggested: ComposedRow, id: nat)
    ensures SuggestionStored(suggested, NewRow(AsCandidate(suggested), id))
  {
  }

  lemma CandidatesStored(before: seq<Row>, candidates: seq<ComposedRow>, nextId: nat)
    ensures SuggestionsStored(before, candidates, before + seq(|candidates|,
              i requires 0 <= i < |candidates| => NewRow(AsCandidate(candidates[i]), nextId + i)))
  {
    forall i | 0 <= i < |candidates|
      ensures SuggestionStored(candidates[i], NewRow(AsCandidate(candidates[i]), nextId + i))
    {
      CandidateStored(candidates[i], nextId + i);
    }
  }

  lemma SuggestionsAppended(doc: Doc, t: DocType, expected: nat, candidates: seq<ComposedRow>, env: Env, gate: Gate)
    requires AddCandidates(doc, t, expected, candidates, env, gate).Ok?
    ensures var before, after := Current(doc), Current(AddCandidates(doc, t, expected, candidates, env, gate).value);
      && after.sections == before.sections && after.features == before.features
      && after.rows == before.rows + seq(|candidates|,
           i requires 0 <= i < |candidates| => NewRow(AsCandidate(candidates[i]), env.nextId + i))
  {
  }

  /** A model's suggestions go last and stand as nobody's; nothing else is touched. */
  lemma SuggestionsWrite(doc: Doc, t: DocType, expected: nat, candidates: seq<ComposedRow>, env: Env, gate: Gate)
    requires AddCandidates(doc, t, expected, candidates, env, gate).Ok?
    ensures t == Assumptions
    ensures var before, after := Current(doc), Current(AddCandidates(doc, t, expected, candidates, env, gate).value);
      && after.sections == before.sections && after.features == before.features
      && SuggestionsStored(before.rows, candidates, after.rows)
  {
    SuggestionsAppended(doc, t, expected, candidates, env, gate);
    CandidatesStored(Current(doc).rows, candidates, env.nextId);
  }

  /* ---------------------------------------------------------------- exclusions */

  function TimesExcluded(exclusions: seq<Exclusion>, id: string): nat {
    if exclusions == [] then 0
    else (if exclusions[0].requirementId == id then 1 else 0) + TimesExcluded(exclusions[1..], id)
  }

  lemma {:induction false} ExcludedOnce(exclusions: seq<Exclusion>, id: string, reason: string)
    ensures var after := Exclude(exclusions, id, reason);
      && after != [] && after[|after| - 1] == Exclusion(id, reason)
      && forall i :: 0 <= i < |after| - 1 ==> after[i] in exclusions && after[i].requirementId != id
  {
    if exclusions != [] {
      var after, rest := Exclude(exclusions, id, reason), exclusions[1..];
      ExcludedOnce(rest, id, reason);
      assert forall e :: e in rest ==> e in exclusions;
      if exclusions[0].requirementId != id {
        assert forall i :: 1 <= i < |after| ==> after[i] == Exclude(rest, id, reason)[i - 1];
      }
    }
  }

  lemma {:induction false} ExcludedAsOften(exclusions: seq<Exclusion>, id: string, reason: string, other: string)
    ensures TimesExcluded(Exclude(exclusions, id, reason), other)
         == if other == id then 1 else TimesExcluded(exclusions, other)
  {
    if exclusions == [] {
      assert [Exclusion(id, reason)][1..] == [];
    } else {
      ExcludedAsOften(exclusions[1..], id, reason, other);
      if exclusions[0].requirementId != id {
        assert Exclude(exclusions, id, reason)[1..] == Exclude(exclusions[1..], id, reason);
      }
    }
  }

  /** Excluding a requirement puts it on the record once, last, with the reason given,
      whatever was said about it before; every other exclusion stays as often as it was. */
  lemma ExclusionWrites(doc: Doc, t: DocType, expected: nat, id: string, reason: string, known: bool, gate: Gate)
    requires ExcludeRequirement(doc, t, expected, id, reason, known, gate).Ok?
    ensures known
    ensures var was := doc.record.exclusions;
      var after := ExcludeRequirement(doc, t, expected, id, reason, known, gate).value;
      var now := after.record.exclusions;
      && now != [] && now[|now| - 1] == Exclusion(id, reason)
      && (forall i :: 0 <= i < |now| - 1 ==> now[i] in was && now[i].requirementId != id)
      && (forall other ::
            TimesExcluded(now, other) == if other == id then 1 else TimesExcluded(was, other))
      && SectionsKept(Current(doc).sections, Current(after).sections, NOT_ONE)
      && FeaturesKept(Current(doc).features, Current(after).features, NOT_ONE)
      && (HasRows(t) ==> Current(after).rows == Current(doc).rows)
  {
    ExcludedOnce(doc.record.exclusions, id, reason);
    forall other { ExcludedAsOften(doc.record.exclusions, id, reason, other); }
  }

  /* ----------------------------------------------------------- acknowledgements */

  /** Acknowledging a kind of finding marks every warning of the kind, and changes no other
      finding, no content and no part of the record that an approval reads. */
  lemma AcknowledgementWrites(doc: Doc, expected: nat, kind: string, gate: Gate)
    requires Acknowledge(doc, expected, kind, gate).Ok?
    ensures doc.record.validation.Some?
    ensures var was, after := doc.record.validation.value, Acknowledge(doc, expected, kind, gate).value;
      && after == doc.(record := doc.record.(validation := after.record.validation,
                                             recordVersion := doc.record.recordVersion + 1))
      && after.record.validation.Some?
      && var now := after.record.validation.value;
      && now.documentVersion == was.documentVersion && |now.findings| == |was.findings|
      && (forall i :: 0 <= i < |was.findings| ==>
            now.findings[i] == was.findings[i].(acknowledged := now.findings[i].acknowledged))
      && (forall i :: 0 <= i < |was.findings| ==>
            (now.findings[i].acknowledged <==>
               was.findings[i].acknowledged || (was.findings[i].kind == kind && was.findings[i].severity == Warning)))
  {
  }
}
