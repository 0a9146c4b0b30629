/** Estimating again, and reopening an estimate as a new version. */
module EstimateVersions {
  import opened Wrappers
  import opened RoleSplit
  import opened EstimateUnits
  import opened DependencyGraph
  import opened EstimateDependencies

  const MAX_UNITS := 1000

  /* -------------------------------------------------------------- re-estimating */

  /** A requirement of the approved baseline; `live` unless rejected or superseded. */
  datatype Item = Item(id: string, live: bool)

  function Authored(units: seq<Unit>): seq<Unit> {
    if units == [] then [] else (if IsUserAuthored(units[0].source) then [units[0]] else []) + Authored(units[1..])
  }

  function UserEdges(edges: seq<Edge>): seq<Edge> {
    if edges == [] then [] else (if edges[0].userDefined then [edges[0]] else []) + UserEdges(edges[1..])
  }

  predicate Claims(units: seq<Unit>, requirementId: string) {
    exists i :: 0 <= i < |units| && requirementId in units[i].requirementIds
  }

  /** A line for a requirement, priced by the engine: `price` gives its figures. */
  function DraftFor(item: Item, price: string -> Unit, source: Source): Unit {
    price(item.id).(requirementIds := [item.id], activity := None, source := source, original := None,
                    excluded := false, recordVersion := 0)
  }

  function Drafts(items: seq<Item>, kept: seq<Unit>, price: string -> Unit, source: Source): seq<Unit>
    decreases |items|
  {
    if items == [] then []
    else
      var last := items[|items| - 1];
      Drafts(items[..|items| - 1], kept, price, source)
      + if last.live && !Claims(kept, last.id) then [DraftFor(last, price, source)] else []
  }

  /** A line of overhead cites no requirement. */
  function Overheads(priced: seq<Unit>): seq<Unit> {
    seq(|priced|, i requires 0 <= i < |priced| =>
      priced[i].(requirementIds := [], source := SystemCalculated, original := None,
                 excluded := false, recordVersion := 0))
  }

  /** New lines get ids nobody has. */
  function WithIds(units: seq<Unit>, newIds: seq<string>): seq<Unit>
    requires |newIds| >= |units|
  {
    seq(|units|, i requires 0 <= i < |units| => units[i].(id := newIds[i]))
  }

  function TotalHours(units: seq<Unit>): real {
    if units == [] then 0.0 else units[0].totalHours + TotalHours(units[1..])
  }

  /** What a request to estimate again brings. */
  datatype Estimating = Estimating(
    items: seq<Item>, price: string -> Unit, overhead: real -> seq<Unit>, source: Source, newIds: seq<string>,
    baselineApproved: bool, stackLocked: bool)

  function NewLines(kept: seq<Unit>, e: Estimating): seq<Unit> {
    var drafts := Drafts(e.items, kept, e.price, e.source);
    drafts + Overheads(e.overhead(TotalHours(drafts) + TotalHours(kept)))
  }

  predicate EnoughIds(plan: Plan, e: Estimating) { |e.newIds| >= |NewLines(Authored(plan.units), e)| }

  /** The plan and whether the request was refused: by then its old lines may be gone. */
  function Generate(plan: Plan, e: Estimating): (Plan, Option<EstimateError>)
    requires EnoughIds(plan, e)
  {
    if !e.baselineApproved then (plan, Some(BaselineNotApproved))
    else if !e.stackLocked then (plan, Some(StackNotLocked))
    else
      var kept, edges := Authored(plan.units), UserEdges(plan.edges);
      var lines := NewLines(kept, e);
      if |kept| + |lines| > MAX_UNITS then (Plan(kept, edges), Some(LimitReached))
      else (WithInferred(Plan(kept + WithIds(lines, e.newIds), edges)), None)
  }

  /** How many of the application's own lines cite a requirement. */
  ghost function Citing(units: seq<Unit>, requirementId: string): nat {
    if units == [] then 0
    else (if !IsUserAuthored(units[0].source) && requirementId in units[0].requirementIds then 1 else 0)
         + Citing(units[1..], requirementId)
  }

  ghost predicate DistinctItems(items: seq<Item>) {
    forall i, j :: 0 <= i < j < |items| ==> items[i].id != items[j].id
  }

  lemma {:induction false} CitingConcat(a: seq<Unit>, b: seq<Unit>, requirementId: string)
    ensures Citing(a + b, requirementId) == Citing(a, requirementId) + Citing(b, requirementId)
  {
    if a == [] {
      assert a + b == b;
    } else {
      assert (a + b)[1..] == a[1..] + b;
      CitingConcat(a[1..], b, requirementId);
    }
  }

  lemma {:induction false} AuthoredAre(units: seq<Unit>)
    ensures forall i :: 0 <= i < |Authored(units)| ==>
            IsUserAuthored(Authored(units)[i].source) && Authored(units)[i] in units
    ensures forall i :: 0 <= i < |units| && IsUserAuthored(units[i].source) ==> units[i] in Authored(units)
  {
    if units != [] {
      AuthoredAre(units[1..]);
      var rest := Authored(units[1..]);
      forall i | 0 <= i < |Authored(units)|
        ensures IsUserAuthored(Authored(units)[i].source) && Authored(units)[i] in units
      {
        if IsUserAuthored(units[0].source) {
          if i > 0 { assert Authored(units)[i] == rest[i - 1]; }
        } else {
          assert Authored(units)[i] == rest[i];
        }
      }
      forall i | 0 <= i < |units| && IsUserAuthored(units[i].source) ensures units[i] in Authored(units) {
        if i > 0 { assert units[i] == units[1..][i - 1]; }
      }
    }
  }

  lemma {:induction false} NoneCiting(units: seq<Unit>, requirementId: string)
    requires forall i :: 0 <= i < |units| ==>
             IsUserAuthored(units[i].source) || requirementId !in units[i].requirementIds
    ensures Citing(units, requirementId) == 0
  {
    if units != [] {
      assert forall i :: 0 <= i < |units[1..]| ==> units[1..][i] == units[i + 1];
      NoneCiting(units[1..], requirementId);
    }
  }

  lemma {:induction false} IdsDoNotMatter(units: seq<Unit>, newIds: seq<string>, requirementId: string)
    requires |newIds| >= |units|
    ensures Citing(WithIds(units, newIds), requirementId) == Citing(units, requirementId)
  {
    if units != [] {
      IdsDoNotMatter(units[1..], newIds[1..], requirementId);
      assert WithIds(units, newIds)[1..] == WithIds(units[1..], newIds[1..]);
    }
  }

  predicate Wanted(items: seq<Item>, requirementId: string) {
    exists i :: 0 <= i < |items| && items[i] == Item(requirementId, true)
  }

  lemma {:induction false} DraftsCite(items: seq<Item>, kept: seq<Unit>, price: string -> Unit, source: Source,
                                      requirementId: string)
    requires DistinctItems(items) && source != UserOverride
    ensures Citing(Drafts(items, kept, price, source), requirementId)
         == if Wanted(items, requirementId) && !Claims(kept, requirementId) then 1 else 0
    decreases |items|
  {
    if items != [] {
      var init, last := items[..|items| - 1], items[|items| - 1];
      assert forall i :: 0 <= i < |init| ==> init[i] == items[i];
      DraftsCite(init, kept, price, source, requirementId);
      assert Wanted(items, requirementId) <==> Wanted(init, requirementId) || last == Item(requirementId, true) by {
        if Wanted(init, requirementId) {
          var i :| 0 <= i < |init| && init[i] == Item(requirementId, true);
          assert items[i] == init[i];
        }
        if last == Item(requirementId, true) { assert items[|items| - 1] == Item(requirementId, true); }
      }
      assert Wanted(init, requirementId) ==> requirementId != last.id by {
        if Wanted(init, requirementId) {
          var i :| 0 <= i < |init| && init[i] == Item(requirementId, true);
          assert items[i].id != items[|items| - 1].id;
        }
      }
      if last.live && !Claims(kept, last.id) {
        var draft := DraftFor(last, price, source);
        CitingConcat(Drafts(init, kept, price, source), [draft], requirementId);
        assert [draft][1..] == [];
        assert Citing([draft], requirementId) == if requirementId == last.id then 1 else 0;
      } else {
        assert Drafts(items, kept, price, source) == Drafts(init, kept, price, source);
      }
    }
  }

  lemma NewLinesCite(kept: seq<Unit>, e: Estimating, requirementId: string)
    requires DistinctItems(e.items) && e.source != UserOverride
    ensures Citing(NewLines(kept, e), requirementId)
         == if Wanted(e.items, requirementId) && !Claims(kept, requirementId) then 1 else 0
  {
    var drafts := Drafts(e.items, kept, e.price, e.source);
    var overheads := Overheads(e.overhead(TotalHours(drafts) + TotalHours(kept)));
    DraftsCite(e.items, kept, e.price, e.source, requirementId);
    CitingConcat(drafts, overheads, requirementId);
    NoneCiting(overheads, requirementId);
  }

  /** Estimating again keeps every line a person authored, exactly as it is and in order,
      and covers the baseline: each live requirement is cited by exactly one line of the
      application's, or by none if a person's line claims it; nothing else is cited. */
  lemma GenerateCoversOnce(plan: Plan, e: Estimating, requirementId: string)
    requires EnoughIds(plan, e) && DistinctItems(e.items) && e.source != UserOverride
    requires Generate(plan, e).1 == None
    ensures var after := Generate(plan, e).0.units;
      && Authored(plan.units) <= after && Authored(after) == Authored(plan.units)
      && Citing(after, requirementId)
         == if Wanted(e.items, requirementId) && !Claims(Authored(plan.units), requirementId) then 1 else 0
  {
    var kept, lines := Authored(plan.units), NewLines(Authored(plan.units), e);
    var added := WithIds(lines, e.newIds);
    AuthoredAre(plan.units);
    NoneCiting(kept, requirementId);
    NewLinesCite(kept, e, requirementId);
    IdsDoNotMatter(lines, e.newIds, requirementId);
    CitingConcat(kept, added, requirementId);
    LinesAreApplications(kept, e);
    AuthoredConcat(kept, added);
    AllAuthored(kept);
    NoneAuthored(added);
  }

  /** Whether re-estimation leaves a hand-written line alone: after any overrides and resets
      of it, the line is still in the plan exactly when the last of them that went through
      was not a reset. */
  lemma ManualLineSurvivesIff(plan: Plan, at: nat, acts: seq<Act>, e: Estimating)
    requires at < |plan.units| && IsUserAuthored(plan.units[at].source)
    requires e.baselineApproved && e.stackLocked && DoAll(plan.units[at], acts).id !in e.newIds
    requires EnoughIds(plan.(units := plan.units[at := DoAll(plan.units[at], acts)]), e)
    ensures var line, worked := DoAll(plan.units[at], acts),
                                plan.(units := plan.units[at := DoAll(plan.units[at], acts)]);
      line in Generate(worked, e).0.units <==> LastLanded(plan.units[at], acts) != Some(ResetIt)
  {
    var line := DoAll(plan.units[at], acts);
    var worked := plan.(units := plan.units[at := line]);
    ManualLineStaysIff(plan.units[at], acts);
    AuthoredAre(worked.units);
    assert worked.units[at] == line;
    var added := WithIds(NewLines(Authored(worked.units), e), e.newIds);
    assert forall i :: 0 <= i < |added| ==> added[i].id in e.newIds;
    assert line in Authored(worked.units) + added <==> line in Authored(worked.units);
  }

  lemma {:induction false} DraftsAreApplications(items: seq<Item>, kept: seq<Unit>, price: string -> Unit,
                                                 source: Source)
    requires source != UserOverride
    ensures forall i :: 0 <= i < |Drafts(items, kept, price, source)| ==>
            !IsUserAuthored(Drafts(items, kept, price, source)[i].source)
    decreases |items|
  {
    if items != [] { DraftsAreApplications(items[..|items| - 1], kept, price, source); }
  }

  lemma LinesAreApplications(kept: seq<Unit>, e: Estimating)
    requires e.source != UserOverride
    ensures forall i :: 0 <= i < |NewLines(kept, e)| ==> !IsUserAuthored(NewLines(kept, e)[i].source)
  {
    DraftsAreApplications(e.items, kept, e.price, e.source);
  }

  lemma {:induction false} AuthoredConcat(a: seq<Unit>, b: seq<Unit>)
    ensures Authored(a + b) == Authored(a) + Authored(b)
  {
    if a == [] {
      assert a + b == b;
    } else {
      var head := if IsUserAuthored(a[0].source) then [a[0]] else [];
      assert (a + b)[0] == a[0] && (a + b)[1..] == a[1..] + b;
      AuthoredConcat(a[1..], b);
      assert head + (Authored(a[1..]) + Authored(b)) == (head + Authored(a[1..])) + Authored(b);
    }
  }

  lemma {:induction false} AllAuthored(units: seq<Unit>)
    requires forall i :: 0 <= i < |units| ==> IsUserAuthored(units[i].source)
    ensures Authored(units) == units
  {
    if units != [] {
      assert forall i :: 0 <= i < |units[1..]| ==> units[1..][i] == units[i + 1];
      AllAuthored(units[1..]);
    }
  }

  lemma {:induction false} NoneAuthored(units: seq<Unit>)
    requires forall i :: 0 <= i < |units| ==> !IsUserAuthored(units[i].source)
    ensures Authored(units) == []
  {
    if units != [] {
      assert forall i :: 0 <= i < |units[1..]| ==> units[1..][i] == units[i + 1];
      NoneAuthored(units[1..]);
    }
  }

  predicate HasApplicationLine(units: seq<Unit>) { exists i :: 0 <= i < |units| && !IsUserAuthored(units[i].source) }

  predicate HasInferredEdge(edges: seq<Edge>) { exists i :: 0 <= i < |edges| && !edges[i].userDefined }

  /** A refused request normally leaves the plan as it was. One refused for its size has
      already removed the application's lines and inferred dependencies: it changes the
      plan exactly when there were any. */
  lemma RefusedGenerateChangesIff(plan: Plan, e: Estimating)
    requires EnoughIds(plan, e) && Generate(plan, e).1.Some?
    ensures Generate(plan, e).0 != plan <==>
      Generate(plan, e).1 == Some(LimitReached) && (HasApplicationLine(plan.units) || HasInferredEdge(plan.edges))
  {
    AuthoredShrinks(plan.units);
    UserEdgesShrink(plan.edges);
  }

  /** No line of the plan has one of the ids handed out. */
  ghost predicate NewIdsAreNew(plan: Plan, e: Estimating) {
    forall k :: 0 <= k < |e.newIds| ==> e.newIds[k] !in Ids(plan.units)
  }

  predicate TooMany(plan: Plan, e: Estimating) {
    |Authored(plan.units)| + |NewLines(Authored(plan.units), e)| > MAX_UNITS
  }

  /** Estimating again finds a baseline and a stack, and something to delete or to add: a line
      of the application's, a dependency it would leave elsewhere, or room for a new line. */
  ghost predicate Rewrites(plan: Plan, e: Estimating) {
    && e.baselineApproved && e.stackLocked
    && (|| HasApplicationLine(plan.units)
        || (if TooMany(plan, e) then HasInferredEdge(plan.edges)
            else NewLines(plan.units, e) != [] || WithInferred(Plan(plan.units, UserEdges(plan.edges))) != plan))
  }

  /** Refused or not, estimating again changes the plan exactly when there is something to
      delete or to add. */
  lemma GenerateChangesIff(plan: Plan, e: Estimating)
    requires EnoughIds(plan, e) && NewIdsAreNew(plan, e)
    ensures Generate(plan, e).0 != plan <==> Rewrites(plan, e)
  {
    var kept, lines := Authored(plan.units), NewLines(Authored(plan.units), e);
    AuthoredShrinks(plan.units);
    UserEdgesShrink(plan.edges);
    var units: seq<Unit> := kept + WithIds(lines, e.newIds);
    if lines == [] {
      assert units == kept;
    } else {
      assert units[|kept|].id == e.newIds[0];
      if units == plan.units { assert Ids(plan.units)[|kept|] == e.newIds[0]; }
    }
  }

  lemma {:induction false} AuthoredShrinks(units: seq<Unit>)
    ensures |Authored(units)| <= |units|
    ensures Authored(units) != units <==> HasApplicationLine(units)
  {
    if forall i :: 0 <= i < |units| ==> IsUserAuthored(units[i].source) {
      AllAuthored(units);
    } else {
      AuthoredAre(units);
      var i :| 0 <= i < |units| && !IsUserAuthored(units[i].source);
      assert units[i] in units && units[i] !in Authored(units);
    }
    AuthoredLength(units);
  }

  lemma {:induction false} AuthoredLength(units: seq<Unit>)
    ensures |Authored(units)| <= |units|
  {
    if units != [] { AuthoredLength(units[1..]); }
  }

  lemma {:induction false} UserEdgesShrink(edges: seq<Edge>)
    ensures |UserEdges(edges)| <= |edges|
    ensures |UserEdges(edges)| == |edges| <==> UserEdges(edges) == edges
    ensures UserEdges(edges) != edges <==> HasInferredEdge(edges)
  {
    if edges != [] {
      UserEdgesShrink(edges[1..]);
      var rest := edges[1..];
      assert edges == [edges[0]] + rest;
      assert (exists i :: 0 <= i < |edges| && !edges[i].userDefined) <==>
             !edges[0].userDefined || exists i :: 0 <= i < |rest| && !rest[i].userDefined by {
        if i :| 0 < i < |edges| && !edges[i].userDefined { assert !rest[i - 1].userDefined; }
        if i :| 0 <= i < |rest| && !rest[i].userDefined { assert !edges[i + 1].userDefined; }
      }
    }
  }

  lemma {:induction false} InferenceKeepsEdges(edges: seq<Edge>, features: seq<string>, foundation: Option<string>,
                                               regression: Option<string>)
    ensures edges <= InferAll(edges, features, foundation, regression)
    decreases |features|
  {
    if features != [] { InferenceKeepsEdges(edges, features[..|features| - 1], foundation, regression); }
  }

  lemma {:induction false} UserEdgesAre(edges: seq<Edge>, edge: Edge)
    ensures edge in UserEdges(edges) <==> edge in edges && edge.userDefined
  {
    if edges != [] {
      UserEdgesAre(edges[1..], edge);
      assert edges == [edges[0]] + edges[1..];
    }
  }

  lemma IdAmong(units: seq<Unit>, id: string)
    ensures id in Ids(units) <==> exists i :: 0 <= i < |units| && units[i].id == id
  {
    if id in Ids(units) {
      var i :| 0 <= i < |Ids(units)| && Ids(units)[i] == id;
      assert units[i].id == id;
    }
    if i :| 0 <= i < |units| && units[i].id == id { assert Ids(units)[i] == id; }
  }

  predicate IsAuthoredTask(units: seq<Unit>, id: string) {
    exists i :: 0 <= i < |units| && units[i].id == id && IsUserAuthored(units[i].source)
  }

  /** A dependency a person added is never deleted by estimating again, but it goes on
      meaning something exactly when both its tasks are lines a person authored: the
      application's lines come back under new ids. */
  lemma UserEdgeStillJoinsIff(plan: Plan, e: Estimating, edge: Edge)
    requires EnoughIds(plan, e) && Generate(plan, e).1 == None
    requires edge in plan.edges && edge.userDefined
    requires forall k :: 0 <= k < |e.newIds| ==> e.newIds[k] != edge.predecessor && e.newIds[k] != edge.successor
    ensures edge in Generate(plan, e).0.edges
    ensures KnownTasks(Generate(plan, e).0, edge)
       <==> IsAuthoredTask(plan.units, edge.predecessor) && IsAuthoredTask(plan.units, edge.successor)
  {
    var kept, lines := Authored(plan.units), NewLines(Authored(plan.units), e);
    var before := Plan(kept + WithIds(lines, e.newIds), UserEdges(plan.edges));
    UserEdgesAre(plan.edges, edge);
    InferenceKeepsEdges(before.edges, Features(before.units), FindActivity(before.units, SharedArchitecture),
                        FindActivity(before.units, QaRegression));
    TaskSurvivesIff(plan.units, lines, e.newIds, edge.predecessor);
    TaskSurvivesIff(plan.units, lines, e.newIds, edge.successor);
  }

  lemma TaskSurvivesIff(units: seq<Unit>, lines: seq<Unit>, newIds: seq<string>, id: string)
    requires |newIds| >= |lines| && forall k :: 0 <= k < |newIds| ==> newIds[k] != id
    ensures id in Ids(Authored(units) + WithIds(lines, newIds)) <==> IsAuthoredTask(units, id)
  {
    var kept, all := Authored(units), Authored(units) + WithIds(lines, newIds);
    IdAmong(all, id);
    AuthoredAre(units);
    if IsAuthoredTask(units, id) {
      var i :| 0 <= i < |units| && units[i].id == id && IsUserAuthored(units[i].source);
      var k :| 0 <= k < |kept| && kept[k] == units[i];
      assert all[k].id == id;
    }
    if k :| 0 <= k < |all| && all[k].id == id {
      assert k < |kept|;
      assert kept[k] in units;
    }
  }

  /* ------------------------------------------------------- reopening an estimate */

  /** A line as the next version has it: everything but its id and its write counter. */
  function CopyUnit(unit: Unit, id: string): Unit { unit.(id := id, recordVersion := 0) }

  function CarryUnits(units: seq<Unit>, newIds: seq<string>): seq<Unit>
    requires |newIds| >= |units|
  {
    seq(|units|, i requires 0 <= i < |units| => CopyUnit(units[i], newIds[i]))
  }

  function IdMap(units: seq<Unit>, newIds: seq<string>): map<string, string>
    requires |newIds| >= |units|
  {
    if units == [] then map[]
    else IdMap(units[..|units| - 1], newIds)[units[|units| - 1].id := newIds[|units| - 1]]
  }

  function Image(edge: Edge, ids: map<string, string>): Edge
    requires edge.predecessor in ids && edge.successor in ids
  {
    Edge(ids[edge.predecessor], ids[edge.successor], edge.userDefined)
  }

  function CarryEdges(edges: seq<Edge>, ids: map<string, string>): seq<Edge> {
    if edges == [] then []
    else
      (if edges[0].predecessor in ids && edges[0].successor in ids then [Image(edges[0], ids)] else [])
      + CarryEdges(edges[1..], ids)
  }

  function Reopened(plan: Plan, newIds: seq<string>): Plan
    requires |newIds| >= |plan.units|
  {
    Plan(CarryUnits(plan.units, newIds), CarryEdges(plan.edges, IdMap(plan.units, newIds)))
  }

  ghost predicate DistinctNew(newIds: seq<string>) {
    forall i, j :: 0 <= i < j < |newIds| ==> newIds[i] != newIds[j]
  }

  lemma {:induction false} IdMapIs(units: seq<Unit>, newIds: seq<string>)
    requires |newIds| >= |units| && DistinctIds(units)
    ensures forall id :: id in IdMap(units, newIds) <==> exists i :: 0 <= i < |units| && units[i].id == id
    ensures forall i :: 0 <= i < |units| ==>
            units[i].id in IdMap(units, newIds) && IdMap(units, newIds)[units[i].id] == newIds[i]
    decreases |units|
  {
    if units != [] {
      var last := |units| - 1;
      var init := units[..last];
      assert forall i :: 0 <= i < |init| ==> init[i] == units[i];
      IdMapIs(init, newIds);
      forall id | id in IdMap(units, newIds) ensures exists i :: 0 <= i < |units| && units[i].id == id {
        if id == units[last].id {
          assert units[last].id == id;
        } else {
          assert id in IdMap(init, newIds);
          var i :| 0 <= i < |init| && init[i].id == id;
          assert units[i].id == id;
        }
      }
    }
  }

  lemma {:induction false} CarriedEdgesAre(edges: seq<Edge>, ids: map<string, string>, copy: Edge)
    ensures copy in CarryEdges(edges, ids) <==>
      exists e :: e in edges && e.predecessor in ids && e.successor in ids && Image(e, ids) == copy
  {
    if edges != [] {
      CarriedEdgesAre(edges[1..], ids, copy);
      assert forall e :: e in edges <==> e == edges[0] || e in edges[1..];
    }
  }

  ghost predicate OneToOne(ids: map<string, string>) {
    forall a, b :: a in ids && b in ids && ids[a] == ids[b] ==> a == b
  }

  ghost predicate LiveImages(ids: map<string, string>, before: Plan, after: Plan) {
    && (forall id :: id in Live(before) ==> id in ids)
    && (forall id :: id in Live(after) <==> exists a :: a in ids && a in Live(before) && ids[a] == id)
  }

  ghost predicate LinkImages(ids: map<string, string>, before: Plan, after: Plan) {
    forall a, b :: a in ids && b in ids ==>
      (Linked(before.edges, Live(before), a, b) <==> Linked(after.edges, Live(after), ids[a], ids[b]))
  }

  /** The two versions are the same graph under new names. */
  ghost predicate Renames(ids: map<string, string>, before: Plan, after: Plan) {
    OneToOne(ids) && LiveImages(ids, before, after) && LinkImages(ids, before, after)
  }

  lemma ReopenedRenames(plan: Plan, newIds: seq<string>)
    requires |newIds| >= |plan.units| && DistinctIds(plan.units) && DistinctNew(newIds)
    ensures Renames(IdMap(plan.units, newIds), plan, Reopened(plan, newIds))
  {
    IdMapIs(plan.units, newIds);
    LiveLinesRenamed(plan, newIds);
    LinksRenamed(plan, newIds);
  }

  lemma LiveLinesRenamed(plan: Plan, newIds: seq<string>)
    requires |newIds| >= |plan.units| && DistinctIds(plan.units)
    ensures LiveImages(IdMap(plan.units, newIds), plan, Reopened(plan, newIds))
  {
    var ids, after := IdMap(plan.units, newIds), Reopened(plan, newIds);
    IdMapIs(plan.units, newIds);
    forall id | id in Live(plan) ensures id in ids { LiveIdsAre(plan.units, id); }
    forall id ensures id in Live(after) <==> exists a :: a in ids && a in Live(plan) && ids[a] == id {
      LiveRenamed(plan, newIds, id);
    }
  }

  lemma LinksRenamed(plan: Plan, newIds: seq<string>)
    requires |newIds| >= |plan.units| && DistinctIds(plan.units) && DistinctNew(newIds)
    ensures LinkImages(IdMap(plan.units, newIds), plan, Reopened(plan, newIds))
  {
    var ids, after := IdMap(plan.units, newIds), Reopened(plan, newIds);
    forall a, b | a in ids && b in ids
      ensures Linked(plan.edges, Live(plan), a, b) <==> Linked(after.edges, Live(after), ids[a], ids[b])
    {
      LinkRenamed(plan, newIds, a, b);
    }
  }

  lemma LiveRenamed(plan: Plan, newIds: seq<string>, id: string)
    requires |newIds| >= |plan.units| && DistinctIds(plan.units)
    ensures var ids := IdMap(plan.units, newIds);
      id in Live(Reopened(plan, newIds)) <==> exists a :: a in ids && a in Live(plan) && ids[a] == id
  {
    var ids, copies := IdMap(plan.units, newIds), CarryUnits(plan.units, newIds);
    IdMapIs(plan.units, newIds);
    LiveIdsAre(copies, id);
    if i :| 0 <= i < |copies| && copies[i].id == id && !copies[i].excluded {
      LiveIdsAre(plan.units, plan.units[i].id);
      assert plan.units[i].id in ids && ids[plan.units[i].id] == id;
    }
    if a :| a in ids && a in Live(plan) && ids[a] == id { CopyIsLive(plan, newIds, a); }
  }

  lemma CopyIsLive(plan: Plan, newIds: seq<string>, a: string)
    requires |newIds| >= |plan.units| && DistinctIds(plan.units) && a in Live(plan)
    ensures a in IdMap(plan.units, newIds) && IdMap(plan.units, newIds)[a] in LiveIds(CarryUnits(plan.units, newIds))
  {
    var copies := CarryUnits(plan.units, newIds);
    IdMapIs(plan.units, newIds);
    LiveIdsAre(plan.units, a);
    var i :| 0 <= i < |plan.units| && plan.units[i].id == a && !plan.units[i].excluded;
    assert copies[i].id == newIds[i] && !copies[i].excluded;
    LiveIdsAre(copies, newIds[i]);
  }

  lemma LinkRenamed(plan: Plan, newIds: seq<string>, a: string, b: string)
    requires |newIds| >= |plan.units| && DistinctIds(plan.units) && DistinctNew(newIds)
    requires a in IdMap(plan.units, newIds) && b in IdMap(plan.units, newIds)
    ensures var ids, after := IdMap(plan.units, newIds), Reopened(plan, newIds);
      Linked(plan.edges, Live(plan), a, b) <==> Linked(after.edges, Live(after), ids[a], ids[b])
  {
    var ids, after := IdMap(plan.units, newIds), Reopened(plan, newIds);
    IdMapIs(plan.units, newIds);
    LiveRenamed(plan, newIds, ids[a]);
    LiveRenamed(plan, newIds, ids[b]);
    MapIsOneToOne(plan.units, newIds);
    if e :| e in plan.edges && e.predecessor == a && e.successor == b {
      CarriedEdgesAre(plan.edges, ids, Image(e, ids));
    }
    if copy :| copy in after.edges && copy.predecessor == ids[a] && copy.successor == ids[b] {
      CarriedEdgesAre(plan.edges, ids, copy);
      var e :| e in plan.edges && e.predecessor in ids && e.successor in ids && Image(e, ids) == copy;
      assert e.predecessor == a && e.successor == b;
    }
  }

  lemma MapIsOneToOne(units: seq<Unit>, newIds: seq<string>)
    requires |newIds| >= |units| && DistinctIds(units) && DistinctNew(newIds)
    ensures var ids := IdMap(units, newIds); forall a, b :: a in ids && b in ids && ids[a] == ids[b] ==> a == b
  {
    var ids := IdMap(units, newIds);
    IdMapIs(units, newIds);
    forall a, b | a in ids && b in ids && ids[a] == ids[b] ensures a == b {
      var i :| 0 <= i < |units| && units[i].id == a;
      var j :| 0 <= j < |units| && units[j].id == b;
      assert newIds[i] == newIds[j];
    }
  }

  lemma LoopRenamed(f: map<string, string>, from: seq<Edge>, live: set<string>, to: seq<Edge>, live': set<string>,
                    cycle: seq<string>)
    requires forall a, b :: Linked(from, live, a, b) ==> a in f && b in f && Linked(to, live', f[a], f[b])
    requires IsCycle(from, live, cycle)
    ensures !Acyclic(to, live')
  {
    forall i | 0 <= i < |cycle| ensures cycle[i] in f {
      if i + 1 < |cycle| { assert Linked(from, live, cycle[i], cycle[i + 1]); }
    }
    var image := seq(|cycle|, i requires 0 <= i < |cycle| => f[cycle[i]]);
    forall i | 0 <= i < |image| - 1 ensures Linked(to, live', image[i], image[i + 1]) {
      assert Linked(from, live, cycle[i], cycle[i + 1]);
    }
    assert IsCycle(to, live', image);
  }

  ghost function Inverse(ids: map<string, string>): map<string, string> {
    map b | b in ids.Values :: Preimage(ids, b)
  }

  ghost function Preimage(ids: map<string, string>, b: string): (a: string)
    requires b in ids.Values
    ensures a in ids && ids[a] == b
  {
    var a :| a in ids && ids[a] == b;
    a
  }

  lemma RenamedSchedulable(ids: map<string, string>, before: Plan, after: Plan)
    requires Renames(ids, before, after)
    ensures Schedulable(before) <==> Schedulable(after)
  {
    if cycle :| IsCycle(before.edges, Live(before), cycle) {
      LoopRenamed(ids, before.edges, Live(before), after.edges, Live(after), cycle);
    }
    if cycle :| IsCycle(after.edges, Live(after), cycle) {
      var back := Inverse(ids);
      forall a, b | Linked(after.edges, Live(after), a, b)
        ensures a in back && b in back && Linked(before.edges, Live(before), back[a], back[b])
      {
        var x :| x in ids && x in Live(before) && ids[x] == a;
        var y :| y in ids && y in Live(before) && ids[y] == b;
        assert a in ids.Values && b in ids.Values;
      }
      LoopRenamed(back, after.edges, Live(after), before.edges, Live(before), cycle);
    }
  }

  lemma {:induction false} CarriedHours(units: seq<Unit>, newIds: seq<string>)
    requires |newIds| >= |units|
    ensures TotalHours(CarryUnits(units, newIds)) == TotalHours(units)
  {
    if units != [] {
      CarriedHours(units[1..], newIds[1..]);
      assert CarryUnits(units, newIds)[1..] == CarryUnits(units[1..], newIds[1..]);
    }
  }

  /** Reopening an estimate copies its plan faithfully under new ids: line by line with the
      same figures, authorship and exclusions; the same total; the same dependencies among
      its tasks with the same owners; and it can be scheduled if and only if the approved
      one could. */
  lemma ReopeningCopiesThePlan(plan: Plan, newIds: seq<string>)
    requires |newIds| >= |plan.units| && DistinctIds(plan.units) && DistinctNew(newIds)
    ensures var after := Reopened(plan, newIds);
      && |after.units| == |plan.units|
      && (forall i :: 0 <= i < |plan.units| ==> after.units[i] == plan.units[i].(id := newIds[i], recordVersion := 0))
      && TotalHours(after.units) == TotalHours(plan.units) && DistinctIds(after.units)
      && Renames(IdMap(plan.units, newIds), plan, after)
      && (forall copy :: copy in after.edges <==>
            exists e :: e in plan.edges && e.predecessor in IdMap(plan.units, newIds)
                && e.successor in IdMap(plan.units, newIds)
                        && Image(e, IdMap(plan.units, newIds)) == copy)
      && (Schedulable(after) <==> Schedulable(plan))
  {
    var ids := IdMap(plan.units, newIds);
    ReopenedRenames(plan, newIds);
    RenamedSchedulable(ids, plan, Reopened(plan, newIds));
    CarriedHours(plan.units, newIds);
    forall copy ensures copy in Reopened(plan, newIds).edges <==>
      exists e :: e in plan.edges && e.predecessor in ids && e.successor in ids && Image(e, ids) == copy
    {
      CarriedEdgesAre(plan.edges, ids, copy);
    }
  }
}
