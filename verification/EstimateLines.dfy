/** The lines a re-estimation writes, one by one, and what it hands the overhead rules. */
module EstimateLines {
  import opened Wrappers
  import opened RoleSplit
  import opened EstimateUnits
  import opened DependencyGraph
  import opened EstimateDependencies
  import opened EstimateVersions

  ghost predicate Ascending(at: seq<nat>) {
    forall i, j :: 0 <= i < j < |at| ==> at[i] < at[j]
  }

  /** The requirement gets a line of the application's: it counts, and no line that is kept
      claims it. */
  ghost predicate NeedsLine(item: Item, kept: seq<Unit>) {
    item.live && forall i :: 0 <= i < |kept| ==> item.id !in kept[i].requirementIds
  }

  /** A line as the engine priced it for one requirement. */
  ghost predicate PricedFor(line: Unit, item: Item, e: Estimating) {
    var priced := e.price(item.id);
    && line.requirementIds == [item.id] && line.source == e.source && line.activity == None
    && line.effort == priced.effort && line.totalHours == priced.totalHours && line.range == priced.range
    && line.uncertainty == priced.uncertainty && line.sources == priced.sources && line.wording == priced.wording
    && line.original == None && !line.excluded && line.recordVersion == 0
  }

  /** A line as an overhead rule gave it. It cites nothing and is the application's. */
  ghost predicate OverheadOf(line: Unit, given: Unit) {
    line == given.(id := line.id, requirementIds := [], source := SystemCalculated, original := None,
                   excluded := false, recordVersion := 0)
  }

  /** Lines for the requirements at these positions of the baseline, in their order. */
  ghost predicate PricedAt(lines: seq<Unit>, at: seq<nat>, e: Estimating) {
    && |lines| == |at| && Ascending(at)
    && forall k :: 0 <= k < |at| ==> at[k] < |e.items| && PricedFor(lines[k], e.items[at[k]], e)
  }

  lemma {:induction false} DraftsAre(kept: seq<Unit>, e: Estimating, upTo: nat) returns (at: seq<nat>)
    requires upTo <= |e.items|
    ensures PricedAt(Drafts(e.items[..upTo], kept, e.price, e.source), at, e)
    ensures forall k :: 0 <= k < |at| ==> at[k] < upTo
    ensures forall i :: 0 <= i < upTo ==> (i in at <==> NeedsLine(e.items[i], kept))
  {
    at := [];
    if upTo > 0 {
      var last := upTo - 1;
      at := DraftsAre(kept, e, last);
      assert e.items[..upTo][..last] == e.items[..last];
      NeedsLineIff(e.items[last], kept);
      if NeedsLine(e.items[last], kept) {
        var earlier := Drafts(e.items[..last], kept, e.price, e.source);
        assert Drafts(e.items[..upTo], kept, e.price, e.source)
            == earlier + [DraftFor(e.items[last], e.price, e.source)];
        OneMorePriced(earlier, at, e, last);
        at := at + [last];
      } else {
        assert Drafts(e.items[..upTo], kept, e.price, e.source)
            == Drafts(e.items[..last], kept, e.price, e.source) + [];
      }
    }
  }

  lemma OneMorePriced(lines: seq<Unit>, at: seq<nat>, e: Estimating, last: nat)
    requires PricedAt(lines, at, e) && last < |e.items| && forall k :: 0 <= k < |at| ==> at[k] < last
    ensures PricedAt(lines + [DraftFor(e.items[last], e.price, e.source)], at + [last], e)
  {
  }

  lemma NeedsLineIff(item: Item, kept: seq<Unit>)
    ensures NeedsLine(item, kept) <==> item.live && !Claims(kept, item.id)
  {
  }

  lemma {:induction false} HoursConcat(a: seq<Unit>, b: seq<Unit>)
    ensures TotalHours(a + b) == TotalHours(a) + TotalHours(b)
  {
    if a == [] {
      assert a + b == b;
    } else {
      assert (a + b)[1..] == a[1..] + b;
      HoursConcat(a[1..], b);
    }
  }

  lemma {:induction false} SameHours(a: seq<Unit>, b: seq<Unit>)
    requires |a| == |b| && forall i :: 0 <= i < |a| ==> a[i].totalHours == b[i].totalHours
    ensures TotalHours(a) == TotalHours(b)
  {
    if a != [] { SameHours(a[1..], b[1..]); }
  }

  lemma LinesInPlace(kept: seq<Unit>, drafts: seq<Unit>, overheads: seq<Unit>, newIds: seq<string>)
    requires |newIds| >= |drafts + overheads|
    ensures var after := kept + WithIds(drafts + overheads, newIds);
      && after[..|kept|] == kept && |after| == |kept| + |drafts| + |overheads|
      && (forall k :: 0 <= k < |drafts| ==>
            after[|kept| + k] == drafts[k].(id := after[|kept| + k].id))
      && (forall j :: 0 <= j < |overheads| ==>
            after[|kept| + |drafts| + j] == overheads[j].(id := after[|kept| + |drafts| + j].id))
  {
  }

  lemma RenamedPriced(lines: seq<Unit>, renamed: seq<Unit>, at: seq<nat>, e: Estimating)
    requires PricedAt(lines, at, e) && |renamed| == |lines|
    requires forall k :: 0 <= k < |lines| ==> renamed[k] == lines[k].(id := renamed[k].id)
    ensures PricedAt(renamed, at, e)
  {
  }

  ghost predicate AreOverheads(lines: seq<Unit>, given: seq<Unit>) {
    |lines| == |given| && forall j :: 0 <= j < |given| ==> OverheadOf(lines[j], given[j])
  }

  lemma RenamedOverheads(given: seq<Unit>, renamed: seq<Unit>)
    requires |renamed| == |given|
    requires forall j :: 0 <= j < |given| ==> renamed[j] == Overheads(given)[j].(id := renamed[j].id)
    ensures AreOverheads(renamed, given)
  {
  }

  /** Lines after those of people: first the priced ones, then the overhead for all before. */
  ghost predicate LinesWritten(after: seq<Unit>, from: nat, upTo: nat, at: seq<nat>, e: Estimating)
    requires from <= upTo <= |after|
  {
    && PricedAt(after[from..upTo], at, e)
    && AreOverheads(after[upTo..], e.overhead(TotalHours(after[..upTo])))
  }

  lemma WrittenInPlace(kept: seq<Unit>, drafts: seq<Unit>, at: seq<nat>, e: Estimating, after: seq<Unit>)
    requires PricedAt(drafts, at, e)
    requires var lines := drafts + Overheads(e.overhead(TotalHours(drafts) + TotalHours(kept)));
      |e.newIds| >= |lines| && after == kept + WithIds(lines, e.newIds)
    ensures |kept| + |drafts| <= |after| && after[..|kept|] == kept
    ensures LinesWritten(after, |kept|, |kept| + |drafts|, at, e)
  {
    var given := e.overhead(TotalHours(drafts) + TotalHours(kept));
    LinesInPlace(kept, drafts, Overheads(given), e.newIds);
    RenamedPriced(drafts, after[|kept|..|kept| + |drafts|], at, e);
    RenamedOverheads(given, after[|kept| + |drafts|..]);
    FirstHours(kept, drafts, drafts + Overheads(given), e);
  }

  /** A re-estimation that goes through writes, after the lines people authored, one line for
      each requirement that needs one, in the order of the baseline and with the engine's
      figures for that requirement; and after those, as the overhead rules give them for the
      hours of all the lines before them, the lines of overhead. */
  lemma GeneratedLines(plan: Plan, e: Estimating) returns (at: seq<nat>)
    requires EnoughIds(plan, e) && Generate(plan, e).1 == None
    ensures var kept, after := Authored(plan.units), Generate(plan, e).0.units;
      && |kept| + |at| <= |after| <= MAX_UNITS && after[..|kept|] == kept
      && LinesWritten(after, |kept|, |kept| + |at|, at, e)
    ensures forall i :: 0 <= i < |e.items| ==> (i in at <==> NeedsLine(e.items[i], Authored(plan.units)))
  {
    var kept := Authored(plan.units);
    at := DraftsAre(kept, e, |e.items|);
    assert e.items[..|e.items|] == e.items;
    GeneratedUnits(plan, e);
    WrittenInPlace(kept, Drafts(e.items, kept, e.price, e.source), at, e, Generate(plan, e).0.units);
  }

  lemma GeneratedUnits(plan: Plan, e: Estimating)
    requires EnoughIds(plan, e) && Generate(plan, e).1 == None
    ensures var kept := Authored(plan.units);
      Generate(plan, e).0.units == kept + WithIds(NewLines(kept, e), e.newIds)
      && |Generate(plan, e).0.units| <= MAX_UNITS
  {
  }

  /** The hours the overhead rules are given are those of all lines before the overhead. */
  lemma FirstHours(kept: seq<Unit>, drafts: seq<Unit>, lines: seq<Unit>, e: Estimating)
    requires |e.newIds| >= |lines| && drafts <= lines
    ensures TotalHours((kept + WithIds(lines, e.newIds))[..|kept| + |drafts|])
         == TotalHours(drafts) + TotalHours(kept)
  {
    var before := (kept + WithIds(lines, e.newIds))[..|kept| + |drafts|];
    var named := WithIds(lines, e.newIds)[..|drafts|];
    assert before == kept + named;
    HoursConcat(kept, named);
    SameHours(named, drafts);
  }
}
