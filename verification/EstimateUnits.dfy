/** One line of an estimate: overriding it, putting it back, and what outlives a
    re-estimation. */
module EstimateUnits {
  import opened Wrappers
  import opened OrderedMap
  import opened RoleSplit

  datatype Source = SystemCalculated | AiProposed | UserOverride
  datatype Level = Low | Medium | High
  datatype Range = Range(optimistic: real, expected: real, conservative: real)

  /** What a line is called and why, which no arithmetic here reads. */
  datatype Wording = Wording(key: string, feature: string, overrideNote: string, exclusionReason: string)

  datatype Activity = SharedArchitecture | QaRegression | OtherActivity(name: string)

  datatype Unit = Unit(
    id: string,
    requirementIds: seq<string>,
    activity: Option<Activity>,
    wording: Wording,
    uncertainty: Level,
    sources: seq<string>,
    effort: Effort,
    totalHours: real,
    range: Range,
    source: Source,
    original: Option<(Effort, real)>,
    excluded: bool,
    recordVersion: nat)

  predicate IsUserAuthored(source: Source) { source == UserOverride }

  function TotalOf(effort: Effort): real { Round2(Sum(effort)) }

  function RangeFor(expected: real, uncertainty: Level): Range {
    match uncertainty
    case Low => Range(Round2(expected * 0.9), Round2(expected), Round2(expected * 1.15))
    case Medium => Range(Round2(expected * 0.8), Round2(expected), Round2(expected * 1.4))
    case High => Range(Round2(expected * 0.7), Round2(expected), Round2(expected * 1.9))
  }

  function DeriveUncertainty(sources: seq<string>): Level {
    var unique := set s | s in sources;
    if |unique| == 0 then Low else if |unique| == 1 then Medium else High
  }

  predicate IsPlausible(hours: real) { 0.0 <= hours <= 4000.0 }

  function Merge(base: Effort, changes: Effort): Effort
    decreases |changes|
  {
    if changes == [] then base else Merge(Put(base, changes[0].0, changes[0].1), changes[1..])
  }

  datatype OverrideRequest = OverrideRequest(
    effort: Option<Effort>, uncertainty: Option<Level>, sources: Option<seq<string>>, note: Option<string>,
    excluded: Option<bool>, exclusionReason: Option<string>)

  datatype EstimateError =
    | Approved | StaleVersion | UnknownUnit | ImplausibleHours | NothingToReset | UnknownTask | DependencyCycle
    | BaselineNotApproved | StackNotLocked | LimitReached | NotApproved | AlreadyApproved | HasBlockers
    | EstimateNotFound | DependencyNotFound | AlreadyRunning | NotConfigured | EstimationFailed

  /** A text the request gives. An empty one counts as none. */
  function Given(text: Option<string>, stored: string): string {
    if text.GetOr("") != "" then text.value else stored
  }

  /** Change a figure by hand. What was there first is kept, once. */
  function Override(unit: Unit, request: OverrideRequest): Result<Unit, EstimateError> {
    if request.effort.Some?
       && exists i :: 0 <= i < |request.effort.value| && !IsPlausible(request.effort.value[i].1) then
      Refused(ImplausibleHours)
    else
      var effort := match request.effort case Some(changes) => Merge(unit.effort, changes) case None => unit.effort;
      var total := TotalOf(effort);
      var sources := request.sources.GetOr(unit.sources);
      var uncertainty := request.uncertainty.GetOr(DeriveUncertainty(sources));
      Ok(unit.(
        effort := effort, totalHours := total, range := RangeFor(total, uncertainty), uncertainty := uncertainty,
        sources := sources, source := UserOverride,
        original := if unit.original.Some? then unit.original else Some((unit.effort, unit.totalHours)),
        wording := unit.wording.(overrideNote := Given(request.note, unit.wording.overrideNote),
                                 exclusionReason := Given(request.exclusionReason, unit.wording.exclusionReason)),
        excluded := request.excluded.GetOr(unit.excluded),
        recordVersion := unit.recordVersion + 1))
  }

  /** Undo every override of a line's figures at once. */
  function Reset(unit: Unit): Result<Unit, EstimateError> {
    match unit.original
    case None => Refused(NothingToReset)
    case Some((effort, total)) =>
      Ok(unit.(effort := effort, totalHours := total, range := RangeFor(total, unit.uncertainty),
               source := SystemCalculated, original := None,
               wording := unit.wording.(overrideNote := ""), recordVersion := unit.recordVersion + 1))
  }

  /* ------------------------------------------------------- what an override sets */

  /** The last figure a request gives for a role. */
  ghost predicate LastFor(changes: Effort, k: int, role: Role) {
    0 <= k < |changes| && changes[k].0 == role && forall j :: k < j < |changes| ==> changes[j].0 != role
  }

  /** Every role has the last figure given for it, or the figure it had. */
  ghost predicate EffortSet(before: Effort, changes: Effort, after: Effort) {
    forall role ::
      && (forall k :: LastFor(changes, k, role) ==> Get(after, role) == Some(changes[k].1))
      && ((forall k :: !LastFor(changes, k, role)) ==> Get(after, role) == Get(before, role))
  }

  lemma {:induction false} MergedFigure(base: Effort, changes: Effort, role: Role)
    ensures forall k :: LastFor(changes, k, role) ==> Get(Merge(base, changes), role) == Some(changes[k].1)
    ensures (forall k :: !LastFor(changes, k, role)) ==> Get(Merge(base, changes), role) == Get(base, role)
    decreases |changes|
  {
    if changes != [] {
      var rest := changes[1..];
      GetOfPut(base, changes[0].0, changes[0].1, role);
      MergedFigure(Put(base, changes[0].0, changes[0].1), rest, role);
      assert forall j :: 1 <= j < |changes| ==> changes[j] == rest[j - 1];
      forall k ensures k > 0 ==> (LastFor(changes, k, role) <==> LastFor(rest, k - 1, role)) {}
      forall k ensures LastFor(rest, k, role) ==> LastFor(changes, k + 1, role) {}
      if changes[0].0 == role && forall k :: !LastFor(rest, k, role) {
        NoneLast(rest, role);
        assert LastFor(changes, 0, role);
      }
    }
  }

  /** A role with a figure has a last one. */
  lemma {:induction false} NoneLast(changes: Effort, role: Role)
    requires forall k :: !LastFor(changes, k, role)
    ensures forall j :: 0 <= j < |changes| ==> changes[j].0 != role
  {
    if changes != [] {
      var init, last := changes[..|changes| - 1], |changes| - 1;
      assert !LastFor(changes, last, role);
      forall k ensures !LastFor(init, k, role) { assert !LastFor(changes, k, role); }
      NoneLast(init, role);
      assert forall j :: 0 <= j < last ==> changes[j] == init[j];
    }
  }

  lemma {:induction false} MergeKeepsShape(base: Effort, changes: Effort)
    requires Distinct(base)
    ensures Distinct(Merge(base, changes)) && Keys(base) <= Keys(Merge(base, changes))
    decreases |changes|
  {
    if changes != [] {
      PutShape(base, changes[0].0, changes[0].1);
      MergeKeepsShape(Put(base, changes[0].0, changes[0].1), changes[1..]);
    }
  }

  /** How far the hours spread to either side of the expected figure. */
  ghost predicate Spreads(range: Range, total: real, uncertainty: Level) {
    var (low, high) := match uncertainty case Low => (0.9, 1.15) case Medium => (0.8, 1.4) case High => (0.7, 1.9);
    && range.expected == total
    && Near(range.optimistic, total * low, 1) && Near(range.conservative, total * high, 1)
  }

  /** Uncertainty by how many different sources it has: none, one, or several. */
  ghost predicate DerivedFrom(sources: seq<string>, uncertainty: Level) {
    match uncertainty
    case Low => sources == []
    case Medium => sources != [] && forall i :: 0 <= i < |sources| ==> sources[i] == sources[0]
    case High => exists i :: 0 <= i < |sources| && sources[i] != sources[0]
  }

  lemma UncertaintyDerived(sources: seq<string>)
    ensures DerivedFrom(sources, DeriveUncertainty(sources))
  {
    var unique := set s | s in sources;
    if sources != [] {
      assert sources[0] in unique;
      if forall i :: 0 <= i < |sources| ==> sources[i] == sources[0] {
        assert unique == {sources[0]};
      } else {
        var i :| 0 <= i < |sources| && sources[i] != sources[0];
        assert {sources[0], sources[i]} <= unique;
        Larger({sources[0], sources[i]}, unique);
      }
    }
  }

  lemma {:induction false} Larger<T>(few: set<T>, many: set<T>)
    requires few <= many
    ensures |few| <= |many|
  {
    assert many == few + (many - few);
  }

  /** What the request gives for a text, if it gives any. */
  ghost predicate TextSet(given: Option<string>, was: string, now: string) {
    now == if given.Some? && given.value != "" then given.value else was
  }

  /** What a line says once a person has overridden it. */
  ghost predicate Overridden(was: Unit, request: OverrideRequest, now: Unit) {
    && EffortSet(was.effort, request.effort.GetOr([]), now.effort)
    && (Distinct(was.effort) ==> Distinct(now.effort) && Keys(was.effort) <= Keys(now.effort))
    && Near(now.totalHours, Sum(now.effort), 1) && Spreads(now.range, now.totalHours, now.uncertainty)
    && now.sources == (if request.sources.Some? then request.sources.value else was.sources)
    && (request.uncertainty.Some? ==> now.uncertainty == request.uncertainty.value)
    && (request.uncertainty.None? ==> DerivedFrom(now.sources, now.uncertainty))
    && now.excluded == (if request.excluded.Some? then request.excluded.value else was.excluded)
    && TextSet(request.note, was.wording.overrideNote, now.wording.overrideNote)
    && TextSet(request.exclusionReason, was.wording.exclusionReason, now.wording.exclusionReason)
    && now.source == UserOverride && now.original.Some?
    && (was.original.None? ==> now.original.value == (was.effort, was.totalHours))
    && (was.original.Some? ==> now.original == was.original)
    && now.id == was.id && now.requirementIds == was.requirementIds && now.activity == was.activity
    && now.wording.key == was.wording.key && now.wording.feature == was.wording.feature
  }

  /** An override goes through exactly when every figure it gives is plausible, and then the
      line has the hours the person gave, each other role the hours it had, the total and
      the spread these come to, and the figures from before its first override on record. */
  lemma OverrideSets(unit: Unit, request: OverrideRequest)
    ensures Override(unit, request).Ok? <==>
      request.effort.None?
      || forall i :: 0 <= i < |request.effort.value| ==> 0.0 <= request.effort.value[i].1 <= 4000.0
    ensures Override(unit, request).Ok? ==> Overridden(unit, request, Override(unit, request).value)
  {
    if Override(unit, request).Ok? {
      var changes, now := request.effort.GetOr([]), Override(unit, request).value;
      forall role { MergedFigure(unit.effort, changes, role); }
      if Distinct(unit.effort) { MergeKeepsShape(unit.effort, changes); }
      UncertaintyDerived(now.sources);
      RoundTwice(Sum(now.effort));
    }
  }

  /** A reset goes through exactly if there is something to go back to; it brings back the
      first figures, spreads them by the uncertainty the line has now, takes the note away
      and touches nothing else. */
  lemma ResetSets(unit: Unit)
    ensures Reset(unit).Ok? <==> unit.original.Some?
    ensures Reset(unit).Ok? ==>
      var now := Reset(unit).value;
      && (now.effort, now.totalHours) == unit.original.value && Near(now.range.expected, now.totalHours, 1)
      && Spreads(now.range.(expected := now.totalHours), now.totalHours, unit.uncertainty)
      && now == unit.(effort := now.effort, totalHours := now.totalHours, range := now.range, original := None,
                      source := SystemCalculated, wording := unit.wording.(overrideNote := ""),
                      recordVersion := unit.recordVersion + 1)
  {
  }

  /* ------------------------------------------------------------------- runs */

  datatype Act = OverrideWith(request: OverrideRequest) | ResetIt

  function Attempt(unit: Unit, act: Act): Result<Unit, EstimateError> {
    match act case OverrideWith(request) => Override(unit, request) case ResetIt => Reset(unit)
  }

  /** A refused act changes nothing. */
  function Do(unit: Unit, act: Act): Unit {
    match Attempt(unit, act)
    case Ok(changed) => changed
    case Refused(_) => unit
  }

  function DoAll(unit: Unit, acts: seq<Act>): Unit
    decreases |acts|
  {
    if acts == [] then unit else DoAll(Do(unit, acts[0]), acts[1..])
  }

  /** Some override of the run went through. */
  predicate Overrides(unit: Unit, acts: seq<Act>)
    decreases |acts|
  {
    acts != [] && ((acts[0].OverrideWith? && Override(unit, acts[0].request).Ok?)
        || Overrides(Do(unit, acts[0]), acts[1..]))
  }

  predicate OnlyOverrides(acts: seq<Act>) { forall i :: 0 <= i < |acts| ==> acts[i].OverrideWith? }

  lemma {:induction false} OriginalKept(unit: Unit, acts: seq<Act>)
    requires OnlyOverrides(acts)
    ensures DoAll(unit, acts).original
         == if unit.original.Some? then unit.original
            else if Overrides(unit, acts) then Some((unit.effort, unit.totalHours)) else None
    decreases |acts|
  {
    if acts != [] {
      assert forall i :: 0 <= i < |acts[1..]| ==> acts[1..][i] == acts[i + 1];
      OriginalKept(Do(unit, acts[0]), acts[1..]);
    }
  }

  /** However often and however far a line is overridden, one reset brings back its effort
      and total from before the first override: nothing in between is what it returns to. */
  lemma ResetUndoesEveryOverride(unit: Unit, acts: seq<Act>)
    requires OnlyOverrides(acts) && unit.original == None
    ensures Reset(DoAll(unit, acts)).Ok? <==> Overrides(unit, acts)
    ensures Reset(DoAll(unit, acts)).Ok? ==>
              var after := Reset(DoAll(unit, acts)).value;
              after.effort == unit.effort && after.totalHours == unit.totalHours && after.original == None
              && after.source == SystemCalculated
  {
    OriginalKept(unit, acts);
  }

  /** What a reset does not bring back: the line stays in or out of the plan as the
      overrides left it, and the range is the one for the uncertainty they left, so it is
      the old range exactly when that uncertainty spreads the old total the same way. */
  lemma ResetLeaves(unit: Unit, acts: seq<Act>)
    requires OnlyOverrides(acts) && unit.original == None && Overrides(unit, acts)
    requires unit.range == RangeFor(unit.totalHours, unit.uncertainty)
    ensures Reset(DoAll(unit, acts)).Ok?
    ensures var left, after := DoAll(unit, acts), Reset(DoAll(unit, acts)).value;
      && after.excluded == left.excluded && after.uncertainty == left.uncertainty && after.sources == left.sources
      && (after.range == unit.range
         <==> RangeFor(unit.totalHours, left.uncertainty) == RangeFor(unit.totalHours, unit.uncertainty))
  {
    OriginalKept(unit, acts);
  }

  predicate Lands(unit: Unit, act: Act) { Attempt(unit, act).Ok? }

  /** The last act of a run that went through, if any did. */
  function LastLanded(unit: Unit, acts: seq<Act>): Option<Act>
    decreases |acts|
  {
    if acts == [] then None
    else
      var later := LastLanded(Do(unit, acts[0]), acts[1..]);
      if later.Some? then later else if Lands(unit, acts[0]) then Some(acts[0]) else None
  }

  /** Over every run of overrides and resets, whatever is refused on the way: a line a
      person wrote still counts as theirs exactly when the last act that went through is
      not a reset; and a reset would go through next, and take it from them, exactly when
      the last one was an override, or there was none and the line came overridden. */
  lemma ManualLineStaysIff(unit: Unit, acts: seq<Act>)
    requires IsUserAuthored(unit.source)
    ensures IsUserAuthored(DoAll(unit, acts).source) <==> LastLanded(unit, acts) != Some(ResetIt)
    ensures Lands(DoAll(unit, acts), ResetIt)
       <==> match LastLanded(unit, acts) case None => unit.original.Some? case Some(act) => act.OverrideWith?
    ensures Lands(DoAll(unit, acts), ResetIt) ==> !IsUserAuthored(Do(DoAll(unit, acts), ResetIt).source)
  {
    OwnerIsLastLanded(unit, acts);
  }

  lemma {:induction false} OwnerIsLastLanded(unit: Unit, acts: seq<Act>)
    ensures IsUserAuthored(DoAll(unit, acts).source)
       <==> match LastLanded(unit, acts) case None => IsUserAuthored(unit.source) case Some(act) => act.OverrideWith?
    ensures DoAll(unit, acts).original.Some?
       <==> match LastLanded(unit, acts) case None => unit.original.Some? case Some(act) => act.OverrideWith?
    decreases |acts|
  {
    if acts != [] { OwnerIsLastLanded(Do(unit, acts[0]), acts[1..]); }
  }

  /** And that run exists for every hand-written line: any override that goes through,
      then a reset, gives the line its old figures and takes it from its author. */
  lemma OverrideAndResetTakesOver(unit: Unit, request: OverrideRequest)
    requires IsUserAuthored(unit.source) && unit.original == None && Override(unit, request).Ok?
    ensures var after := DoAll(unit, [OverrideWith(request), ResetIt]);
      !IsUserAuthored(after.source) && after.effort == unit.effort && after.totalHours == unit.totalHours
  {
    var acts := [OverrideWith(request), ResetIt];
    assert acts[1..] == [ResetIt] && [ResetIt][1..] == [];
    assert DoAll(Do(Do(unit, acts[0]), ResetIt), []) == DoAll(unit, acts);
  }
}
