/** The versions of a project's estimate, the calls that change them, and whether an
    approved one keeps saying what it said. */
module EstimateSnapshots {
  import opened Wrappers
  import opened EstimateUnits
  import opened DependencyGraph
  import opened EstimateDependencies
  import opened EstimateVersions

  datatype SnapshotStatus =
    | DraftEstimate | ReviewRequired | ReadyForApproval | ApprovedEstimate | OutdatedEstimate | Superseded
  datatype Snapshot = Snapshot(status: SnapshotStatus, recordVersion: nat)

  /** Versions are numbered from one and never removed; lines and dependencies are stored
      under the number of their version. `running` says whether some re-estimation is on
      record as running; `asked` is the version that one was given, while its model is
      being asked. */
  datatype Shelf = Shelf(snapshots: seq<Snapshot>, plans: map<nat, Plan>, running: bool, asked: Option<nat>)

  ghost predicate Numbered(shelf: Shelf) {
    && (forall v :: v in shelf.plans <==> 1 <= v <= |shelf.snapshots|)
    && (shelf.asked.Some? ==> shelf.running && shelf.asked.value in shelf.plans)
  }

  const EMPTY := Shelf([], map[], false, None)

  /** The newest version not superseded; zero if there is none. */
  function CurrentOf(snapshots: seq<Snapshot>): (v: nat)
    ensures v <= |snapshots|
    ensures v > 0 ==> snapshots[v - 1].status != Superseded
    ensures forall i :: v <= i < |snapshots| ==> snapshots[i].status == Superseded
  {
    if snapshots == [] then 0
    else if snapshots[|snapshots| - 1].status != Superseded then |snapshots|
    else CurrentOf(snapshots[..|snapshots| - 1])
  }

  /* ------------------------------------------------------------ finding a line */

  function FindUnit(units: seq<Unit>, id: string): Option<nat> {
    if units == [] then None
    else if units[0].id == id then Some(0)
    else match FindUnit(units[1..], id) case Some(i) => Some(i + 1) case None => None
  }

  lemma {:induction false} FoundUnit(units: seq<Unit>, id: string)
    ensures FindUnit(units, id).Some? ==>
            FindUnit(units, id).value < |units| && units[FindUnit(units, id).value].id == id
    ensures FindUnit(units, id).None? <==> id !in Ids(units)
  {
    IdAmong(units, id);
    if units != [] {
      FoundUnit(units[1..], id);
      IdAmong(units[1..], id);
      if i :| 0 <= i < |units| && units[i].id == id && i > 0 { assert units[1..][i - 1].id == id; }
      if i :| 0 <= i < |units[1..]| && units[1..][i].id == id { assert units[i + 1].id == id; }
    }
  }

  /** A plan with one act done to one of its lines. */
  function WithAct(plan: Plan, id: string, act: Act): Plan {
    FoundUnit(plan.units, id);
    match FindUnit(plan.units, id)
    case None => plan
    case Some(i) => plan.(units := plan.units[i := Do(plan.units[i], act)])
  }

  /** Lines are looked up by id alone: the version that holds one, whichever it is. */
  function Holder(plans: map<nat, Plan>, upTo: nat, id: string): (v: nat)
    ensures v <= upTo && (v > 0 ==> v in plans && id in Ids(plans[v].units))
    ensures v == 0 ==> forall w :: 1 <= w <= upTo && w in plans ==> id !in Ids(plans[w].units)
  {
    if upTo == 0 then 0
    else
      var earlier := Holder(plans, upTo - 1, id);
      if earlier != 0 then earlier
      else if upTo in plans && id in Ids(plans[upTo].units) then upTo else 0
  }

  function LineOf(plan: Plan, id: string): (unit: Unit)
    requires id in Ids(plan.units)
    ensures unit in plan.units && unit.id == id
  {
    FoundUnit(plan.units, id);
    plan.units[FindUnit(plan.units, id).value]
  }

  /* ------------------------------------------------------------------ the calls */

  /** `blocked` stands for the blockers computed from the whole plan after the change. */
  datatype Request =
    /** Looking at the estimate, which starts one where there is none. */
    | Look
    | ActOn(expected: nat, id: string, act: Act, blocked: bool)
    /** A re-estimation passes the gate and goes to ask its model. */
    | BeginEstimate(expected: nat, baselineApproved: bool, stackLocked: bool, modelMissing: bool)
    /** The model's answer, or the lack of a model, is turned into lines. */
    | FinishEstimate(e: Estimating, blocked: bool)
    /** No usable answer came. */
    | ModelFailed
    | Link(expected: nat, predecessor: string, successor: string, blocked: bool)
    /** The dependency of that id is the one at `position` of `version`. */
    | Unlink(expected: nat, version: nat, position: nat, blocked: bool)
    | Approve(expected: nat, blocked: bool)
    | Reopen(expected: nat, newIds: seq<string>)

  /** Why the current version may not be changed, if it may not. */
  function EditRefusal(snapshots: seq<Snapshot>, expected: nat): Option<EstimateError> {
    var v := CurrentOf(snapshots);
    if v == 0 then Some(EstimateNotFound)
    else if snapshots[v - 1].status == ApprovedEstimate then Some(Approved)
    else if snapshots[v - 1].recordVersion != expected then Some(StaleVersion)
    else None
  }

  /** The snapshot of a version after its plan was worked on. */
  function Recalculated(snapshots: seq<Snapshot>, v: nat, blocked: bool): seq<Snapshot>
    requires 1 <= v <= |snapshots|
  {
    var target := snapshots[v - 1];
    snapshots[v - 1 := Snapshot(
      if target.status in {ApprovedEstimate, OutdatedEstimate, Superseded} then target.status
      else if blocked then ReviewRequired else ReadyForApproval,
      target.recordVersion + 1)]
  }

  function AllSuperseded(snapshots: seq<Snapshot>): seq<Snapshot> {
    seq(|snapshots|, i requires 0 <= i < |snapshots| => snapshots[i].(status := Superseded))
  }

  predicate CanApprove(snapshot: Snapshot, plan: Plan, blocked: bool) {
    && snapshot.status in {DraftEstimate, ReviewRequired, ReadyForApproval} && !blocked
    && exists i :: 0 <= i < |plan.units| && !plan.units[i].excluded
  }

  /** New ids are always to be had, and a re-estimation ends only once it has begun. */
  ghost predicate Supplied(shelf: Shelf, request: Request) {
    && Numbered(shelf)
    && (request.FinishEstimate? || request.ModelFailed? ==> shelf.asked.Some?)
    && (request.FinishEstimate? ==>
          EnoughIds(shelf.plans[shelf.asked.value], request.e)
          && NewIdsAreNew(shelf.plans[shelf.asked.value], request.e))
    && (request.Reopen? && CurrentOf(shelf.snapshots) > 0 ==>
          |request.newIds| >= |shelf.plans[CurrentOf(shelf.snapshots)].units|)
  }

  ghost function Serve(shelf: Shelf, request: Request): (Shelf, Option<EstimateError>)
    requires Supplied(shelf, request)
  {
    var v := CurrentOf(shelf.snapshots);
    match request
    case Look =>
      if v > 0 then (shelf, None)
      else (shelf.(snapshots := shelf.snapshots + [Snapshot(DraftEstimate, 0)],
                   plans := shelf.plans[|shelf.snapshots| + 1 := Plan([], [])]), None)
    case BeginEstimate(expected, baselineApproved, stackLocked, modelMissing) =>
      var refusal := EditRefusal(shelf.snapshots, expected);
      if refusal.Some? then (shelf, refusal)
      else if shelf.running then (shelf, Some(AlreadyRunning))
      else if !baselineApproved then (shelf, Some(BaselineNotApproved))
      else if !stackLocked then (shelf, Some(StackNotLocked))
      else if modelMissing then (shelf, Some(NotConfigured))
      else (shelf.(running := true, asked := Some(v)), None)
    case FinishEstimate(e, blocked) => Finished(shelf, e, blocked)
    case ModelFailed => (shelf.(running := false, asked := None), Some(EstimationFailed))
    case Approve(expected, blocked) =>
      if v == 0 then (shelf, Some(EstimateNotFound))
      else if shelf.snapshots[v - 1].recordVersion != expected then (shelf, Some(StaleVersion))
      else if shelf.snapshots[v - 1].status == ApprovedEstimate then (shelf, Some(AlreadyApproved))
      else if !CanApprove(shelf.snapshots[v - 1], shelf.plans[v], blocked) then (shelf, Some(HasBlockers))
      else (shelf.(snapshots := shelf.snapshots[v - 1 := Snapshot(ApprovedEstimate, expected + 1)]), None)
    case Reopen(expected, newIds) =>
      if v == 0 then (shelf, Some(EstimateNotFound))
      else if shelf.snapshots[v - 1].recordVersion != expected then (shelf, Some(StaleVersion))
      else if shelf.snapshots[v - 1].status !in {ApprovedEstimate, OutdatedEstimate} then (shelf, Some(NotApproved))
      else (shelf.(snapshots := AllSuperseded(shelf.snapshots) + [Snapshot(DraftEstimate, 0)],
                   plans := shelf.plans[|shelf.snapshots| + 1 := Reopened(shelf.plans[v], newIds)]), None)
    case _ =>
      var refusal := EditRefusal(shelf.snapshots, request.expected);
      if refusal.Some? then (shelf, refusal)
      else
        var (plans, error) := Worked(shelf, v, request);
        (shelf.(snapshots := if error.Some? then shelf.snapshots else Recalculated(shelf.snapshots, v, request.blocked),
                plans := plans), error)
  }

  /** The second half of a re-estimation looks again at neither status nor record version:
      it rewrites the version it was given at the start. Only one that succeeds is recorded
      as ended. */
  ghost function Finished(shelf: Shelf, e: Estimating, blocked: bool): (Shelf, Option<EstimateError>)
    requires Supplied(shelf, FinishEstimate(e, blocked))
  {
    var v, w := CurrentOf(shelf.snapshots), shelf.asked.value;
    var (after, error) := Generate(shelf.plans[w], e);
    (Shelf(if error.Some? || v == 0 then shelf.snapshots else Recalculated(shelf.snapshots, v, blocked),
           shelf.plans[w := after], error.Some?, None), error)
  }

  predicate IsWork(request: Request) { request.ActOn? || request.Link? || request.Unlink? }

  /** What a permitted change does to the stored plans. */
  ghost function Worked(shelf: Shelf, v: nat, request: Request): (map<nat, Plan>, Option<EstimateError>)
    requires Numbered(shelf) && v in shelf.plans && IsWork(request)
  {
    var plans := shelf.plans;
    match request
    case ActOn(_, id, act, _) =>
      var h := Holder(plans, |shelf.snapshots|, id);
      if h == 0 then (plans, Some(UnknownUnit))
      else (match Attempt(LineOf(plans[h], id), act)
            case Refused(error) => (plans, Some(error))
            case Ok(_) => (plans[h := WithAct(plans[h], id, act)], None))
    case Link(_, predecessor, successor, _) =>
      var edge := Edge(predecessor, successor, true);
      var added := plans[v].(edges := plans[v].edges + [edge]);
      if !KnownTasks(plans[v], edge) then (plans, Some(UnknownTask))
      else if SelfReference(added.edges) || !Schedulable(added) then (plans, Some(DependencyCycle))
      else (plans[v := added], None)
    case Unlink(_, version, position, _) =>
      if version !in plans || position >= |plans[version].edges| then (plans, Some(DependencyNotFound))
      else (plans[version := plans[version].(
              edges := plans[version].edges[..position] + plans[version].edges[position + 1..])], None)
  }

  /** No call leaves a gap in the numbering. */
  lemma NumberingStays(shelf: Shelf, request: Request)
    requires Supplied(shelf, request)
    ensures Numbered(Serve(shelf, request).0)
  {
    var v, after := CurrentOf(shelf.snapshots), Serve(shelf, request).0;
    if v > 0 { assert v in shelf.plans; }
    assert after.plans.Keys == shelf.plans.Keys
           + if |after.snapshots| > |shelf.snapshots| then {|shelf.snapshots| + 1} else {};
  }

  /** A change that is served is counted on the current version, whichever version it
      reached into, and leaves that one due for review exactly if something blocks it. */
  lemma WorkIsCounted(shelf: Shelf, request: Request)
    requires Supplied(shelf, request) && IsWork(request) && Serve(shelf, request).1 == None
    ensures var v, before, after := CurrentOf(shelf.snapshots), shelf.snapshots, Serve(shelf, request).0.snapshots;
      && 1 <= v <= |before| == |after| && before[v - 1].recordVersion == request.expected
      && before[v - 1].status != ApprovedEstimate
      && (forall w :: 0 <= w < |before| && w != v - 1 ==> after[w] == before[w])
      && after[v - 1].recordVersion == before[v - 1].recordVersion + 1
      && (before[v - 1].status != OutdatedEstimate ==>
            after[v - 1].status == if request.blocked then ReviewRequired else ReadyForApproval)
      && (before[v - 1].status == OutdatedEstimate ==> after[v - 1].status == OutdatedEstimate)
  {
  }

  /* ------------------------------------- what happens to a version moved on from */

  /** The current version may be edited, and the call names by id a line of version `w` that
      allows the act, or a dependency of it. */
  ghost predicate ReachesInto(shelf: Shelf, request: Request, w: nat)
    requires w in shelf.plans
  {
    || (request.ActOn? && EditRefusal(shelf.snapshots, request.expected).None?
        && Holder(shelf.plans, |shelf.snapshots|, request.id) == w && w > 0
        && Lands(LineOf(shelf.plans[w], request.id), request.act))
    || (request.Unlink? && EditRefusal(shelf.snapshots, request.expected).None?
        && request.version == w && request.position < |shelf.plans[w].edges|)
  }

  /** A re-estimation that was given version `w` while it could be edited ends now, and finds
      something to delete or to add. */
  ghost predicate EndsIn(shelf: Shelf, request: Request, w: nat)
    requires w in shelf.plans
  {
    request.FinishEstimate? && shelf.asked == Some(w) && Rewrites(shelf.plans[w], request.e)
  }

  /** Exactly which calls change a version that is not the current one: those that reach
      into it by id, for nothing compares the version of the line with the one being edited;
      and the end of a re-estimation begun when it was current. */
  lemma PastPlanChangesIff(shelf: Shelf, request: Request, w: nat)
    requires Supplied(shelf, request) && w in shelf.plans && w != CurrentOf(shelf.snapshots)
    ensures w in Serve(shelf, request).0.plans
    ensures Serve(shelf, request).0.plans[w] != shelf.plans[w]
       <==> ReachesInto(shelf, request, w) || EndsIn(shelf, request, w)
  {
    var v := CurrentOf(shelf.snapshots);
    if request.ActOn? {
      var h := Holder(shelf.plans, |shelf.snapshots|, request.id);
      if h > 0 { ActChanges(shelf.plans[h], request.id, request.act); }
    }
    if request.FinishEstimate? { GenerateChangesIff(shelf.plans[shelf.asked.value], request.e); }
  }

  lemma ActChanges(plan: Plan, id: string, act: Act)
    requires id in Ids(plan.units)
    ensures WithAct(plan, id, act) != plan <==> Lands(LineOf(plan, id), act)
  {
    FoundUnit(plan.units, id);
    var at := FindUnit(plan.units, id).value;
    LandedActCounts(plan.units[at], act);
    assert WithAct(plan, id, act).units[at] == Do(plan.units[at], act);
    if !Lands(plan.units[at], act) { assert plan.units[at := plan.units[at]] == plan.units; }
  }

  lemma LandedActCounts(unit: Unit, act: Act)
    ensures Do(unit, act).recordVersion == unit.recordVersion + if Lands(unit, act) then 1 else 0
    ensures !Lands(unit, act) ==> Do(unit, act) == unit
  {
  }

  /** Approved, or approved once and reopened since. */
  ghost predicate Settled(shelf: Shelf, w: nat) {
    && Numbered(shelf) && 1 <= w <= |shelf.snapshots|
    && shelf.snapshots[w - 1].status in {ApprovedEstimate, Superseded}
  }

  lemma StatusStays(shelf: Shelf, request: Request, w: nat)
    requires Supplied(shelf, request) && Settled(shelf, w)
    ensures var after := Serve(shelf, request).0;
      && w <= |after.snapshots| && after.snapshots[w - 1].status in {ApprovedEstimate, Superseded}
      && (after.asked == Some(w) ==> shelf.asked == Some(w))
  {
    if CurrentOf(shelf.snapshots) > 0 { assert CurrentOf(shelf.snapshots) in shelf.plans; }
  }

  /** What is settled stays settled, no re-estimation is given it any more, and exactly those
      calls change it. */
  lemma SettledStays(shelf: Shelf, request: Request, w: nat)
    requires Supplied(shelf, request) && Settled(shelf, w)
    ensures Settled(Serve(shelf, request).0, w)
    ensures Serve(shelf, request).0.asked == Some(w) ==> shelf.asked == Some(w)
    ensures Serve(shelf, request).0.plans[w] != shelf.plans[w]
       <==> ReachesInto(shelf, request, w) || EndsIn(shelf, request, w)
  {
    NumberingStays(shelf, request);
    StatusStays(shelf, request, w);
    if w != CurrentOf(shelf.snapshots) {
      PastPlanChangesIff(shelf, request, w);
    } else if request.FinishEstimate? {
      GenerateChangesIff(shelf.plans[shelf.asked.value], request.e);
    }
  }

  ghost predicate SuppliedAll(shelf: Shelf, requests: seq<Request>)
    decreases |requests|
  {
    requests != [] ==> Supplied(shelf, requests[0]) && SuppliedAll(Serve(shelf, requests[0]).0, requests[1..])
  }

  ghost function ServeAll(shelf: Shelf, requests: seq<Request>): Shelf
    requires SuppliedAll(shelf, requests)
    decreases |requests|
  {
    if requests == [] then shelf else ServeAll(Serve(shelf, requests[0]).0, requests[1..])
  }

  /** No call of the run reaches into this version. */
  ghost predicate LeftAlone(shelf: Shelf, requests: seq<Request>, w: nat)
    requires SuppliedAll(shelf, requests)
    decreases |requests|
  {
    requests != [] ==>
      && !(w in shelf.plans && ReachesInto(shelf, requests[0], w))
      && LeftAlone(Serve(shelf, requests[0]).0, requests[1..], w)
  }

  /** An approved version that no re-estimation is still to end in keeps saying what it said,
      over any run of overrides, estimates, links, approvals and reopenings in which no later
      edit reaches back into it. */
  lemma {:induction false} ApprovedPlanStands(shelf: Shelf, requests: seq<Request>, w: nat)
    requires SuppliedAll(shelf, requests) && Settled(shelf, w)
    requires LeftAlone(shelf, requests, w) && shelf.asked != Some(w)
    ensures var after := ServeAll(shelf, requests);
      Settled(after, w) && after.plans[w] == shelf.plans[w] && after.asked != Some(w)
    decreases |requests|
  {
    if requests != [] {
      SettledStays(shelf, requests[0], w);
      ApprovedPlanStands(Serve(shelf, requests[0]).0, requests[1..], w);
    }
  }

  /* ------------------------------------ approved while a re-estimation was asking */

  /** The version that is current may be given to a re-estimation, and then approved. */
  ghost predicate CanBegin(shelf: Shelf, expected: nat) {
    && Numbered(shelf) && !shelf.running && EditRefusal(shelf.snapshots, expected).None?
    && CanApprove(shelf.snapshots[CurrentOf(shelf.snapshots) - 1], shelf.plans[CurrentOf(shelf.snapshots)], false)
  }

  function BeginOn(expected: nat): Request { BeginEstimate(expected, true, true, false) }

  lemma ServedOne(shelf: Shelf, request: Request)
    requires Supplied(shelf, request)
    ensures SuppliedAll(shelf, [request]) && ServeAll(shelf, [request]) == Serve(shelf, request).0
  {
    assert [request][1..] == [];
  }

  lemma BegunThenApproved(shelf: Shelf, expected: nat)
    requires CanBegin(shelf, expected)
    ensures var v, requests := CurrentOf(shelf.snapshots), [BeginOn(expected), Approve(expected, false)];
      && SuppliedAll(shelf, requests)
      && ServeAll(shelf, requests) == Shelf(
           shelf.snapshots[v - 1 := Snapshot(ApprovedEstimate, expected + 1)], shelf.plans, true, Some(v))
  {
    var requests := [BeginOn(expected), Approve(expected, false)];
    var begun := Serve(shelf, requests[0]).0;
    assert begun == shelf.(running := true, asked := Some(CurrentOf(shelf.snapshots)));
    assert requests[1..] == [requests[1]];
    ServedOne(begun, requests[1]);
  }

  /** Approved between the two halves of a re-estimation, the approved version is changed by
      the second exactly when that finds something to delete or to add: no call names any of
      its lines or dependencies. A refusal for size has deleted lines all the same. */
  lemma ApprovedWhileAsking(shelf: Shelf, expected: nat, e: Estimating, blocked: bool)
    requires CanBegin(shelf, expected)
    requires var plan := shelf.plans[CurrentOf(shelf.snapshots)]; EnoughIds(plan, e) && NewIdsAreNew(plan, e)
    ensures var v, requests := CurrentOf(shelf.snapshots), [BeginOn(expected), Approve(expected, false)];
      && SuppliedAll(shelf, requests)
      && var approved := ServeAll(shelf, requests);
      && Settled(approved, v) && approved.snapshots[v - 1].status == ApprovedEstimate && approved.plans == shelf.plans
      && Supplied(approved, FinishEstimate(e, blocked)) && !ReachesInto(approved, FinishEstimate(e, blocked), v)
      && var (after, error) := Serve(approved, FinishEstimate(e, blocked));
      && Settled(after, v) && error == Generate(shelf.plans[v], e).1
      && (after.plans[v] != shelf.plans[v] <==> Rewrites(shelf.plans[v], e))
  {
    BegunThenApproved(shelf, expected);
    var v, approved := CurrentOf(shelf.snapshots), ServeAll(shelf, [BeginOn(expected), Approve(expected, false)]);
    SettledStays(approved, FinishEstimate(e, blocked), v);
  }

  /** A re-estimation refused at its end, because its baseline or its stack was withdrawn or
      there are too many lines, is never recorded as ended. So none can begin after it: not
      at once, and not over any run of calls. After every other end one can. */
  lemma RefusedEndBlocksAll(shelf: Shelf, e: Estimating, blocked: bool, requests: seq<Request>, next: Request)
    requires Supplied(shelf, FinishEstimate(e, blocked)) && next.BeginEstimate?
    requires SuppliedAll(Serve(shelf, FinishEstimate(e, blocked)).0, requests)
    ensures var ended, refused := Serve(shelf, FinishEstimate(e, blocked)).0,
                !e.baselineApproved || !e.stackLocked || TooMany(shelf.plans[shelf.asked.value], e);
      && Numbered(ended)
      && (Serve(ended, next).1 == Some(AlreadyRunning)
         <==> refused && EditRefusal(ended.snapshots, next.expected).None?)
      && (refused ==>
            var after := ServeAll(ended, requests);
            Numbered(after) && Serve(after, next).1.Some? && Serve(after, next).0 == after)
  {
    NumberingStays(shelf, FinishEstimate(e, blocked));
    var ended := Serve(shelf, FinishEstimate(e, blocked)).0;
    if ended.running { NoneBeginsAgain(ended, requests); }
  }

  lemma {:induction false} NoneBeginsAgain(shelf: Shelf, requests: seq<Request>)
    requires SuppliedAll(shelf, requests) && Numbered(shelf) && shelf.running && shelf.asked.None?
    ensures var after := ServeAll(shelf, requests); Numbered(after) && after.running && after.asked.None?
    decreases |requests|
  {
    if requests != [] {
      NumberingStays(shelf, requests[0]);
      NoneBeginsAgain(Serve(shelf, requests[0]).0, requests[1..]);
    }
  }

  /* ------------------------------------------------------ what a person authored stays */

  /** The line of that id in version `w` is a person's. */
  ghost predicate TheirLine(shelf: Shelf, w: nat, id: string) {
    w in shelf.plans && id in Ids(shelf.plans[w].units) && IsUserAuthored(LineOf(shelf.plans[w], id).source)
  }

  /** The call acts on that line, and may. */
  ghost predicate ActsOnLine(shelf: Shelf, request: Request, w: nat, id: string)
    requires w in shelf.plans && id in Ids(shelf.plans[w].units)
  {
    && request.ActOn? && request.id == id && EditRefusal(shelf.snapshots, request.expected).None?
    && Holder(shelf.plans, |shelf.snapshots|, id) == w && Lands(LineOf(shelf.plans[w], id), request.act)
  }

  /** In any version, approved or not, whatever the call: a person's line changes only when
      it is acted on, and stays theirs exactly when that is not a reset. In particular both
      halves of a re-estimation leave it alone, an override made between them too. */
  lemma TheirLineStaysIff(shelf: Shelf, request: Request, w: nat, id: string)
    requires Supplied(shelf, request) && TheirLine(shelf, w, id)
    ensures var after := Serve(shelf, request).0;
      && (TheirLine(after, w, id) <==> !(ActsOnLine(shelf, request, w, id) && request.act.ResetIt?))
      && w in after.plans && id in Ids(after.plans[w].units)
      && (LineOf(after.plans[w], id) != LineOf(shelf.plans[w], id) <==> ActsOnLine(shelf, request, w, id))
  {
    UnitsAfter(shelf, request, w);
    if request.ActOn? {
      if Holder(shelf.plans, |shelf.snapshots|, request.id) == w {
        ActOnOneLine(shelf.plans[w], request.id, request.act, id);
      }
    } else if request.FinishEstimate? && shelf.asked == Some(w) {
      GenerateFinds(shelf.plans[w], request.e, id);
    }
  }

  lemma UnitsAfter(shelf: Shelf, request: Request, w: nat)
    requires Supplied(shelf, request) && w in shelf.plans
    ensures var plan := shelf.plans[w];
      && w in Serve(shelf, request).0.plans
      && Serve(shelf, request).0.plans[w].units ==
           if request.FinishEstimate? && shelf.asked == Some(w) then Generate(plan, request.e).0.units
           else if request.ActOn? && Holder(shelf.plans, |shelf.snapshots|, request.id) == w
                   && ActsOnLine(shelf, request, w, request.id)
             then WithAct(plan, request.id, request.act).units
           else plan.units
  {
    if CurrentOf(shelf.snapshots) > 0 { assert CurrentOf(shelf.snapshots) in shelf.plans; }
  }

  lemma {:induction false} SameIdsFindAlike(a: seq<Unit>, b: seq<Unit>, id: string)
    requires |a| == |b| && forall i :: 0 <= i < |a| ==> a[i].id == b[i].id
    ensures FindUnit(a, id) == FindUnit(b, id)
  {
    if a != [] { SameIdsFindAlike(a[1..], b[1..], id); }
  }

  lemma ActOnOneLine(plan: Plan, acted: string, act: Act, id: string)
    requires acted in Ids(plan.units) && id in Ids(plan.units)
    ensures id in Ids(WithAct(plan, acted, act).units)
    ensures LineOf(WithAct(plan, acted, act), id) == if acted == id then Do(LineOf(plan, id), act) else LineOf(plan, id)
    ensures Do(LineOf(plan, id), act) != LineOf(plan, id) <==> Lands(LineOf(plan, id), act)
  {
    var after := WithAct(plan, acted, act).units;
    FoundUnit(plan.units, acted);
    FoundUnit(plan.units, id);
    assert Do(plan.units[FindUnit(plan.units, acted).value], act).id == acted;
    SameIdsFindAlike(plan.units, after, id);
    FoundUnit(after, id);
    LandedActCounts(LineOf(plan, id), act);
  }

  /** Served, an override leaves its line as the person asked, whichever version holds it,
      and every other line of every version as it was. */
  lemma OverrideIsServed(shelf: Shelf, request: Request, w: nat, id: string)
    requires Supplied(shelf, request) && request.ActOn? && request.act.OverrideWith?
    requires w in shelf.plans && id in Ids(shelf.plans[w].units) && Serve(shelf, request).1 == None
    ensures var after := Serve(shelf, request).0;
      && w in after.plans && id in Ids(after.plans[w].units)
      && if request.id == id && Holder(shelf.plans, |shelf.snapshots|, id) == w
         then Overridden(LineOf(shelf.plans[w], id), request.act.request, LineOf(after.plans[w], id))
         else LineOf(after.plans[w], id) == LineOf(shelf.plans[w], id)
  {
    UnitsAfter(shelf, request, w);
    if Holder(shelf.plans, |shelf.snapshots|, request.id) == w {
      OverrideSets(LineOf(shelf.plans[w], request.id), request.act.request);
      ActOnOneLine(shelf.plans[w], request.id, request.act, id);
    }
  }

  lemma {:induction false} FoundAmongAuthored(units: seq<Unit>, more: seq<Unit>, id: string)
    requires FindUnit(units, id).Some?
    requires FindUnit(units, id).value < |units| && IsUserAuthored(units[FindUnit(units, id).value].source)
    ensures var all := Authored(units) + more;
      && FindUnit(all, id).Some? && FindUnit(all, id).value < |all|
      && all[FindUnit(all, id).value] == units[FindUnit(units, id).value]
  {
    var all := Authored(units) + more;
    if units[0].id == id {
      assert all[0] == units[0];
    } else {
      FoundAmongAuthored(units[1..], more, id);
      var rest := Authored(units[1..]) + more;
      if IsUserAuthored(units[0].source) {
        assert all == [units[0]] + rest && all[1..] == rest;
      } else {
        assert all == rest;
      }
    }
  }

  lemma GenerateFinds(plan: Plan, e: Estimating, id: string)
    requires EnoughIds(plan, e) && id in Ids(plan.units) && IsUserAuthored(LineOf(plan, id).source)
    ensures var after := Generate(plan, e).0; id in Ids(after.units) && LineOf(after, id) == LineOf(plan, id)
  {
    var after := Generate(plan, e).0;
    FoundUnit(plan.units, id);
    FoundUnit(after.units, id);
    FoundAmongAuthored(plan.units, [], id);
    FoundAmongAuthored(plan.units, WithIds(NewLines(Authored(plan.units), e), e.newIds), id);
    assert Authored(plan.units) + [] == Authored(plan.units);
  }

  /** No call of the run resets that line. */
  ghost predicate NeverReset(shelf: Shelf, requests: seq<Request>, w: nat, id: string)
    requires SuppliedAll(shelf, requests)
    decreases |requests|
  {
    requests != [] ==>
      && !(TheirLine(shelf, w, id) && ActsOnLine(shelf, requests[0], w, id) && requests[0].act.ResetIt?)
      && NeverReset(Serve(shelf, requests[0]).0, requests[1..], w, id)
  }

  /** What a person put into an estimate survives everything but a reset: over every run of
      calls, however many re-estimations begin and end in it. */
  lemma {:induction false} AuthoredLineStands(shelf: Shelf, requests: seq<Request>, w: nat, id: string)
    requires SuppliedAll(shelf, requests) && TheirLine(shelf, w, id) && NeverReset(shelf, requests, w, id)
    ensures TheirLine(ServeAll(shelf, requests), w, id)
    decreases |requests|
  {
    if requests != [] {
      TheirLineStaysIff(shelf, requests[0], w, id);
      AuthoredLineStands(Serve(shelf, requests[0]).0, requests[1..], w, id);
    }
  }

  /* ------------------------------------------------------- reopened and reached into */

  /** Reopen an approved estimate, then override or reset, by its old id, any line that
      allows it. The change goes into the approved version, and the new one stays as it was
      copied. */
  lemma ReopenedPlanCanChange(shelf: Shelf, newIds: seq<string>, id: string, act: Act, blocked: bool)
    requires ApprovedOnTop(shelf) && Supplied(shelf, ReopenTop(shelf, newIds))
    requires Holder(shelf.plans, |shelf.snapshots|, id) == |shelf.snapshots|
             && Lands(LineOf(shelf.plans[|shelf.snapshots|], id), act)
    ensures var v, reopened := |shelf.snapshots|, Serve(shelf, ReopenTop(shelf, newIds)).0;
      && Supplied(reopened, ActOn(0, id, act, blocked))
      && var (after, error) := Serve(reopened, ActOn(0, id, act, blocked));
      && error == None && Settled(after, v) && after.plans[v] != shelf.plans[v]
      && v + 1 in reopened.plans && v + 1 in after.plans && after.plans[v + 1] == reopened.plans[v + 1]
  {
    var v, reopened := |shelf.snapshots|, Serve(shelf, ReopenTop(shelf, newIds)).0;
    Reopening(shelf, newIds);
    HolderOfMore(shelf.plans, reopened.plans, v, id);
    SettledStays(reopened, ActOn(0, id, act, blocked), v);
  }

  ghost predicate ApprovedOnTop(shelf: Shelf) {
    && Numbered(shelf) && |shelf.snapshots| > 0 && shelf.snapshots[|shelf.snapshots| - 1].status == ApprovedEstimate
  }

  function ReopenTop(shelf: Shelf, newIds: seq<string>): Request
    requires |shelf.snapshots| > 0
  {
    Reopen(shelf.snapshots[|shelf.snapshots| - 1].recordVersion, newIds)
  }

  lemma Reopening(shelf: Shelf, newIds: seq<string>)
    requires ApprovedOnTop(shelf) && Supplied(shelf, ReopenTop(shelf, newIds))
    ensures var v, (after, error) := |shelf.snapshots|, Serve(shelf, ReopenTop(shelf, newIds));
      && error == None && Numbered(after) && CurrentOf(after.snapshots) == v + 1 == |after.snapshots|
      && after.snapshots[v] == Snapshot(DraftEstimate, 0) && Settled(after, v)
      && forall w :: w <= v ==>
         (w in shelf.plans <==> w in after.plans) && (w in shelf.plans ==> after.plans[w] == shelf.plans[w])
  {
    assert CurrentOf(shelf.snapshots) == |shelf.snapshots|;
  }

  lemma {:induction false} HolderOfMore(few: map<nat, Plan>, many: map<nat, Plan>, upTo: nat, id: string)
    requires forall w :: w <= upTo ==> (w in few <==> w in many) && (w in few ==> many[w] == few[w])
    ensures Holder(few, upTo, id) == Holder(many, upTo, id)
  {
    if upTo > 0 { HolderOfMore(few, many, upTo - 1, id); }
  }

  /* --------------------------------------------------------- from the empty project */

  /** An estimate of a baseline of one requirement, by an engine without overheads. */
  function OneLine(newId: string): Estimating {
    var priced := Unit("", [], None, Wording("", "", "", ""), Low, [], [], 0.0, Range(0.0, 0.0, 0.0),
                       SystemCalculated, None, false, 0);
    Estimating([Item("requirement", true)], _ => priced, _ => [], SystemCalculated, [newId], true, true)
  }

  /** The estimate is looked at, estimated, and ready to be approved. */
  const TO_READY := [Look, BeginOn(0), FinishEstimate(OneLine("line"), false)]

  ghost predicate OneLineReady(ready: Shelf) {
    && Numbered(ready) && !ready.running && ready.asked == None && ready.snapshots == [Snapshot(ReadyForApproval, 1)]
    && |ready.plans[1].units| == 1 && ready.plans[1].units[0].id == "line"
    && ready.plans[1].units[0].source == SystemCalculated && !ready.plans[1].units[0].excluded
  }

  lemma ReadyShelf()
    ensures SuppliedAll(EMPTY, TO_READY)
    ensures OneLineReady(ServeAll(EMPTY, TO_READY))
  {
    var e := OneLine("line");
    var looked := Serve(EMPTY, Look).0;
    var begun := Serve(looked, BeginOn(0)).0;
    OneLineAlone(Plan([], []), "line");
    assert begun == Shelf([Snapshot(DraftEstimate, 0)], map[1 := Plan([], [])], true, Some(1));
    var ready := Serve(begun, FinishEstimate(e, false)).0;
    ServedOne(begun, FinishEstimate(e, false));
    assert TO_READY[1..] == [BeginOn(0), FinishEstimate(e, false)] && TO_READY[1..][1..] == [FinishEstimate(e, false)];
    assert SuppliedAll(looked, TO_READY[1..]) && ServeAll(looked, TO_READY[1..]) == ready;
  }

  lemma OneLineAlone(plan: Plan, newId: string)
    requires Authored(plan.units) == []
    ensures var e := OneLine(newId);
      && |NewLines(Authored(plan.units), e)| == 1 && EnoughIds(plan, e)
      && var (after, error) := Generate(plan, e);
      && error == None && |after.units| == 1 && after.units[0].id == newId
      && after.units[0].source == SystemCalculated && !after.units[0].excluded
  {
    var e := OneLine(newId);
    assert e.items[..|e.items| - 1] == [];
    assert Drafts([], [], e.price, e.source) == [];
    assert Drafts(e.items, [], e.price, e.source) == [DraftFor(e.items[0], e.price, e.source)];
  }

  ghost predicate ApprovedThenChanged(before: Shelf, after: Shelf, w: nat) {
    && Settled(before, w) && before.snapshots[w - 1].status == ApprovedEstimate
    && Settled(after, w) && w in before.plans && w in after.plans && after.plans[w] != before.plans[w]
  }

  lemma {:induction false} ServedInTurn(shelf: Shelf, first: seq<Request>, next: seq<Request>)
    requires SuppliedAll(shelf, first) && SuppliedAll(ServeAll(shelf, first), next)
    ensures SuppliedAll(shelf, first + next) && ServeAll(shelf, first + next) == ServeAll(ServeAll(shelf, first), next)
    decreases |first|
  {
    if first == [] {
      assert first + next == next;
    } else {
      var whole, served := first + next, Serve(shelf, first[0]).0;
      assert whole[0] == first[0] && whole[1..] == first[1..] + next;
      ServedInTurn(served, first[1..], next);
      assert SuppliedAll(shelf, whole) && ServeAll(shelf, whole) == ServeAll(served, whole[1..]);
    }
  }

  lemma ReachedThroughReady(first: seq<Request>, next: seq<Request>)
    requires SuppliedAll(EMPTY, TO_READY) && SuppliedAll(ServeAll(EMPTY, TO_READY), first)
    requires SuppliedAll(ServeAll(ServeAll(EMPTY, TO_READY), first), next)
    requires var before := ServeAll(ServeAll(EMPTY, TO_READY), first);
      ApprovedThenChanged(before, ServeAll(before, next), 1)
    ensures exists before: seq<Request> ::
      && SuppliedAll(EMPTY, before) && SuppliedAll(EMPTY, before + next)
      && ApprovedThenChanged(ServeAll(EMPTY, before), ServeAll(EMPTY, before + next), 1)
  {
    ServedInTurn(EMPTY, TO_READY, first);
    ServedInTurn(EMPTY, TO_READY + first, next);
  }

  /** Both happen in runs from the empty project. An approved estimate changes when a
      re-estimation begun before its approval ends after it. */
  lemma ApprovedPlanCanChange()
    ensures exists before: seq<Request> :: var last := [FinishEstimate(OneLine("another"), false)];
      && SuppliedAll(EMPTY, before) && SuppliedAll(EMPTY, before + last)
      && ApprovedThenChanged(ServeAll(EMPTY, before), ServeAll(EMPTY, before + last), 1)
  {
    ReadyShelf();
    var ready := ServeAll(EMPTY, TO_READY);
    AskedAndApproved(ready);
    ReachedThroughReady([BeginOn(1), Approve(1, false)], [FinishEstimate(OneLine("another"), false)]);
  }

  lemma AskedAndApproved(ready: Shelf)
    requires OneLineReady(ready)
    ensures var first, last := [BeginOn(1), Approve(1, false)], [FinishEstimate(OneLine("another"), false)];
      && SuppliedAll(ready, first) && SuppliedAll(ServeAll(ready, first), last)
      && ApprovedThenChanged(ServeAll(ready, first), ServeAll(ServeAll(ready, first), last), 1)
  {
    var plan := ready.plans[1];
    NoneAuthored(plan.units);
    OneLineAlone(plan, "another");
    IdAmong(plan.units, "another");
    assert HasApplicationLine(plan.units);
    assert CanApprove(ready.snapshots[0], plan, false);
    ApprovedWhileAsking(ready, 1, OneLine("another"), false);
    ServedOne(ServeAll(ready, [BeginOn(1), Approve(1, false)]), FinishEstimate(OneLine("another"), false));
  }

  /** And it changes when it is reopened and a line is overridden by its old id. */
  lemma ReopenedPlanChangesToo(act: Act, blocked: bool)
    requires act.OverrideWith? && act.request.effort == None
    ensures exists before: seq<Request> :: var last := [Reopen(2, ["copy"]), ActOn(0, "line", act, blocked)];
      && SuppliedAll(EMPTY, before) && SuppliedAll(EMPTY, before + last)
      && ApprovedThenChanged(ServeAll(EMPTY, before), ServeAll(EMPTY, before + last), 1)
  {
    ReadyShelf();
    var ready := ServeAll(EMPTY, TO_READY);
    ApprovedAndReopened(ready, act, blocked);
    ReachedThroughReady([Approve(1, false)], [Reopen(2, ["copy"]), ActOn(0, "line", act, blocked)]);
  }

  lemma ApprovedAndReopened(ready: Shelf, act: Act, blocked: bool)
    requires OneLineReady(ready) && act.OverrideWith? && act.request.effort == None
    ensures var first, last := [Approve(1, false)], [Reopen(2, ["copy"]), ActOn(0, "line", act, blocked)];
      && SuppliedAll(ready, first) && SuppliedAll(ServeAll(ready, first), last)
      && ApprovedThenChanged(ServeAll(ready, first), ServeAll(ServeAll(ready, first), last), 1)
  {
    var plan, last := ready.plans[1], [Reopen(2, ["copy"]), ActOn(0, "line", act, blocked)];
    assert CanApprove(ready.snapshots[0], plan, false);
    ServedOne(ready, Approve(1, false));
    var approved := Serve(ready, Approve(1, false)).0;
    IdAmong(plan.units, "line");
    assert Holder(approved.plans, 0, "line") == 0;
    FoundUnit(plan.units, "line");
    ReopenedPlanCanChange(approved, ["copy"], "line", act, blocked);
    var reopened := Serve(approved, last[0]).0;
    ServedOne(reopened, last[1]);
    assert last[1..] == [last[1]];
  }
}
