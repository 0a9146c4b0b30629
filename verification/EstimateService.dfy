/** The estimation service as the program runs it: plans stored by version, changed by
    filtered deletes, conditional writes and copying loops. */
module EstimateService {
  import opened Wrappers
  import opened EstimateUnits
  import opened DependencyGraph
  import opened EstimateDependencies
  import opened EstimateVersions
  import opened EstimateSnapshots

  method KeepAuthored(units: seq<Unit>) returns (kept: seq<Unit>)
    ensures kept == Authored(units)
  {
    kept := [];
    for i := 0 to |units|
      invariant kept + Authored(units[i..]) == Authored(units)
    {
      assert units[i..][1..] == units[i + 1..];
      if IsUserAuthored(units[i].source) { kept := kept + [units[i]]; }
    }
    assert kept + Authored(units[|units|..]) == kept;
  }

  method KeepUserDefined(edges: seq<Edge>) returns (kept: seq<Edge>)
    ensures kept == UserEdges(edges)
  {
    kept := [];
    for i := 0 to |edges|
      invariant kept + UserEdges(edges[i..]) == UserEdges(edges)
    {
      assert edges[i..][1..] == edges[i + 1..];
      if edges[i].userDefined { kept := kept + [edges[i]]; }
    }
    assert kept + UserEdges(edges[|edges|..]) == kept;
  }

  method CopyEdges(edges: seq<Edge>, ids: map<string, string>) returns (copies: seq<Edge>)
    ensures copies == CarryEdges(edges, ids)
  {
    copies := [];
    for i := 0 to |edges|
      invariant copies + CarryEdges(edges[i..], ids) == CarryEdges(edges, ids)
    {
      assert edges[i..][1..] == edges[i + 1..];
      ghost var rest := CarryEdges(edges[i + 1..], ids);
      if edges[i].predecessor in ids && edges[i].successor in ids {
        assert copies + ([Image(edges[i], ids)] + rest) == (copies + [Image(edges[i], ids)]) + rest;
        copies := copies + [Image(edges[i], ids)];
      } else {
        assert [] + rest == rest;
      }
    }
    assert copies + CarryEdges(edges[|edges|..], ids) == copies;
  }

  class EstimationRepository {
    var snapshots: seq<Snapshot>
    var plans: map<nat, Plan>
    /** Some run record says it is running. */
    var running: bool
    /** The version a suspended re-estimation has in hand, which nothing stores. */
    ghost var asked: Option<nat>

    constructor ()
      ensures State() == EMPTY
    {
      snapshots, plans, running, asked := [], map[], false, None;
    }

    ghost function State(): Shelf
      reads this
    {
      Shelf(snapshots, plans, running, asked)
    }

    /** The highest version that is not superseded. */
    method CurrentSnapshot() returns (version: nat)
      ensures version == CurrentOf(snapshots)
    {
      version := |snapshots|;
      while version > 0 && snapshots[version - 1].status == Superseded
        invariant version <= |snapshots| && CurrentOf(snapshots[..version]) == CurrentOf(snapshots)
      {
        assert snapshots[..version][..version - 1] == snapshots[..version - 1];
        version := version - 1;
      }
    }

    /** The conditional write of a snapshot. */
    method UpdateSnapshot(version: nat, expected: nat, status: SnapshotStatus) returns (updated: bool)
      requires 1 <= version <= |snapshots|
      modifies this`snapshots
      ensures updated <==> old(snapshots)[version - 1].recordVersion == expected
      ensures snapshots == if updated then old(snapshots)[version - 1 := Snapshot(status, expected + 1)]
              else old(snapshots)
    {
      updated := snapshots[version - 1].recordVersion == expected;
      if updated { snapshots := snapshots[version - 1 := Snapshot(status, expected + 1)]; }
    }

    /** Every version so far is history. */
    method SupersedeSnapshots()
      modifies this`snapshots
      ensures snapshots == AllSuperseded(old(snapshots))
    {
      ghost var before := snapshots;
      for i := 0 to |snapshots|
        invariant |snapshots| == |before|
        invariant forall k :: 0 <= k < i ==> snapshots[k] == before[k].(status := Superseded)
        invariant forall k :: i <= k < |before| ==> snapshots[k] == before[k]
      {
        if snapshots[i].status != Superseded { snapshots := snapshots[i := snapshots[i].(status := Superseded)]; }
      }
    }

    /** A line by its id, in whatever version. */
    method FindUnitById(id: string) returns (version: nat)
      ensures version == Holder(plans, |snapshots|, id)
    {
      version := 0;
      for v := 1 to |snapshots| + 1
        invariant version == Holder(plans, v - 1, id)
      {
        if version == 0 && v in plans && id in Ids(plans[v].units) { version := v; }
      }
    }

    /** Only the application's own lines are in the filter. */
    method DeleteReplaceableUnits(version: nat)
      requires version in plans
      modifies this`plans
      ensures plans == old(plans)[version := old(plans)[version].(units := Authored(old(plans)[version].units))]
    {
      var kept := KeepAuthored(plans[version].units);
      plans := plans[version := plans[version].(units := kept)];
    }

    method DeleteReplaceableDependencies(version: nat)
      requires version in plans
      modifies this`plans
      ensures plans == old(plans)[version := old(plans)[version].(edges := UserEdges(old(plans)[version].edges))]
    {
      var kept := KeepUserDefined(plans[version].edges);
      plans := plans[version := plans[version].(edges := kept)];
    }

    method InsertUnits(version: nat, units: seq<Unit>)
      requires version in plans
      modifies this`plans
      ensures plans == old(plans)[version := old(plans)[version].(units := old(plans)[version].units + units)]
    {
      plans := plans[version := plans[version].(units := plans[version].units + units)];
    }

    /** Write one line if nobody has written it since it was read. */
    method UpdateUnit(version: nat, at: nat, expected: nat, changed: Unit) returns (updated: bool)
      requires version in plans && at < |plans[version].units|
      modifies this`plans
      ensures updated <==> old(plans)[version].units[at].recordVersion == expected
      ensures plans == if updated
        then old(plans)[version :=
          old(plans)[version].(units := old(plans)[version].units[at := changed.(recordVersion := expected + 1)])]
        else old(plans)
    {
      updated := plans[version].units[at].recordVersion == expected;
      if updated {
        plans := plans[version :=
            plans[version].(units := plans[version].units[at := changed.(recordVersion := expected + 1)])];
      }
    }

    /** Copy a version's lines into another under new ids, remembering which became which. */
    method CarryUnitsForward(from: nat, to: nat, newIds: seq<string>) returns (ids: map<string, string>)
      requires from in plans && to !in plans && |newIds| >= |plans[from].units|
      modifies this`plans
      ensures plans == old(plans)[to := Plan(CarryUnits(old(plans)[from].units, newIds), [])]
      ensures ids == IdMap(old(plans)[from].units, newIds)
    {
      var existing := plans[from].units;
      var copies: seq<Unit> := [];
      ids := map[];
      for i := 0 to |existing|
        invariant |copies| == i && forall k :: 0 <= k < i ==> copies[k] == CopyUnit(existing[k], newIds[k])
        invariant ids == IdMap(existing[..i], newIds)
      {
        assert existing[..i + 1][..i] == existing[..i];
        ids := ids[existing[i].id := newIds[i]];
        copies := copies + [CopyUnit(existing[i], newIds[i])];
      }
      assert existing[..|existing|] == existing;
      assert copies == CarryUnits(existing, newIds);
      plans := plans[to := Plan(copies, [])];
    }

    method CarryDependenciesForward(from: nat, to: nat, ids: map<string, string>)
      requires from in plans && to in plans && plans[to].edges == []
      modifies this`plans
      ensures plans == old(plans)[to := old(plans)[to].(edges := CarryEdges(old(plans)[from].edges, ids))]
    {
      var copies := CopyEdges(plans[from].edges, ids);
      plans := plans[to := plans[to].(edges := copies)];
    }
  }

  class EstimationService {
    const repository: EstimationRepository

    constructor (repository: EstimationRepository)
      ensures this.repository == repository
    {
      this.repository := repository;
    }

    /** The gate of every change: a current version, not approved, at the version named. */
    method Editable(expected: nat) returns (found: Result<nat, EstimateError>)
      ensures var v := CurrentOf(repository.snapshots);
        && (found.Ok? <==> v > 0 && repository.snapshots[v - 1].status != ApprovedEstimate
                           && repository.snapshots[v - 1].recordVersion == expected)
        && (found.Ok? ==> found.value == v)
        && (found.Refused? ==> Some(found.error) == EditRefusal(repository.snapshots, expected))
    {
      var version := repository.CurrentSnapshot();
      if version == 0 { return Refused(EstimateNotFound); }
      if repository.snapshots[version - 1].status == ApprovedEstimate { return Refused(Approved); }
      if repository.snapshots[version - 1].recordVersion != expected { return Refused(StaleVersion); }
      return Ok(version);
    }

    method Recalculate(version: nat, blocked: bool)
      requires version == CurrentOf(repository.snapshots) && version > 0
      modifies repository`snapshots
      ensures repository.snapshots == Recalculated(old(repository.snapshots), version, blocked)
    {
      var target := repository.snapshots[version - 1];
      var status := if target.status in {ApprovedEstimate, OutdatedEstimate, Superseded} then target.status
                    else if blocked then ReviewRequired else ReadyForApproval;
      var updated := repository.UpdateSnapshot(version, target.recordVersion, status);
    }

    method Current()
      requires Numbered(repository.State())
      modifies repository
      ensures repository.State() == Serve(old(repository.State()), Look).0
      ensures Numbered(repository.State()) && CurrentOf(repository.snapshots) > 0
    {
      NumberingStays(repository.State(), Look);
      var version := repository.CurrentSnapshot();
      if version == 0 {
        repository.plans := repository.plans[|repository.snapshots| + 1 := Plan([], [])];
        repository.snapshots := repository.snapshots + [Snapshot(DraftEstimate, 0)];
      }
    }

    /** An override or a reset of one line, found by its id. */
    method Act(expected: nat, id: string, act: EstimateUnits.Act, blocked: bool) returns (error: Option<EstimateError>)
      requires Numbered(repository.State())
      modifies repository
      ensures (repository.State(), error) == Serve(old(repository.State()), ActOn(expected, id, act, blocked))
    {
      var found := Editable(expected);
      if found.Refused? { return Some(found.error); }
      var holder := repository.FindUnitById(id);
      if holder == 0 { return Some(UnknownUnit); }
      error := ActInVersion(holder, id, act);
      if error.None? { Recalculate(found.value, blocked); }
    }

    method ActInVersion(version: nat, id: string, act: EstimateUnits.Act) returns (error: Option<EstimateError>)
      requires version in repository.plans && id in Ids(repository.plans[version].units)
      modifies repository`plans
      ensures var attempt := Attempt(LineOf(old(repository.plans)[version], id), act);
        && error == (if attempt.Refused? then Some(attempt.error) else None)
        && repository.plans == if attempt.Refused? then old(repository.plans)
             else old(repository.plans)[version := WithAct(old(repository.plans)[version], id, act)]
    {
      var units := repository.plans[version].units;
      FoundUnit(units, id);
      var at := FindUnit(units, id).value;
      var changed := Attempt(units[at], act);
      if changed.Refused? { return Some(changed.error); }
      LandedActCounts(units[at], act);
      var updated := repository.UpdateUnit(version, at, units[at].recordVersion, changed.value);
      return None;
    }

    /** The first half of a re-estimation: the version it is given is its caller's to keep
        while the model is asked. */
    method BeginEstimate(expected: nat, baselineApproved: bool, stackLocked: bool, modelMissing: bool)
      returns (begun: Result<nat, EstimateError>)
      requires Numbered(repository.State())
      modifies repository
      ensures (repository.State(), if begun.Refused? then Some(begun.error) else None)
           == Serve(old(repository.State()),
               Request.BeginEstimate(expected, baselineApproved, stackLocked, modelMissing))
      ensures begun.Ok? ==> repository.asked == Some(begun.value)
    {
      var found := Editable(expected);
      if found.Refused? { return Refused(found.error); }
      if repository.running { return Refused(AlreadyRunning); }
      if !baselineApproved { return Refused(BaselineNotApproved); }
      if !stackLocked { return Refused(StackNotLocked); }
      if modelMissing { return Refused(NotConfigured); }
      repository.running, repository.asked := true, Some(found.value);
      return Ok(found.value);
    }

    /** The second half: the version in hand is rewritten, whatever has become of it, and the
        current one recalculated. The record is closed only when nothing was refused. */
    method FinishEstimate(version: nat, e: Estimating, blocked: bool) returns (error: Option<EstimateError>)
      requires repository.asked == Some(version) && Supplied(repository.State(), Request.FinishEstimate(e, blocked))
      modifies repository
      ensures (repository.State(), error) == Serve(old(repository.State()), Request.FinishEstimate(e, blocked))
    {
      repository.asked := None;
      error := GenerateInto(version, e);
      if error.Some? { return; }
      var current := repository.CurrentSnapshot();
      if current > 0 { Recalculate(current, blocked); }
      repository.running := false;
    }

    /** No usable answer: the record is closed as failed, and nothing else is touched. */
    method FailEstimate(version: nat) returns (error: Option<EstimateError>)
      requires Numbered(repository.State()) && repository.asked == Some(version)
      modifies repository
      ensures (repository.State(), error) == Serve(old(repository.State()), ModelFailed)
    {
      repository.running, repository.asked := false, None;
      return Some(EstimationFailed);
    }

    method GenerateInto(version: nat, e: Estimating) returns (error: Option<EstimateError>)
      requires version in repository.plans && EnoughIds(repository.plans[version], e)
      modifies repository`plans
      ensures var (after, refusal) := EstimateVersions.Generate(old(repository.plans)[version], e);
        repository.plans == old(repository.plans)[version := after] && error == refusal
    {
      if !e.baselineApproved { return Some(BaselineNotApproved); }
      if !e.stackLocked { return Some(StackNotLocked); }
      var preserved := Authored(repository.plans[version].units);
      repository.DeleteReplaceableUnits(version);
      repository.DeleteReplaceableDependencies(version);
      var lines := NewLines(preserved, e);
      if |preserved| + |lines| > MAX_UNITS { return Some(LimitReached); }
      repository.InsertUnits(version, WithIds(lines, e.newIds));
      var inferred := GenerateDependencies(repository.plans[version]);
      repository.plans := repository.plans[version := inferred];
      return None;
    }

    method AddDependency(expected: nat, predecessor: string, successor: string, blocked: bool)
        returns (error: Option<EstimateError>)
      requires Numbered(repository.State())
      modifies repository
      ensures (repository.State(), error)
              == Serve(old(repository.State()), Link(expected, predecessor, successor, blocked))
    {
      var found := Editable(expected);
      if found.Refused? { return Some(found.error); }
      var after := EstimateDependencies.AddDependency(repository.plans[found.value], predecessor, successor);
      if after.Refused? { return Some(after.error); }
      repository.plans := repository.plans[found.value := after.value];
      Recalculate(found.value, blocked);
      return None;
    }

    method RemoveDependency(expected: nat, version: nat, position: nat, blocked: bool)
        returns (error: Option<EstimateError>)
      requires Numbered(repository.State())
      modifies repository
      ensures (repository.State(), error)
              == Serve(old(repository.State()), Unlink(expected, version, position, blocked))
    {
      var found := Editable(expected);
      if found.Refused? { return Some(found.error); }
      if version !in repository.plans || position >= |repository.plans[version].edges| {
        return Some(DependencyNotFound);
      }
      var plan := repository.plans[version];
      repository.plans :=
          repository.plans[version := plan.(edges := plan.edges[..position] + plan.edges[position + 1..])];
      Recalculate(found.value, blocked);
      return None;
    }

    method Approve(expected: nat, blocked: bool) returns (error: Option<EstimateError>)
      requires Numbered(repository.State())
      modifies repository
      ensures (repository.State(), error) == Serve(old(repository.State()), Request.Approve(expected, blocked))
    {
      var version := repository.CurrentSnapshot();
      if version == 0 { return Some(EstimateNotFound); }
      var snapshot := repository.snapshots[version - 1];
      if snapshot.recordVersion != expected { return Some(StaleVersion); }
      if snapshot.status == ApprovedEstimate { return Some(AlreadyApproved); }
      if !CanApprove(snapshot, repository.plans[version], blocked) { return Some(HasBlockers); }
      var updated := repository.UpdateSnapshot(version, snapshot.recordVersion, ApprovedEstimate);
      return None;
    }

    /** Reopen: a new version beside the old one, which is left as it was. */
    method Reopen(expected: nat, newIds: seq<string>) returns (error: Option<EstimateError>)
      requires Supplied(repository.State(), Request.Reopen(expected, newIds))
      modifies repository
      ensures (repository.State(), error) == Serve(old(repository.State()), Request.Reopen(expected, newIds))
      ensures error.None? ==> forall v :: v in old(repository.plans) ==>
                v in repository.plans && repository.plans[v] == old(repository.plans)[v]
    {
      var from := repository.CurrentSnapshot();
      if from == 0 { return Some(EstimateNotFound); }
      if repository.snapshots[from - 1].recordVersion != expected { return Some(StaleVersion); }
      if repository.snapshots[from - 1].status !in {ApprovedEstimate, OutdatedEstimate} { return Some(NotApproved); }
      var to := |repository.snapshots| + 1;
      var ids := repository.CarryUnitsForward(from, to, newIds);
      repository.CarryDependenciesForward(from, to, ids);
      assert repository.plans == old(repository.plans)[to := Reopened(old(repository.plans)[from], newIds)];
      repository.SupersedeSnapshots();
      repository.snapshots := repository.snapshots + [Snapshot(DraftEstimate, 0)];
      return None;
    }
  }
}
