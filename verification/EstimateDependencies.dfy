/** The dependencies of a plan: those the application infers, those people add, and
    whether they can ever loop. */
module EstimateDependencies {
  import opened Wrappers
  import opened EstimateUnits
  import opened DependencyGraph

  datatype Plan = Plan(units: seq<Unit>, edges: seq<Edge>)

  function LiveIds(units: seq<Unit>): seq<string> {
    if units == [] then [] else (if units[0].excluded then [] else [units[0].id]) + LiveIds(units[1..])
  }

  function Ids(units: seq<Unit>): seq<string> {
    seq(|units|, i requires 0 <= i < |units| => units[i].id)
  }

  function Live(plan: Plan): set<string> { NodeSet(LiveIds(plan.units)) }

  /** The plan can be scheduled: nothing in it waits for itself. */
  ghost predicate Schedulable(plan: Plan) { Acyclic(plan.edges, Live(plan)) }

  ghost predicate DistinctIds(units: seq<Unit>) {
    forall i, j :: 0 <= i < j < |units| ==> units[i].id != units[j].id
  }

  lemma {:induction false} LiveIdsAre(units: seq<Unit>, id: string)
    ensures id in LiveIds(units) <==> exists i :: 0 <= i < |units| && units[i].id == id && !units[i].excluded
  {
    if units != [] {
      LiveIdsAre(units[1..], id);
      if exists i :: 0 <= i < |units[1..]| && units[1..][i].id == id && !units[1..][i].excluded {
        var i :| 0 <= i < |units[1..]| && units[1..][i].id == id && !units[1..][i].excluded;
        assert units[i + 1].id == id && !units[i + 1].excluded;
      }
      if exists i :: 1 <= i < |units| && units[i].id == id && !units[i].excluded {
        var i :| 1 <= i < |units| && units[i].id == id && !units[i].excluded;
        assert units[1..][i - 1].id == id && !units[1..][i - 1].excluded;
      }
    }
  }

  /* --------------------------------------------------------- what people add */

  predicate KnownTasks(plan: Plan, edge: Edge) {
    edge.predecessor in Ids(plan.units) && edge.successor in Ids(plan.units)
  }

  /** A dependency is checked before it is written: a plan that would loop is refused. */
  method AddDependency(plan: Plan, predecessor: string, successor: string) returns (after: Result<Plan, EstimateError>)
    ensures var edge := Edge(predecessor, successor, true); var added := plan.(edges := plan.edges + [edge]);
      after == if !KnownTasks(plan, edge) then Refused(UnknownTask)
               else if SelfReference(added.edges) || !Schedulable(added) then Refused(DependencyCycle)
               else Ok(added)
  {
    var edge := Edge(predecessor, successor, true);
    if !KnownTasks(plan, edge) { return Refused(UnknownTask); }
    var edges := plan.edges + [edge];
    var cycles := DetectCycles(edges, LiveIds(plan.units));
    if |cycles| > 0 || SelfReference(edges) { return Refused(DependencyCycle); }
    return Ok(plan.(edges := edges));
  }

  predicate SelfReference(edges: seq<Edge>) {
    exists i :: 0 <= i < |edges| && edges[i].predecessor == edges[i].successor
  }

  /* --------------------------------------------------- what the application adds */

  function FindActivity(units: seq<Unit>, activity: Activity): Option<string> {
    if units == [] then None
    else if units[0].activity == Some(activity) then Some(units[0].id)
    else FindActivity(units[1..], activity)
  }

  function Features(units: seq<Unit>): seq<string> {
    if units == [] then [] else (if units[0].activity.None? then [units[0].id] else []) + Features(units[1..])
  }

  predicate Known(edges: seq<Edge>, from: string, to: string) {
    exists i :: 0 <= i < |edges| && edges[i].predecessor == from && edges[i].successor == to
  }

  /** One inferred edge, unless it is there already or would join a task to itself. */
  function Infer(edges: seq<Edge>, from: string, to: string): seq<Edge> {
    if from == to || Known(edges, from, to) then edges else edges + [Edge(from, to, false)]
  }

  function InferAround(edges: seq<Edge>, feature: string, foundation: Option<string>,
                       regression: Option<string>): seq<Edge> {
    var below := if foundation.Some? then Infer(edges, foundation.value, feature) else edges;
    if regression.Some? then Infer(below, feature, regression.value) else below
  }

  /** Shared architecture before every feature, regression after. */
  function InferAll(edges: seq<Edge>, features: seq<string>, foundation: Option<string>,
                    regression: Option<string>): seq<Edge>
    decreases |features|
  {
    if features == [] then edges
    else
      var last := features[|features| - 1];
      InferAround(InferAll(edges, features[..|features| - 1], foundation, regression), last, foundation, regression)
  }

  function WithInferred(plan: Plan): Plan {
    plan.(edges := InferAll(plan.edges, Features(plan.units),
                            FindActivity(plan.units, SharedArchitecture), FindActivity(plan.units, QaRegression)))
  }

  method GenerateDependencies(plan: Plan) returns (after: Plan)
    ensures after == WithInferred(plan)
  {
    var foundation, regression := FindActivity(plan.units, SharedArchitecture), FindActivity(plan.units, QaRegression);
    var features := Features(plan.units);
    var edges := plan.edges;
    for i := 0 to |features|
      invariant edges == InferAll(plan.edges, features[..i], foundation, regression)
    {
      assert features[..i + 1][..i] == features[..i];
      if foundation.Some? { edges := Infer(edges, foundation.value, features[i]); }
      if regression.Some? { edges := Infer(edges, features[i], regression.value); }
    }
    assert features[..|features|] == features;
    after := plan.(edges := edges);
  }

  /** The pairs the inference is about. */
  ghost predicate Inferred(features: seq<string>, foundation: Option<string>, regression: Option<string>, a: string,
                           b: string) {
    a != b && ((foundation == Some(a) && b in features) || (a in features && regression == Some(b)))
  }

  lemma InferJoins(edges: seq<Edge>, from: string, to: string, a: string, b: string)
    ensures Known(Infer(edges, from, to), a, b) <==> Known(edges, a, b) || (a == from && b == to && from != to)
  {
    var after := Infer(edges, from, to);
    if after != edges {
      assert after[|edges|] == Edge(from, to, false);
      if Known(edges, a, b) {
        var i :| 0 <= i < |edges| && edges[i].predecessor == a && edges[i].successor == b;
        assert after[i] == edges[i];
      }
    }
  }

  lemma InferAroundJoins(edges: seq<Edge>, feature: string, foundation: Option<string>, regression: Option<string>,
                         a: string, b: string)
    ensures Known(InferAround(edges, feature, foundation, regression), a, b)
       <==> || Known(edges, a, b)
            || (a != b && ((foundation == Some(a) && b == feature) || (a == feature && regression == Some(b))))
  {
    var below := if foundation.Some? then Infer(edges, foundation.value, feature) else edges;
    if foundation.Some? { InferJoins(edges, foundation.value, feature, a, b); }
    if regression.Some? { InferJoins(below, feature, regression.value, a, b); }
  }

  lemma {:induction false} InferAllJoins(edges: seq<Edge>, features: seq<string>, foundation: Option<string>,
                                         regression: Option<string>, a: string, b: string)
    ensures Known(InferAll(edges, features, foundation, regression), a, b)
       <==> Known(edges, a, b) || Inferred(features, foundation, regression, a, b)
    decreases |features|
  {
    if features != [] {
      var init, last := features[..|features| - 1], features[|features| - 1];
      InferAllJoins(edges, init, foundation, regression, a, b);
      InferAroundJoins(InferAll(edges, init, foundation, regression), last, foundation, regression, a, b);
      assert features == init + [last];
    }
  }

  lemma LinkedIsKnown(edges: seq<Edge>, live: set<string>, a: string, b: string)
    ensures Linked(edges, live, a, b) <==> a in live && b in live && Known(edges, a, b)
  {
    if a in live && b in live && Known(edges, a, b) {
      var i :| 0 <= i < |edges| && edges[i].predecessor == a && edges[i].successor == b;
      assert edges[i] in edges;
    }
  }

  /* ------------------------------------------------------ when inference can loop */

  /** Where inference meets what people added: the live features, and the live foundation
      and regression tasks. */
  datatype Setting = Setting(live: set<string>, features: seq<string>, foundation: Option<string>,
                             regression: Option<string>)

  ghost predicate Joins(f: Setting, a: string, b: string) {
    a in f.live && b in f.live && Inferred(f.features, f.foundation, f.regression, a, b)
  }

  /** What people's own dependencies must not say: that a feature or the regression run
      comes before the foundation, or that the regression run comes before a feature. */
  ghost predicate Compatible(edges: seq<Edge>, f: Setting) {
    && Acyclic(edges, f.live)
    && (forall a, b :: Joins(f, a, b) && f.foundation == Some(a) ==> !Reaches(edges, f.live, b, a))
    && (forall a, b :: Joins(f, a, b) && f.regression == Some(b) ==> !Reaches(edges, f.live, b, a))
    && (forall a, b, c :: Joins(f, a, b) && f.foundation == Some(a) && Joins(f, b, c) && f.regression == Some(c) ==>
          !Reaches(edges, f.live, c, a))
  }

  ghost predicate Extends(edges: seq<Edge>, more: seq<Edge>, f: Setting) {
    forall a, b :: Linked(more, f.live, a, b) <==> Linked(edges, f.live, a, b) || Joins(f, a, b)
  }

  lemma OneStepBefore(edges: seq<Edge>, live: set<string>, from: string, next: string, to: string)
    requires Linked(edges, live, from, next) && Reaches(edges, live, next, to)
    ensures Reaches(edges, live, from, to)
  {
    var walk: seq<string> :| |walk| > 0 && walk[0] == next && walk[|walk| - 1] == to && IsWalk(edges, live, walk);
    var longer := [from] + walk;
    forall i | 0 <= i < |longer| - 1 ensures Linked(edges, live, longer[i], longer[i + 1]) {
      if i > 0 { assert Linked(edges, live, walk[i - 1], walk[i]); }
    }
    assert IsWalk(edges, live, longer);
  }

  lemma Here(edges: seq<Edge>, live: set<string>, at: string)
    ensures Reaches(edges, live, at, at)
  {
    assert IsWalk(edges, live, [at]);
  }

  /** The first step of a walk that only inference makes: people's own dependencies lead
      from the start of the walk to it. */
  lemma {:induction false} FirstJoin(edges: seq<Edge>, more: seq<Edge>, f: Setting, walk: seq<string>, k: nat)
      returns (i: nat)
    requires Extends(edges, more, f) && IsWalk(more, f.live, walk) && k + 1 < |walk|
    requires !Linked(edges, f.live, walk[k], walk[k + 1])
    ensures i + 1 < |walk| && Joins(f, walk[i], walk[i + 1]) && !Linked(edges, f.live, walk[i], walk[i + 1])
    ensures Reaches(edges, f.live, walk[0], walk[i])
    decreases |walk|
  {
    if !Linked(edges, f.live, walk[0], walk[1]) {
      assert Linked(more, f.live, walk[0], walk[1]);
      Here(edges, f.live, walk[0]);
      i := 0;
    } else {
      var rest := walk[1..];
      forall j | 0 <= j < |rest| - 1 ensures Linked(more, f.live, rest[j], rest[j + 1]) {
        assert Linked(more, f.live, walk[j + 1], walk[j + 2]);
      }
      assert rest[k - 1] == walk[k] && rest[k] == walk[k + 1];
      var r := FirstJoin(edges, more, f, rest, k - 1);
      i := r + 1;
      assert rest[r] == walk[i] && rest[r + 1] == walk[i + 1];
      OneStepBefore(edges, f.live, walk[0], walk[1], walk[i]);
    }
  }

  function After(cycle: seq<string>, k: nat): string
    requires k < |cycle|
  {
    if k + 1 < |cycle| then cycle[k + 1] else cycle[0]
  }

  /** A loop walked from the end of its k-th step all the way round to that step again. */
  function Rotated(cycle: seq<string>, k: nat): seq<string>
    requires k < |cycle|
  {
    cycle[k + 1..] + cycle[..k + 1] + [After(cycle, k)]
  }

  /** The step of the loop that a step of the rotated walk is. */
  function StepOf(n: nat, k: nat, j: nat): (m: nat)
    requires k < n && j < n
    ensures m < n
  {
    if j < n - k - 1 then k + 1 + j else j - (n - k - 1)
  }

  lemma RotatedStep(cycle: seq<string>, k: nat, j: nat)
    requires k < |cycle| && j < |cycle|
    ensures |Rotated(cycle, k)| == |cycle| + 1
    ensures var m := StepOf(|cycle|, k, j);
      Rotated(cycle, k)[j] == cycle[m] && Rotated(cycle, k)[j + 1] == After(cycle, m)
    ensures Rotated(cycle, k)[0] == After(cycle, k)
  {
  }

  lemma LoopLinks(more: seq<Edge>, live: set<string>, cycle: seq<string>, k: nat)
    requires IsCycle(more, live, cycle) && k < |cycle|
    ensures Linked(more, live, cycle[k], After(cycle, k))
  {
    if k + 1 < |cycle| { assert Linked(more, live, cycle[k], cycle[k + 1]); }
  }

  lemma RotatedIsWalk(more: seq<Edge>, live: set<string>, cycle: seq<string>, k: nat)
    requires IsCycle(more, live, cycle) && k < |cycle|
    ensures IsWalk(more, live, Rotated(cycle, k))
  {
    var walk := Rotated(cycle, k);
    RotatedStep(cycle, k, 0);
    forall j | 0 <= j < |walk| - 1 ensures Linked(more, live, walk[j], walk[j + 1]) {
      RotatedStep(cycle, k, j);
      LoopLinks(more, live, cycle, StepOf(|cycle|, k, j));
    }
  }

  lemma CompatibleIsEnough(edges: seq<Edge>, more: seq<Edge>, f: Setting)
    requires Extends(edges, more, f) && Compatible(edges, f)
    requires f.foundation.Some? && f.regression.Some? ==> f.foundation != f.regression
    requires f.foundation.Some? ==> f.foundation.value !in f.features
    requires f.regression.Some? ==> f.regression.value !in f.features
    ensures Acyclic(more, f.live)
  {
    forall cycle | IsCycle(more, f.live, cycle) ensures false {
      LoopIsIncompatible(edges, more, f, cycle);
    }
  }

  lemma LoopIsIncompatible(edges: seq<Edge>, more: seq<Edge>, f: Setting, cycle: seq<string>)
    requires Extends(edges, more, f) && IsCycle(more, f.live, cycle)
    requires f.foundation.Some? && f.regression.Some? ==> f.foundation != f.regression
    requires f.foundation.Some? ==> f.foundation.value !in f.features
    requires f.regression.Some? ==> f.regression.value !in f.features
    ensures !Compatible(edges, f)
  {
    if forall k :: 0 <= k < |cycle| ==> Linked(edges, f.live, cycle[k], After(cycle, k)) {
      OwnLoop(edges, f.live, cycle);
    } else {
      var k := ChooseJoin(edges, more, f, cycle);
      var m := NextJoin(edges, more, f, cycle, k);
      JoinsMeet(edges, f, cycle, k, m);
    }
  }

  lemma OwnLoop(edges: seq<Edge>, live: set<string>, cycle: seq<string>)
    requires |cycle| > 0 && forall k :: 0 <= k < |cycle| ==> Linked(edges, live, cycle[k], After(cycle, k))
    ensures IsCycle(edges, live, cycle)
  {
    forall k | 0 <= k < |cycle| - 1 ensures Linked(edges, live, cycle[k], cycle[k + 1]) {
      assert Linked(edges, live, cycle[k], After(cycle, k));
    }
    assert Linked(edges, live, cycle[|cycle| - 1], After(cycle, |cycle| - 1));
  }

  /** The next inferred step of the loop after one of them, however far round. */
  lemma NextJoin(edges: seq<Edge>, more: seq<Edge>, f: Setting, cycle: seq<string>, k: nat) returns (m: nat)
    requires Extends(edges, more, f) && IsCycle(more, f.live, cycle) && k < |cycle|
    requires !Linked(edges, f.live, cycle[k], After(cycle, k))
    ensures m < |cycle| && Joins(f, cycle[m], After(cycle, m)) && !Linked(edges, f.live, cycle[m], After(cycle, m))
    ensures Reaches(edges, f.live, After(cycle, k), cycle[m])
  {
    var walk := Rotated(cycle, k);
    RotatedIsWalk(more, f.live, cycle, k);
    RotatedStep(cycle, k, |cycle| - 1);
    var i := FirstJoin(edges, more, f, walk, |cycle| - 1);
    RotatedStep(cycle, k, i);
    m := StepOf(|cycle|, k, i);
  }

  /** An inferred step of the loop: one into the regression run if there is one. */
  lemma ChooseJoin(edges: seq<Edge>, more: seq<Edge>, f: Setting, cycle: seq<string>) returns (k: nat)
    requires Extends(edges, more, f) && IsCycle(more, f.live, cycle)
    requires !forall k :: 0 <= k < |cycle| ==> Linked(edges, f.live, cycle[k], After(cycle, k))
    ensures k < |cycle| && Joins(f, cycle[k], After(cycle, k)) && !Linked(edges, f.live, cycle[k], After(cycle, k))
    ensures f.regression == Some(After(cycle, k))
         || forall m :: 0 <= m < |cycle| && !Linked(edges, f.live, cycle[m], After(cycle, m)) ==>
            f.regression != Some(After(cycle, m))
  {
    forall m | 0 <= m < |cycle| ensures Linked(more, f.live, cycle[m], After(cycle, m)) {
      if m + 1 < |cycle| { assert Linked(more, f.live, cycle[m], cycle[m + 1]); }
    }
    if m :|
      0 <= m < |cycle| && !Linked(edges, f.live, cycle[m], After(cycle, m)) && f.regression == Some(After(cycle, m))
    {
      k := m;
    } else {
      k :| 0 <= k < |cycle| && !Linked(edges, f.live, cycle[k], After(cycle, k));
    }
  }

  /** From the end of the chosen step people's own dependencies lead to the start of
      another inferred one: each way round that is one of the forbidden walks. */
  lemma JoinsMeet(edges: seq<Edge>, f: Setting, cycle: seq<string>, k: nat, m: nat)
    requires k < |cycle| && m < |cycle|
    requires Joins(f, cycle[k], After(cycle, k)) && Joins(f, cycle[m], After(cycle, m))
    requires f.regression == Some(After(cycle, k))
             || (f.regression != Some(After(cycle, m)) && f.regression != Some(After(cycle, k)))
    requires Reaches(edges, f.live, After(cycle, k), cycle[m])
    requires f.foundation.Some? ==> f.foundation.value !in f.features
    requires f.regression.Some? ==> f.regression.value !in f.features
    ensures !Compatible(edges, f)
  {
    var t, s := After(cycle, k), cycle[m];
    if f.regression == Some(t) {
      if f.foundation == Some(s) {
        assert Joins(f, s, cycle[k]) && Joins(f, cycle[k], t);
      } else {
        assert Joins(f, s, t);
      }
    } else {
      assert f.foundation == Some(s) && f.foundation == Some(cycle[k]);
    }
  }

  lemma WalkGrows(edges: seq<Edge>, more: seq<Edge>, f: Setting, from: string, to: string)
    requires Extends(edges, more, f) && Reaches(edges, f.live, from, to)
    ensures Reaches(more, f.live, from, to)
  {
    var walk: seq<string> :| |walk| > 0 && walk[0] == from && walk[|walk| - 1] == to && IsWalk(edges, f.live, walk);
    forall i | 0 <= i < |walk| - 1 ensures Linked(more, f.live, walk[i], walk[i + 1]) {
      assert Linked(edges, f.live, walk[i], walk[i + 1]);
    }
    assert IsWalk(more, f.live, walk);
  }

  lemma WayBackLoops(more: seq<Edge>, live: set<string>, from: string, to: string)
    requires Reaches(more, live, from, to) && Linked(more, live, to, from)
    ensures !Acyclic(more, live)
  {
    var walk: seq<string> :| |walk| > 0 && walk[0] == from && walk[|walk| - 1] == to && IsWalk(more, live, walk);
    assert IsCycle(more, live, walk);
  }

  lemma OneMoreStep(more: seq<Edge>, live: set<string>, from: string, to: string, next: string)
    requires Reaches(more, live, from, to) && Linked(more, live, to, next)
    ensures Reaches(more, live, from, next)
  {
    var walk: seq<string> :| |walk| > 0 && walk[0] == from && walk[|walk| - 1] == to && IsWalk(more, live, walk);
    var longer := walk + [next];
    forall i | 0 <= i < |longer| - 1 ensures Linked(more, live, longer[i], longer[i + 1]) {
      if i < |walk| - 1 { assert Linked(more, live, walk[i], walk[i + 1]); }
    }
    assert IsWalk(more, live, longer);
  }

  lemma LoopStays(edges: seq<Edge>, more: seq<Edge>, few: set<string>, live: set<string>, cycle: seq<string>)
    requires forall a, b :: Linked(edges, few, a, b) ==> Linked(more, live, a, b)
    requires IsCycle(edges, few, cycle)
    ensures IsCycle(more, live, cycle)
  {
    forall i | 0 <= i < |cycle| - 1 ensures Linked(more, live, cycle[i], cycle[i + 1]) {
      assert Linked(edges, few, cycle[i], cycle[i + 1]);
    }
  }

  lemma CompatibleIsNeeded(edges: seq<Edge>, more: seq<Edge>, f: Setting)
    requires Extends(edges, more, f) && Acyclic(more, f.live)
    ensures Compatible(edges, f)
  {
    if cycle :| IsCycle(edges, f.live, cycle) { LoopStays(edges, more, f.live, f.live, cycle); }
    forall a, b | Joins(f, a, b) ensures !Reaches(edges, f.live, b, a) {
      if Reaches(edges, f.live, b, a) {
        WalkGrows(edges, more, f, b, a);
        WayBackLoops(more, f.live, b, a);
      }
    }
    forall a, b, c | Joins(f, a, b) && Joins(f, b, c) ensures !Reaches(edges, f.live, c, a) {
      if Reaches(edges, f.live, c, a) {
        WalkGrows(edges, more, f, c, a);
        OneMoreStep(more, f.live, c, a, b);
        WayBackLoops(more, f.live, c, b);
      }
    }
  }

  lemma {:induction false} ActivityIsNoFeature(units: seq<Unit>, activity: Activity)
    requires DistinctIds(units)
    ensures FindActivity(units, activity).Some? ==>
              FindActivity(units, activity).value !in Features(units)
              && exists i ::
                   && 0 <= i < |units| && units[i].id == FindActivity(units, activity).value
                   && units[i].activity == Some(activity)
  {
    if units != [] {
      var rest := units[1..];
      assert forall i :: 0 <= i < |rest| ==> rest[i] == units[i + 1];
      ActivityIsNoFeature(rest, activity);
      FeaturesAreIds(rest);
      if units[0].activity != Some(activity) && FindActivity(rest, activity).Some? {
        var i :| 0 <= i < |rest| && rest[i].id == FindActivity(rest, activity).value
          && rest[i].activity == Some(activity);
        assert units[i + 1].id != units[0].id;
      }
    }
  }

  lemma {:induction false} FeaturesAreIds(units: seq<Unit>)
    ensures forall id :: id in Features(units) ==> exists i :: 0 <= i < |units| && units[i].id == id
  {
    if units != [] {
      FeaturesAreIds(units[1..]);
      forall id | id in Features(units) ensures exists i :: 0 <= i < |units| && units[i].id == id {
        if id in Features(units[1..]) {
          var i :| 0 <= i < |units[1..]| && units[1..][i].id == id;
          assert units[i + 1].id == id;
        } else {
          assert units[0].id == id;
        }
      }
    }
  }

  ghost function SettingOf(plan: Plan): Setting {
    Setting(Live(plan), Features(plan.units),
          FindActivity(plan.units, SharedArchitecture), FindActivity(plan.units, QaRegression))
  }

  lemma InferenceExtends(plan: Plan)
    ensures Extends(plan.edges, WithInferred(plan).edges, SettingOf(plan))
  {
    var f := SettingOf(plan);
    forall a, b
      ensures Linked(WithInferred(plan).edges, f.live, a, b) <==> Linked(plan.edges, f.live, a, b) || Joins(f, a, b)
    {
      LinkedIsKnown(plan.edges, f.live, a, b);
      LinkedIsKnown(WithInferred(plan).edges, f.live, a, b);
      InferAllJoins(plan.edges, f.features, f.foundation, f.regression, a, b);
    }
  }

  /** Inference is not checked for loops as people's dependencies are. Exactly when the plan
      can be scheduled after it: the dependencies people added have no loop of their own,
      and lead from no feature and not from the regression run to the foundation, nor from
      the regression run to any feature. */
  lemma InferenceSchedulableIff(plan: Plan)
    requires DistinctIds(plan.units)
    ensures Schedulable(WithInferred(plan)) <==> Compatible(plan.edges, SettingOf(plan))
  {
    InferenceExtends(plan);
    ActivityIsNoFeature(plan.units, SharedArchitecture);
    ActivityIsNoFeature(plan.units, QaRegression);
    SameUnitOnlyOnce(plan.units);
    var f := SettingOf(plan);
    if Compatible(plan.edges, f) {
      CompatibleIsEnough(plan.edges, WithInferred(plan).edges, f);
    } else if Acyclic(WithInferred(plan).edges, f.live) {
      CompatibleIsNeeded(plan.edges, WithInferred(plan).edges, f);
    }
  }

  lemma SameUnitOnlyOnce(units: seq<Unit>)
    requires DistinctIds(units)
    ensures var a, b := FindActivity(units, SharedArchitecture), FindActivity(units, QaRegression);
      a.Some? && b.Some? ==> a != b
  {
    ActivityIsNoFeature(units, SharedArchitecture);
    ActivityIsNoFeature(units, QaRegression);
    var a, b := FindActivity(units, SharedArchitecture), FindActivity(units, QaRegression);
    if a.Some? && b.Some? {
      var i :| 0 <= i < |units| && units[i].id == a.value && units[i].activity == Some(SharedArchitecture);
      var j :| 0 <= j < |units| && units[j].id == b.value && units[j].activity == Some(QaRegression);
      assert i != j;
    }
  }

  /** With no dependency of anybody's surviving, inference always leaves a plan that can be
      scheduled. */
  lemma FreshInferenceSchedulable(plan: Plan)
    requires DistinctIds(plan.units) && plan.edges == []
    ensures Schedulable(WithInferred(plan))
  {
    var f := SettingOf(plan);
    forall a, b ensures !Linked(plan.edges, f.live, a, b) {}
    forall a, b ensures Reaches(plan.edges, f.live, a, b) ==> a == b {
      if Reaches(plan.edges, f.live, a, b) {
        var walk: seq<string> :| |walk| > 0 && walk[0] == a && walk[|walk| - 1] == b
          && IsWalk(plan.edges, f.live, walk);
        assert |walk| > 1 ==> Linked(plan.edges, f.live, walk[0], walk[1]);
      }
    }
    forall cycle ensures !IsCycle(plan.edges, f.live, cycle) {}
    ActivityIsNoFeature(plan.units, SharedArchitecture);
    ActivityIsNoFeature(plan.units, QaRegression);
    SameUnitOnlyOnce(plan.units);
    InferenceSchedulableIff(plan);
  }

  /* ------------------------------------------------------------ over whole runs */

  lemma {:induction false} FewerLinks(fewer: seq<Edge>, edges: seq<Edge>, few: set<string>, live: set<string>)
    requires forall e :: e in fewer ==> e in edges
    requires few <= live && Acyclic(edges, live)
    ensures Acyclic(fewer, few)
  {
    if cycle :| IsCycle(fewer, few, cycle) { LoopStays(fewer, edges, few, live, cycle); }
  }

  /** What people do to a plan's graph between re-estimations. */
  datatype Move =
    | Add(predecessor: string, successor: string)
    | Remove(at: nat)
    /** An override that takes a line out of the plan, or puts it back. */
    | SetExcluded(at: nat, excluded: bool)

  ghost function Made(plan: Plan, move: Move): Plan {
    match move
    case Add(predecessor, successor) =>
      var added := plan.(edges := plan.edges + [Edge(predecessor, successor, true)]);
      if KnownTasks(plan, Edge(predecessor, successor, true)) && !SelfReference(added.edges) && Schedulable(added)
        then added else plan
    case Remove(at) => if at < |plan.edges| then plan.(edges := plan.edges[..at] + plan.edges[at + 1..]) else plan
    case SetExcluded(at, excluded) =>
      if at < |plan.units| then plan.(units := plan.units[at := plan.units[at].(excluded := excluded)]) else plan
  }

  ghost function Moved(plan: Plan, moves: seq<Move>): Plan
    decreases |moves|
  {
    if moves == [] then plan else Moved(Made(plan, moves[0]), moves[1..])
  }

  lemma MadeStaysSchedulable(plan: Plan, move: Move)
    requires Schedulable(plan) && !(move.SetExcluded? && !move.excluded)
    ensures Schedulable(Made(plan, move))
  {
    match move
    case Add(_, _) =>
    case Remove(at) =>
      if at < |plan.edges| { FewerLinks(Made(plan, move).edges, plan.edges, Live(plan), Live(plan)); }
    case SetExcluded(at, excluded) =>
      if at < |plan.units| {
        var after := Made(plan, move);
        forall id | id in Live(after) ensures id in Live(plan) {
          LiveIdsAre(after.units, id);
          LiveIdsAre(plan.units, id);
          var i :| 0 <= i < |after.units| && after.units[i].id == id && !after.units[i].excluded;
          assert plan.units[i].id == id && !plan.units[i].excluded;
        }
        FewerLinks(plan.edges, plan.edges, Live(after), Live(plan));
      }
  }

  /** Over every run of additions, removals and exclusions, a schedulable plan stays
      schedulable: no order of requests can build a loop. */
  lemma {:induction false} NoRunBuildsALoop(plan: Plan, moves: seq<Move>)
    requires Schedulable(plan) && forall i :: 0 <= i < |moves| ==> !(moves[i].SetExcluded? && !moves[i].excluded)
    ensures Schedulable(Moved(plan, moves))
    decreases |moves|
  {
    if moves != [] {
      MadeStaysSchedulable(plan, moves[0]);
      assert forall i :: 0 <= i < |moves[1..]| ==> moves[1..][i] == moves[i + 1];
      NoRunBuildsALoop(Made(plan, moves[0]), moves[1..]);
    }
  }

  /* -------------------------------------------- putting a line back into the plan */

  lemma PutBackLive(plan: Plan, at: nat)
    requires at < |plan.units|
    ensures Live(Made(plan, SetExcluded(at, false))) == Live(plan) + {plan.units[at].id}
  {
    var after := Made(plan, SetExcluded(at, false));
    forall id ensures id in Live(after) <==> id in Live(plan) || id == plan.units[at].id {
      LiveIdsAre(after.units, id);
      LiveIdsAre(plan.units, id);
      assert !after.units[at].excluded && after.units[at].id == plan.units[at].id;
      if i :| 0 <= i < |plan.units| && plan.units[i].id == id && !plan.units[i].excluded {
        assert after.units[i].id == id && !after.units[i].excluded;
      }
      if i :| 0 <= i < |after.units| && after.units[i].id == id && !after.units[i].excluded && i != at {
        assert plan.units[i].id == id && !plan.units[i].excluded;
      }
    }
  }

  /** Dependencies of an excluded line are not looked at when one is added, and putting the
      line back is not checked. It leaves the plan schedulable exactly when no task that
      the line waits for can be reached from the line. */
  lemma PuttingBackSchedulableIff(plan: Plan, at: nat)
    requires Schedulable(plan) && at < |plan.units|
    ensures var id, live := plan.units[at].id, Live(plan) + {plan.units[at].id};
      Schedulable(Made(plan, SetExcluded(at, false)))
      <==> !(exists n :: Linked(plan.edges, live, n, id) && Reaches(plan.edges, live, id, n))
  {
    var id, live := plan.units[at].id, Live(plan) + {plan.units[at].id};
    PutBackLive(plan, at);
    if cycle :| IsCycle(plan.edges, live, cycle) {
      LoopThrough(plan.edges, Live(plan), id, cycle);
      var k :| 0 <= k < |cycle| && After(cycle, k) == id;
      LoopLinks(plan.edges, live, cycle, k);
      WayRound(plan.edges, live, cycle, k);
    }
    if n :| Linked(plan.edges, live, n, id) && Reaches(plan.edges, live, id, n) {
      WayBackLoops(plan.edges, live, id, n);
    }
  }

  lemma LoopThrough(edges: seq<Edge>, live: set<string>, id: string, cycle: seq<string>)
    requires Acyclic(edges, live) && IsCycle(edges, live + {id}, cycle)
    ensures exists k :: 0 <= k < |cycle| && After(cycle, k) == id
  {
    if forall k :: 0 <= k < |cycle| ==> After(cycle, k) != id {
      forall k | 0 <= k < |cycle| ensures Linked(edges, live, cycle[k], After(cycle, k)) {
        LoopLinks(edges, live + {id}, cycle, k);
        var before := if k > 0 then k - 1 else |cycle| - 1;
        assert After(cycle, before) == cycle[k];
      }
      OwnLoop(edges, live, cycle);
    }
  }

  lemma WayRound(edges: seq<Edge>, live: set<string>, cycle: seq<string>, k: nat)
    requires IsCycle(edges, live, cycle) && k < |cycle|
    ensures Reaches(edges, live, After(cycle, k), cycle[k])
  {
    var walk := Rotated(cycle, k);
    RotatedIsWalk(edges, live, cycle, k);
    RotatedStep(cycle, k, |cycle| - 1);
    RotatedStep(cycle, k, 0);
    var most := walk[..|cycle|];
    forall j | 0 <= j < |most| - 1 ensures Linked(edges, live, most[j], most[j + 1]) {
      assert Linked(edges, live, walk[j], walk[j + 1]);
    }
    assert IsWalk(edges, live, most) && most[0] == walk[0] && most[|most| - 1] == cycle[k];
  }
}
