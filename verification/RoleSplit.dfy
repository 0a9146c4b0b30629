/** Splitting the hours of one estimate line across the roles a project has. */
module RoleSplit {
  import opened Wrappers
  import opened OrderedMap

  /* ---------------------------------------------------------------- rounding */

  /** To the nearest hundredth, as hours are stored. */
  function Round2(x: real): (r: real)
    ensures -0.005 <= r - x <= 0.005
    ensures x >= 0.0 ==> r >= 0.0
  {
    ((x * 100.0 + 0.5).Floor as real) / 100.0
  }

  /** Rounded figures stay as they are. */
  lemma RoundTwice(x: real)
    ensures Round2(Round2(x)) == Round2(x)
  {
    var n := (x * 100.0 + 0.5).Floor;
    assert Round2(x) * 100.0 == n as real;
    assert (n as real + 0.5).Floor == n;
  }

  /* ------------------------------------------------------------------- roles */

  datatype Role =
    | BusinessAnalyst | SolutionArchitect | Backend | Frontend | Mobile | Qa | DevOps | UiUx | DataEngineer | AiMl | Pm
    | CustomRole(name: string)

  datatype TaskCategory =
    | Scaffolding | Crud | BusinessLogic | ValidationWork | Integration | UiImplementation | UiDesign | DataModelling
    | Migration | AiWork | Infrastructure | Testing | Analysis | Coordination

  type Shares = seq<(Role, real)>

  function RoleShares(category: TaskCategory): Shares {
    match category
    case Scaffolding => [(Backend, 0.6), (DevOps, 0.4)]
    case Crud => [(Backend, 0.45), (Frontend, 0.35), (Qa, 0.2)]
    case BusinessLogic => [(Backend, 0.6), (Qa, 0.25), (BusinessAnalyst, 0.15)]
    case ValidationWork => [(Backend, 0.55), (Qa, 0.35), (BusinessAnalyst, 0.1)]
    case Integration => [(Backend, 0.6), (Qa, 0.25), (SolutionArchitect, 0.15)]
    case UiImplementation => [(Frontend, 0.7), (UiUx, 0.15), (Qa, 0.15)]
    case UiDesign => [(UiUx, 0.85), (Frontend, 0.15)]
    case DataModelling => [(Backend, 0.55), (SolutionArchitect, 0.25), (DataEngineer, 0.2)]
    case Migration => [(DataEngineer, 0.5), (Backend, 0.3), (Qa, 0.2)]
    case AiWork => [(AiMl, 0.65), (Backend, 0.2), (Qa, 0.15)]
    case Infrastructure => [(DevOps, 0.75), (Backend, 0.25)]
    case Testing => [(Qa, 1.0)]
    case Analysis => [(BusinessAnalyst, 0.7), (SolutionArchitect, 0.3)]
    case Coordination => [(Pm, 1.0)]
  }

  function Substitutes(role: Role): seq<Role> {
    match role
    case Frontend => [Mobile]
    case Mobile => [Frontend]
    case DataEngineer => [Backend]
    case AiMl => [Backend]
    case SolutionArchitect => [Backend]
    case UiUx => [Frontend, Mobile]
    case _ => []
  }

  function FirstAvailable(candidates: seq<Role>, available: seq<Role>): Option<Role> {
    if candidates == [] then None
    else if candidates[0] in available then Some(candidates[0])
    else FirstAvailable(candidates[1..], available)
  }

  /** The role that will do this share of the work, if any will. */
  function ResolveRole(role: Role, available: seq<Role>): Option<Role> {
    if role in available then Some(role) else FirstAvailable(Substitutes(role), available)
  }

  type Effort = OrderedMap<Role, real>

  function Add(resolved: Effort, role: Role, share: real): Effort {
    Put(resolved, role, Get(resolved, role).GetOr(0.0) + share)
  }

  predicate TwoPlatforms(available: seq<Role>) { Frontend in available && Mobile in available }

  function Place(resolved: Effort, role: Role, share: real, available: seq<Role>): Effort {
    if role == Frontend && TwoPlatforms(available) then Add(Add(resolved, Frontend, share / 2.0), Mobile, share / 2.0)
    else match ResolveRole(role, available)
         case Some(target) => Add(resolved, target, share)
         case None => resolved
  }

  function Resolve(shares: Shares, available: seq<Role>): Effort {
    if shares == [] then []
    else
      var last := shares[|shares| - 1];
      Place(Resolve(shares[..|shares| - 1], available), last.0, last.1, available)
  }

  function Sum(effort: Effort): real {
    if effort == [] then 0.0 else effort[0].1 + Sum(effort[1..])
  }

  function Scale(resolved: Effort, hours: real, total: real): Effort
    requires total > 0.0
  {
    if resolved == [] then []
    else [(resolved[0].0, Round2(Portion(hours, resolved[0].1, total)))] + Scale(resolved[1..], hours, total)
  }

  function Portion(hours: real, share: real, total: real): real
    requires total > 0.0
  {
    hours * share / total
  }

  /** The role is on the project, or one that can stand in for it is. */
  predicate IsCovered(role: Role, available: seq<Role>) {
    role in available || exists s :: s in Substitutes(role) && s in available
  }

  /** The share of the table that somebody on this project will do. */
  function UsableShare(shares: Shares, available: seq<Role>): real {
    if shares == [] then 0.0
    else
      var last := shares[|shares| - 1];
      UsableShare(shares[..|shares| - 1], available) + if IsCovered(last.0, available) then last.1 else 0.0
  }

  function Split(hours: real, shares: Shares, available: seq<Role>): Effort
    requires Resolve(shares, available) != [] ==> Sum(Resolve(shares, available)) > 0.0
  {
    var resolved := Resolve(shares, available);
    if resolved == [] then [(if available == [] then Backend else available[0], Round2(hours))]
    else Scale(resolved, hours, Sum(resolved))
  }

  ghost predicate NoNegativeShare(shares: Shares) {
    forall i :: 0 <= i < |shares| ==> shares[i].1 >= 0.0
  }

  ghost predicate Positive(shares: Shares) {
    forall i :: 0 <= i < |shares| ==> shares[i].1 > 0.0
  }

  ghost predicate NonNegative(effort: Effort) {
    forall i :: 0 <= i < |effort| ==> effort[i].1 >= 0.0
  }

  /* ------------------------------------------------------------ sums of efforts */

  lemma {:induction false} SumOfPut(effort: Effort, role: Role, value: real)
    ensures Sum(Put(effort, role, value)) == Sum(effort) - Get(effort, role).GetOr(0.0) + value
  {
    if effort != [] {
      if effort[0].0 == role {
        assert Put(effort, role, value)[1..] == effort[1..];
      } else {
        SumOfPut(effort[1..], role, value);
        assert Put(effort, role, value)[1..] == Put(effort[1..], role, value);
      }
    } else {
      assert [(role, value)][1..] == [];
    }
  }

  lemma AddAddsUp(resolved: Effort, role: Role, share: real)
    requires Distinct(resolved) && share >= 0.0 && NonNegative(resolved)
    ensures Sum(Add(resolved, role, share)) == Sum(resolved) + share
    ensures Distinct(Add(resolved, role, share)) && Keys(Add(resolved, role, share)) == Keys(resolved) + {role}
    ensures NonNegative(Add(resolved, role, share))
  {
    var value := Get(resolved, role).GetOr(0.0) + share;
    SumOfPut(resolved, role, value);
    PutShape(resolved, role, value);
    var after := Add(resolved, role, share);
    GetFinds(resolved, role);
    forall i | 0 <= i < |after| ensures after[i].1 >= 0.0 {
      GetAt(after, i);
      GetOfPut(resolved, role, value, after[i].0);
      GetFinds(resolved, after[i].0);
    }
  }

  lemma {:induction false} FirstAvailableIs(candidates: seq<Role>, available: seq<Role>)
    ensures FirstAvailable(candidates, available).Some? ==> FirstAvailable(candidates, available).value in available
  {
    if candidates != [] { FirstAvailableIs(candidates[1..], available); }
  }

  /** What redistribution conserves: the resolved shares add up to the usable part of the
      table, and only roles of the project hold any. */
  lemma {:induction false} ResolveConserves(shares: Shares, available: seq<Role>)
    requires NoNegativeShare(shares)
    ensures var resolved := Resolve(shares, available);
      Usable(resolved, available) && Sum(resolved) == UsableShare(shares, available)
  {
    if shares != [] {
      var init, last := shares[..|shares| - 1], shares[|shares| - 1];
      ResolveConserves(init, available);
      PlaceAddsUp(Resolve(init, available), last.0, last.1, available);
    }
  }

  lemma PlaceAddsUp(resolved: Effort, role: Role, share: real, available: seq<Role>)
    requires Usable(resolved, available) && share >= 0.0
    ensures var after := Place(resolved, role, share, available);
      && Usable(after, available)
      && Sum(after) == Sum(resolved)
         + if IsCovered(role, available) then share else 0.0
  {
    FirstAvailableIs(Substitutes(role), available);
    ShareDroppedIff(role, available);
    if role == Frontend && TwoPlatforms(available) {
      var half := share / 2.0;
      AddUsable(resolved, Frontend, half, available);
      AddUsable(Add(resolved, Frontend, half), Mobile, half, available);
    } else if ResolveRole(role, available).Some? {
      AddUsable(resolved, ResolveRole(role, available).value, share, available);
    }
  }

  /** What a list of shares of a project's roles always is. */
  ghost predicate Usable(resolved: Effort, available: seq<Role>) {
    Distinct(resolved) && NonNegative(resolved) && forall r :: r in Keys(resolved) ==> r in available
  }

  lemma AddUsable(resolved: Effort, role: Role, share: real, available: seq<Role>)
    requires Usable(resolved, available) && share >= 0.0 && role in available
    ensures Usable(Add(resolved, role, share), available) && Sum(Add(resolved, role, share)) == Sum(resolved) + share
  {
    AddAddsUp(resolved, role, share);
  }

  /** Within half a hundredth for each of `parts` roundings. */
  ghost predicate Near(a: real, b: real, parts: nat) {
    -0.005 * parts as real <= a - b <= 0.005 * parts as real
  }

  lemma NearAdds(a: real, b: real, c: real, d: real, parts: nat)
    requires Near(a, b, 1) && Near(c, d, parts)
    ensures Near(a + c, b + d, parts + 1)
  {
  }

  lemma RoundIsNear(x: real)
    ensures Near(Round2(x), x, 1)
  {
  }

  lemma PortionsAdd(hours: real, a: real, b: real, total: real)
    requires total > 0.0
    ensures Portion(hours, a + b, total) == Portion(hours, a, total) + Portion(hours, b, total)
  {
    assert hours * (a + b) == hours * a + hours * b;
  }

  lemma {:induction false} ScaleErrs(resolved: Effort, hours: real, total: real)
    requires total > 0.0
    ensures Near(Sum(Scale(resolved, hours, total)), Portion(hours, Sum(resolved), total), |resolved|)
    ensures |Scale(resolved, hours, total)| == |resolved|
  {
    if resolved != [] {
      var share, rest := resolved[0].1, Sum(resolved[1..]);
      ScaleErrs(resolved[1..], hours, total);
      SumOfScale(resolved, hours, total);
      var first := Round2(Portion(hours, share, total));
      RoundIsNear(Portion(hours, share, total));
      PortionsAdd(hours, share, rest, total);
      NearAdds(first, Portion(hours, share, total), Sum(Scale(resolved[1..], hours, total)),
               Portion(hours, rest, total), |resolved[1..]|);
    }
  }

  lemma SumOfScale(resolved: Effort, hours: real, total: real)
    requires total > 0.0 && resolved != []
    ensures Sum(Scale(resolved, hours, total))
         == Round2(Portion(hours, resolved[0].1, total)) + Sum(Scale(resolved[1..], hours, total))
  {
    assert Scale(resolved, hours, total)[1..] == Scale(resolved[1..], hours, total);
  }

  lemma WholePortion(hours: real, total: real)
    requires total > 0.0
    ensures Portion(hours, total, total) == hours
  {
  }

  lemma {:induction false} ScaleShape(resolved: Effort, hours: real, total: real)
    requires total > 0.0
    ensures var parts := Scale(resolved, hours, total);
      |parts| == |resolved| && forall i :: 0 <= i < |parts| ==> parts[i].0 == resolved[i].0
  {
    if resolved != [] {
      ScaleShape(resolved[1..], hours, total);
      var parts := Scale(resolved, hours, total);
      assert forall i :: 1 <= i < |parts| ==> parts[i] == parts[1..][i - 1] && resolved[i] == resolved[1..][i - 1];
    }
  }

  /** Splitting loses and invents nothing beyond rounding: for any table of shares,
      none negative and not all of the usable ones nought, and any list of roles, the parts
      add up to the hours within half a hundredth each, no part is negative, no role has two
      parts, and every role that gets work is one the project has. With no role at all, the
      hours fall to the backend. */
  lemma SplitLosesNothing(hours: real, shares: Shares, available: seq<Role>)
    requires NoNegativeShare(shares) && hours >= 0.0
    requires Resolve(shares, available) == [] || UsableShare(shares, available) > 0.0
    ensures Resolve(shares, available) != [] ==> Sum(Resolve(shares, available)) > 0.0
    ensures var parts := Split(hours, shares, available);
      && Near(Sum(parts), hours, |parts|) && Distinct(parts) && NonNegative(parts) && |parts| > 0
      && (forall i :: 0 <= i < |parts| ==> parts[i].0 in available || (available == [] && parts[i].0 == Backend))
  {
    ResolveConserves(shares, available);
    var resolved := Resolve(shares, available);
    if resolved != [] {
      ScaledLosesNothing(resolved, hours, available);
    } else {
      FallbackLosesNothing(hours, if available == [] then Backend else available[0]);
    }
  }

  lemma ScaledLosesNothing(resolved: Effort, hours: real, available: seq<Role>)
    requires Distinct(resolved) && resolved != [] && Sum(resolved) > 0.0 && hours >= 0.0 && NonNegative(resolved)
    requires forall role :: role in Keys(resolved) ==> role in available
    ensures var parts := Scale(resolved, hours, Sum(resolved));
      && Near(Sum(parts), hours, |parts|) && Distinct(parts) && NonNegative(parts) && |parts| > 0
      && (forall i :: 0 <= i < |parts| ==> parts[i].0 in available)
  {
    var total := Sum(resolved);
    ScaleErrs(resolved, hours, total);
    ScaleShape(resolved, hours, total);
    ScaleNonNegative(resolved, hours, total);
    WholePortion(hours, total);
    forall i | 0 <= i < |resolved| ensures resolved[i].0 in available { assert resolved[i].0 in Keys(resolved); }
  }

  lemma FallbackLosesNothing(hours: real, role: Role)
    requires hours >= 0.0
    ensures var parts := [(role, Round2(hours))];
      Near(Sum(parts), hours, |parts|) && Distinct(parts) && NonNegative(parts)
  {
    var parts := [(role, Round2(hours))];
    RoundIsNear(hours);
    assert parts[1..] == [];
  }

  lemma {:induction false} ScaleNonNegative(resolved: Effort, hours: real, total: real)
    requires total > 0.0 && hours >= 0.0 && NonNegative(resolved)
    ensures NonNegative(Scale(resolved, hours, total))
  {
    if resolved != [] {
      ScaleNonNegative(resolved[1..], hours, total);
      PortionNonNegative(hours, resolved[0].1, total);
      var parts := Scale(resolved, hours, total);
      assert forall i :: 1 <= i < |parts| ==> parts[i] == parts[1..][i - 1];
    }
  }

  lemma PortionNonNegative(hours: real, share: real, total: real)
    requires total > 0.0 && hours >= 0.0 && share >= 0.0
    ensures Portion(hours, share, total) >= 0.0
  {
    assert hours * share >= 0.0;
  }

  /** A share is dropped from the split only for want of its role and of every substitute;
      then the others take it over in proportion. */
  lemma ShareDroppedIff(role: Role, available: seq<Role>)
    ensures ResolveRole(role, available).None? <==>
      role !in available && forall s :: s in Substitutes(role) ==> s !in available
  {
    NoneAvailable(Substitutes(role), available);
  }

  lemma {:induction false} NoneAvailable(candidates: seq<Role>, available: seq<Role>)
    ensures FirstAvailable(candidates, available).None? <==> forall s :: s in candidates ==> s !in available
  {
    if candidates != [] { NoneAvailable(candidates[1..], available); }
  }

  /* --------------------------------------------------------- who gets which part */

  /** `r` is the first of the substitutes of an absent role that is on the project. */
  ghost predicate StandsIn(r: Role, role: Role, available: seq<Role>) {
    && role !in available && r in available
    && exists k ::
         && 0 <= k < |Substitutes(role)| && Substitutes(role)[k] == r
         && forall j :: 0 <= j < k ==> Substitutes(role)[j] !in available
  }

  /** What one share of the table gives to `r`: half of the screens' share where both
      platforms are built, its own share, or that of an absent role it stands in for. */
  ghost function GivenTo(r: Role, role: Role, share: real, available: seq<Role>): real {
    if role == Frontend && Frontend in available && Mobile in available then
      if r in {Frontend, Mobile} then share / 2.0 else 0.0
    else if (r == role && role in available) || StandsIn(r, role, available) then share
    else 0.0
  }

  ghost function ShareHeld(shares: Shares, available: seq<Role>, r: Role): real {
    if shares == [] then 0.0
    else
      var last := shares[|shares| - 1];
      ShareHeld(shares[..|shares| - 1], available, r) + GivenTo(r, last.0, last.1, available)
  }

  lemma {:induction false} FirstAvailableAt(candidates: seq<Role>, available: seq<Role>)
    ensures match FirstAvailable(candidates, available)
            case None => forall j :: 0 <= j < |candidates| ==> candidates[j] !in available
            case Some(r) =>
              r in available
              && exists k ::
                   && 0 <= k < |candidates| && candidates[k] == r
                   && forall j :: 0 <= j < k ==> candidates[j] !in available
  {
    if candidates != [] && candidates[0] !in available {
      var rest := candidates[1..];
      FirstAvailableAt(rest, available);
      assert forall j :: 0 < j < |candidates| ==> candidates[j] == rest[j - 1];
      if FirstAvailable(rest, available).Some? {
        var k :|
          && 0 <= k < |rest| && rest[k] == FirstAvailable(rest, available).value
          && forall j :: 0 <= j < k ==> rest[j] !in available;
        assert candidates[k + 1] == rest[k];
      }
    } else if candidates != [] {
      assert candidates[0] == FirstAvailable(candidates, available).value;
    }
  }

  lemma ResolvedIs(role: Role, available: seq<Role>, r: Role)
    ensures ResolveRole(role, available) == Some(r)
       <==> (r == role && role in available) || StandsIn(r, role, available)
  {
    FirstAvailableAt(Substitutes(role), available);
  }

  lemma PlacedFor(resolved: Effort, role: Role, share: real, available: seq<Role>, r: Role)
    ensures Get(Place(resolved, role, share, available), r).GetOr(0.0)
         == Get(resolved, r).GetOr(0.0) + GivenTo(r, role, share, available)
  {
    ResolvedIs(role, available, r);
    if role == Frontend && TwoPlatforms(available) {
      AddedFor(resolved, Frontend, share / 2.0, r);
      AddedFor(Add(resolved, Frontend, share / 2.0), Mobile, share / 2.0, r);
    } else if ResolveRole(role, available).Some? {
      AddedFor(resolved, ResolveRole(role, available).value, share, r);
    }
  }

  lemma AddedFor(resolved: Effort, role: Role, share: real, r: Role)
    ensures Get(Add(resolved, role, share), r).GetOr(0.0)
         == Get(resolved, r).GetOr(0.0) + if r == role then share else 0.0
  {
    GetOfPut(resolved, role, Get(resolved, role).GetOr(0.0) + share, r);
  }

  /** Who holds what of the table, whatever the table and the project: each role its own
      share, those of the absent roles it is the first present substitute for, and half of
      a share that two platforms divide. */
  lemma {:induction false} ResolveGives(shares: Shares, available: seq<Role>, r: Role)
    ensures Get(Resolve(shares, available), r).GetOr(0.0) == ShareHeld(shares, available, r)
  {
    if shares != [] {
      var init, last := shares[..|shares| - 1], shares[|shares| - 1];
      ResolveGives(init, available, r);
      PlacedFor(Resolve(init, available), last.0, last.1, available, r);
    }
  }

  ghost predicate AllPositive(effort: Effort) {
    forall i :: 0 <= i < |effort| ==> effort[i].1 > 0.0
  }

  lemma AddPositive(resolved: Effort, role: Role, share: real)
    requires AllPositive(resolved) && Distinct(resolved) && share > 0.0
    ensures AllPositive(Add(resolved, role, share)) && Distinct(Add(resolved, role, share))
  {
    var value, after := Get(resolved, role).GetOr(0.0) + share, Add(resolved, role, share);
    PutShape(resolved, role, value);
    GetFinds(resolved, role);
    forall i | 0 <= i < |after| ensures after[i].1 > 0.0 {
      GetAt(after, i);
      GetOfPut(resolved, role, value, after[i].0);
      GetFinds(resolved, after[i].0);
    }
  }

  lemma {:induction false} ResolvePositive(shares: Shares, available: seq<Role>)
    requires Positive(shares)
    ensures AllPositive(Resolve(shares, available)) && Distinct(Resolve(shares, available))
    ensures Resolve(shares, available) == [] <==>
              forall i :: 0 <= i < |shares| ==> !IsCovered(shares[i].0, available)
  {
    if shares != [] {
      var init, last := shares[..|shares| - 1], shares[|shares| - 1];
      ResolvePositive(init, available);
      ShareDroppedIff(last.0, available);
      assert forall i :: 0 <= i < |init| ==> init[i] == shares[i];
      var resolved := Resolve(init, available);
      if last.0 == Frontend && TwoPlatforms(available) {
        AddPositive(resolved, Frontend, last.1 / 2.0);
        AddPositive(Add(resolved, Frontend, last.1 / 2.0), Mobile, last.1 / 2.0);
      } else if ResolveRole(last.0, available).Some? {
        AddPositive(resolved, ResolveRole(last.0, available).value, last.1);
      }
    }
  }

  /** Each part of a split is its role's share of the hours, to the nearest hundredth; and
      a role has a part exactly when it holds a share. */
  ghost predicate Divided(hours: real, shares: Shares, available: seq<Role>, parts: Effort) {
    var usable := UsableShare(shares, available);
    && usable > 0.0
    && (forall r :: r in Keys(parts) <==> ShareHeld(shares, available, r) > 0.0)
    && (forall i :: 0 <= i < |parts| ==>
          Near(parts[i].1, Portion(hours, ShareHeld(shares, available, parts[i].0), usable), 1))
  }

  /** All of the hours fall to the project's first role, or to the backend without any. */
  ghost predicate FallsToOne(hours: real, available: seq<Role>, parts: Effort) {
    && |parts| == 1 && parts[0].0 == (if available == [] then Backend else available[0])
    && Near(parts[0].1, hours, 1)
  }

  /** Who gets how much, for any table of positive shares and any project: by the shares
      held if anybody can do any of it, and else everything to one. */
  lemma SplitGives(hours: real, shares: Shares, available: seq<Role>)
    requires Positive(shares)
    ensures Resolve(shares, available) != [] ==> Sum(Resolve(shares, available)) > 0.0
    ensures if exists i :: 0 <= i < |shares| && IsCovered(shares[i].0, available)
            then Divided(hours, shares, available, Split(hours, shares, available))
            else FallsToOne(hours, available, Split(hours, shares, available))
  {
    var resolved := Resolve(shares, available);
    ResolvePositive(shares, available);
    ResolveConserves(shares, available);
    if resolved != [] {
      PositiveIsUsable(shares, available);
      ScaledGives(hours, shares, available);
    }
  }

  lemma ScaledGives(hours: real, shares: Shares, available: seq<Role>)
    requires var resolved := Resolve(shares, available);
      AllPositive(resolved) && Distinct(resolved) && Sum(resolved) == UsableShare(shares, available) > 0.0
    ensures Divided(hours, shares, available,
                    Scale(Resolve(shares, available), hours, UsableShare(shares, available)))
  {
    var resolved, usable := Resolve(shares, available), UsableShare(shares, available);
    var parts := Scale(resolved, hours, usable);
    ScaleShape(resolved, hours, usable);
    ScaledParts(resolved, hours, usable);
    forall i | 0 <= i < |parts|
      ensures Near(parts[i].1, Portion(hours, ShareHeld(shares, available, parts[i].0), usable), 1)
    {
      GetAt(resolved, i);
      ResolveGives(shares, available, resolved[i].0);
    }
    forall r ensures r in Keys(parts) <==> ShareHeld(shares, available, r) > 0.0 {
      assert Keys(parts) == Keys(resolved);
      ResolveGives(shares, available, r);
      GetFinds(resolved, r);
    }
  }

  lemma {:induction false} ScaledParts(resolved: Effort, hours: real, total: real)
    requires total > 0.0
    ensures var parts := Scale(resolved, hours, total);
      && |parts| == |resolved|
      && forall i :: 0 <= i < |parts| ==> Near(parts[i].1, Portion(hours, resolved[i].1, total), 1)
  {
    if resolved != [] {
      ScaledParts(resolved[1..], hours, total);
      RoundIsNear(Portion(hours, resolved[0].1, total));
      var parts := Scale(resolved, hours, total);
      assert forall i :: 1 <= i < |parts| ==> parts[i] == parts[1..][i - 1] && resolved[i] == resolved[1..][i - 1];
    }
  }

  /** The tables in use: positive shares that make up the whole of a line. */
  lemma TableIsWhole(category: TaskCategory)
    ensures Positive(RoleShares(category)) && Sum(RoleShares(category)) == 1.0
  {
    var shares := RoleShares(category);
    assert Sum(shares) == shares[0].1 + Sum(shares[1..]);
    if |shares| > 1 {
      assert shares[1..][1..] == shares[2..];
      assert Sum(shares[1..]) == shares[1].1 + Sum(shares[2..]);
      if |shares| > 2 { assert shares[2..][1..] == []; }
    }
  }

  lemma {:induction false} PositiveIsUsable(shares: Shares, available: seq<Role>)
    requires Positive(shares)
    ensures UsableShare(shares, available) >= 0.0
    ensures Resolve(shares, available) == [] || UsableShare(shares, available) > 0.0
  {
    if shares != [] {
      PositiveIsUsable(shares[..|shares| - 1], available);
      ShareDroppedIff(shares[|shares| - 1].0, available);
    }
  }

  /* ----------------------------------------------------------- as it is computed */

  method SplitAcrossRoles(hours: real, category: TaskCategory, available: seq<Role>) returns (effort: Effort)
    requires hours >= 0.0
    ensures Resolve(RoleShares(category), available) != [] ==> Sum(Resolve(RoleShares(category), available)) > 0.0
    ensures effort == Split(hours, RoleShares(category), available)
    ensures Near(Sum(effort), hours, |effort|)
    ensures if exists i :: 0 <= i < |RoleShares(category)| && IsCovered(RoleShares(category)[i].0, available)
            then Divided(hours, RoleShares(category), available, effort) else FallsToOne(hours, available, effort)
    ensures forall i :: 0 <= i < |effort| ==> effort[i].0 in available || (available == [] && effort[i].0 == Backend)
  {
    var shares := RoleShares(category);
    TableIsWhole(category);
    PositiveIsUsable(shares, available);
    SplitLosesNothing(hours, shares, available);
    SplitGives(hours, shares, available);
    var resolved := ResolveShares(shares, available);
    if resolved == [] { return [(if available == [] then Backend else available[0], Round2(hours))]; }
    var total := 0.0;
    for i := 0 to |resolved|
      invariant total + Sum(resolved[i..]) == Sum(resolved)
    {
      assert resolved[i..][1..] == resolved[i + 1..];
      total := total + resolved[i].1;
    }
    assert resolved[|resolved|..] == [];
    effort := Scale(resolved, hours, total);
  }

  method ResolveShares(shares: Shares, available: seq<Role>) returns (resolved: Effort)
    ensures resolved == Resolve(shares, available)
  {
    resolved := [];
    for i := 0 to |shares|
      invariant resolved == Resolve(shares[..i], available)
    {
      assert shares[..i + 1][..i] == shares[..i];
      var (role, share) := shares[i];
      if role == Frontend && TwoPlatforms(available) {
        resolved := Add(resolved, Frontend, share / 2.0);
        resolved := Add(resolved, Mobile, share / 2.0);
      } else {
        var target := ResolveRole(role, available);
        if target.Some? { resolved := Add(resolved, target.value, share); }
      }
    }
    assert shares[..|shares|] == shares;
  }
}
