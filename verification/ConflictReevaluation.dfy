/** Contradictions, and what a confirmed answer may do to them. */
module ConflictReevaluation {
  import opened Wrappers

  datatype ConflictStatus =
    | Open | StillConflicting | ResolvedByClarification | NeedsReview
    | Resolved | DismissedConflict | AcceptedRisk | SupersededConflict

  /** Settled by a person, or for lack of anything left to contradict. */
  const HUMAN_SETTLED: set<ConflictStatus> := {Resolved, DismissedConflict, AcceptedRisk, SupersededConflict}
  const BLOCKING: set<ConflictStatus> := {Open, StillConflicting, NeedsReview}

  datatype Condition =
    | ConfirmedAnswer | NotAnAssumption | LinkedToConflict | AllPositionsAddressed | UpdatesApplied | SemanticAgreement

  const CONDITIONS: seq<Condition> :=
    [ConfirmedAnswer, NotAnAssumption, LinkedToConflict, AllPositionsAddressed, UpdatesApplied, SemanticAgreement]

  datatype Facts = Facts(
    answerConfirmed: bool, isAssumption: bool, linked: seq<string>, positions: seq<string>,
    applied: seq<string>, proposed: seq<string>, semanticAgreement: bool)

  datatype Verdict = Verdict(status: ConflictStatus, met: seq<Condition>, failed: seq<Condition>)

  predicate Holds(facts: Facts, condition: Condition) {
    match condition
    case ConfirmedAnswer => facts.answerConfirmed
    case NotAnAssumption => !facts.isAssumption
    case LinkedToConflict => |facts.linked| > 0
    case AllPositionsAddressed =>
      |facts.positions| > 0 && forall id :: id in facts.positions ==> id in facts.applied || id in facts.proposed
    case UpdatesApplied => |facts.positions| > 0 && forall id :: id in facts.positions ==> id in facts.applied
    case SemanticAgreement => facts.semanticAgreement
  }

  function Filter(conditions: seq<Condition>, facts: Facts, wanted: bool): seq<Condition> {
    if conditions == [] then []
    else (if Holds(facts, conditions[0]) == wanted then [conditions[0]]
      else []) + Filter(conditions[1..], facts, wanted)
  }

  function Evaluate(facts: Facts): Verdict {
    var met, failed := Filter(CONDITIONS, facts, true), Filter(CONDITIONS, facts, false);
    if |failed| == 0 then Verdict(ResolvedByClarification, met, failed)
    else if !Holds(facts, LinkedToConflict) && |facts.applied| == 0 then Verdict(Open, met, failed)
    else Verdict(if Holds(facts, AllPositionsAddressed) then NeedsReview else StillConflicting, met, failed)
  }

  lemma {:induction false} FilterHas(conditions: seq<Condition>, facts: Facts, wanted: bool, c: Condition)
    ensures c in Filter(conditions, facts, wanted) <==> c in conditions && Holds(facts, c) == wanted
  {
    if conditions != [] { FilterHas(conditions[1..], facts, wanted, c); }
  }

  lemma EveryConditionListed(c: Condition)
    ensures c in CONDITIONS
  {
    match c
    case ConfirmedAnswer => assert CONDITIONS[0] == c;
    case NotAnAssumption => assert CONDITIONS[1] == c;
    case LinkedToConflict => assert CONDITIONS[2] == c;
    case AllPositionsAddressed => assert CONDITIONS[3] == c;
    case UpdatesApplied => assert CONDITIONS[4] == c;
    case SemanticAgreement => assert CONDITIONS[5] == c;
  }

  /** A conflict is settled by an answer exactly when all six conditions hold; otherwise it
      goes on blocking, and the failed conditions listed are exactly the ones that fail. */
  lemma SettledIffAllHold(facts: Facts)
    ensures Evaluate(facts).status == ResolvedByClarification <==> forall c: Condition :: Holds(facts, c)
    ensures Evaluate(facts).status != ResolvedByClarification ==> Evaluate(facts).status in BLOCKING
    ensures forall c: Condition :: c in Evaluate(facts).failed <==> !Holds(facts, c)
    ensures forall c: Condition :: c in Evaluate(facts).met <==> Holds(facts, c)
  {
    forall c: Condition
      ensures c in Evaluate(facts).failed <==> !Holds(facts, c)
      ensures c in Evaluate(facts).met <==> Holds(facts, c)
    {
      EveryConditionListed(c);
      FilterHas(CONDITIONS, facts, false, c);
      FilterHas(CONDITIONS, facts, true, c);
    }
    if |Evaluate(facts).failed| > 0 { assert Evaluate(facts).failed[0] in Evaluate(facts).failed; }
  }

  /** The model may only withhold. Its agreement changes the verdict in one case: the
      stored facts alone meet the other five conditions, and then only from needing review
      to settled. */
  lemma ModelOnlyWithholds(facts: Facts)
    ensures var agreed, not := Evaluate(facts.(semanticAgreement := true)).status,
                               Evaluate(facts.(semanticAgreement := false)).status;
      && not in BLOCKING
      && (agreed != not <==> forall c: Condition :: c != SemanticAgreement ==> Holds(facts, c))
      && (agreed != not ==> agreed == ResolvedByClarification && not == NeedsReview)
  {
    var yes, no := facts.(semanticAgreement := true), facts.(semanticAgreement := false);
    SettledIffAllHold(yes);
    SettledIffAllHold(no);
    OnlyAgreementMoves(facts);
    if forall c: Condition :: c != SemanticAgreement ==> Holds(facts, c) {
      assert Holds(facts, LinkedToConflict) && Holds(facts, AllPositionsAddressed);
    }
  }

  /** What an answer makes of a conflict, in the stored facts alone. It is left open by an
      answer that has nothing to do with it; it needs review once every position has been
      applied or at least proposed; and otherwise the positions still contradict. */
  lemma StatusIs(facts: Facts)
    ensures var addressed := facts.positions != []
        && forall id :: id in facts.positions ==> id in facts.applied || id in facts.proposed;
      var applied := facts.positions != [] && forall id :: id in facts.positions ==> id in facts.applied;
      Evaluate(facts).status ==
        if facts.answerConfirmed && !facts.isAssumption && facts.linked != [] && applied && facts.semanticAgreement
        then ResolvedByClarification
        else if facts.linked == [] && facts.applied == [] then Open
        else if addressed then NeedsReview else StillConflicting
  {
    SettledIffAllHold(facts);
    var verdict := Evaluate(facts);
    if verdict.status == ResolvedByClarification {
      assert Holds(facts, ConfirmedAnswer) && Holds(facts, NotAnAssumption) && Holds(facts, LinkedToConflict)
          && Holds(facts, UpdatesApplied) && Holds(facts, SemanticAgreement);
    } else {
      assert exists c: Condition :: !Holds(facts, c);
    }
  }

  /** In particular an answer linked to a conflict whose updates are all still proposals
      leaves it needing review, confirmed or not and whatever the model says. */
  lemma OnlyProposedNeedsReview(facts: Facts)
    requires facts.linked != [] && facts.positions != []
    requires forall id :: id in facts.positions ==> id in facts.proposed
    requires exists id :: id in facts.positions && id !in facts.applied
    ensures Evaluate(facts).status == NeedsReview
  {
    StatusIs(facts);
  }

  lemma OnlyAgreementMoves(facts: Facts)
    ensures var yes, no := facts.(semanticAgreement := true), facts.(semanticAgreement := false);
      && (forall c: Condition :: c != SemanticAgreement ==>
         (Holds(yes, c) <==> Holds(facts, c)) && (Holds(no, c) <==> Holds(facts, c)))
      && !Holds(no, SemanticAgreement) && Holds(yes, SemanticAgreement)
  {
  }

  /* ------------------------------------------------------------- the records */

  datatype Reevaluation = Reevaluation(
    clarificationId: string, answerVersion: nat, previousStatus: ConflictStatus, resultingStatus: ConflictStatus,
    previousVersion: nat, resultingVersion: nat, met: seq<Condition>, failed: seq<Condition>)

  datatype ConflictRecord = ConflictRecord(
    status: ConflictStatus, itemIds: seq<string>, positions: seq<string>, reevaluations: seq<Reevaluation>,
    version: nat)

  /** A conflict as it stood before a change. */
  datatype Snapshot = Snapshot(
    conflictId: string, version: nat, status: ConflictStatus, itemIds: seq<string>, positions: seq<string>)

  type Conflicts = map<string, ConflictRecord>

  datatype Ledger = Ledger(conflicts: Conflicts, snapshots: seq<Snapshot>)

  datatype Input = Input(
    clarificationId: string, answerVersion: nat, answerConfirmed: bool, isAssumption: bool,
    linkedItemIds: set<string>, linkedFindingIds: set<string>, appliedItemIds: set<string>,
    proposedItemIds: set<string>)

  function Among(ids: seq<string>, wanted: set<string>): seq<string> {
    if ids == [] then [] else (if ids[0] in wanted then [ids[0]] else []) + Among(ids[1..], wanted)
  }

  predicate InScope(input: Input, id: string, conflict: ConflictRecord) {
    || id in input.linkedFindingIds
    || exists itemId :: itemId in conflict.itemIds
         && itemId in input.appliedItemIds + input.proposedItemIds + input.linkedItemIds
  }

  /** `agreement` has the conflicts the model said the answer settles, with what it said. */
  function FactsOf(input: Input, id: string, conflict: ConflictRecord, agreement: map<string, bool>): Facts {
    Facts(input.answerConfirmed, input.isAssumption,
          Among(conflict.itemIds, input.linkedItemIds), conflict.positions,
          Among(conflict.positions, input.appliedItemIds), Among(conflict.positions, input.proposedItemIds),
          id in agreement && agreement[id])
  }

  function SnapshotOf(id: string, conflict: ConflictRecord): Snapshot {
    Snapshot(id, conflict.version, conflict.status, conflict.itemIds, conflict.positions)
  }

  function RecordOf(input: Input, conflict: ConflictRecord, verdict: Verdict): Reevaluation {
    Reevaluation(input.clarificationId, input.answerVersion, conflict.status, verdict.status,
                 conflict.version, conflict.version + 1, verdict.met, verdict.failed)
  }

  /** Nothing moved, and the answer is not even linked: not worth recording. */
  predicate PassesOver(facts: Facts, verdict: Verdict, conflict: ConflictRecord) {
    verdict.status == conflict.status && |facts.linked| == 0 && |facts.applied| == 0
  }

  function WriteConflict(conflicts: Conflicts, id: string, expected: nat, status: ConflictStatus,
                         reevaluations: seq<Reevaluation>)
    : Conflicts
  {
    if id in conflicts && conflicts[id].version == expected
    then conflicts[id := conflicts[id].(status := status, reevaluations := reevaluations, version := expected + 1)]
    else conflicts
  }

  /** One conflict, judged as it was read before the model was asked. */
  function ReevaluateOne(ledger: Ledger, input: Input, id: string, read: ConflictRecord,
                         agreement: map<string, bool>): Ledger {
    var facts := FactsOf(input, id, read, agreement);
    var verdict := Evaluate(facts);
    if !InScope(input, id, read) || read.status in HUMAN_SETTLED || PassesOver(facts, verdict, read) then ledger
    else Ledger(
      WriteConflict(ledger.conflicts, id, read.version, verdict.status,
          read.reevaluations + [RecordOf(input, read, verdict)]),
      ledger.snapshots + [SnapshotOf(id, read)])
  }

  type Reading = seq<(string, ConflictRecord)>

  /** What one re-evaluation decided, unless it passed the conflict over or somebody had
      changed the conflict since it was read. */
  function Landed(ledger: Ledger, input: Input, id: string, read: ConflictRecord,
                  agreement: map<string, bool>): seq<Reevaluation> {
    var verdict := Evaluate(FactsOf(input, id, read, agreement));
    if ReevaluateOne(ledger, input, id, read, agreement).conflicts != ledger.conflicts
      then [RecordOf(input, read, verdict)] else []
  }

  function LandedRecords(ledger: Ledger, input: Input, read: Reading, agreement: map<string, bool>): seq<Reevaluation>
    decreases |read|
  {
    if read == [] then []
    else
      var last, before := read[|read| - 1], Reevaluate(ledger, input, read[..|read| - 1], agreement);
      LandedRecords(ledger, input, read[..|read| - 1], agreement) + Landed(before, input, last.0, last.1, agreement)
  }

  function Reevaluate(ledger: Ledger, input: Input, read: Reading, agreement: map<string, bool>): Ledger
    decreases |read|
  {
    if read == [] then ledger
    else
      var last := read[|read| - 1];
      ReevaluateOne(Reevaluate(ledger, input, read[..|read| - 1], agreement), input, last.0, last.1, agreement)
  }

  datatype Event =
    | Answered(input: Input, read: Reading, agreement: map<string, bool>)
    /** A person chooses, rewrites, accepts or asks: only an open conflict. */
    | Decide(id: string, expected: nat, asksClient: bool)
    /** A person sets any status directly. */
    | SetStatus(id: string, expected: nat, status: ConflictStatus)
    /** The regular recheck: an open conflict none of whose requirements is left is closed. */
    | Recheck(id: string, live: set<string>)

  function Next(ledger: Ledger, event: Event): Ledger {
    match event
    case Answered(input, read, agreement) => Reevaluate(ledger, input, read, agreement)
    case Decide(id, expected, asksClient) =>
      if id !in ledger.conflicts || ledger.conflicts[id].status != Open then ledger
      else Ledger(WriteConflict(ledger.conflicts, id, expected, if asksClient then Open else Resolved,
                                ledger.conflicts[id].reevaluations),
                  ledger.snapshots + [SnapshotOf(id, ledger.conflicts[id])])
    case SetStatus(id, expected, status) =>
      if id !in ledger.conflicts then ledger
      else ledger.(conflicts :=
        WriteConflict(ledger.conflicts, id, expected, status, ledger.conflicts[id].reevaluations))
    case Recheck(id, live) =>
      if id !in ledger.conflicts || ledger.conflicts[id].status != Open || ledger.conflicts[id].itemIds == []
         || (exists itemId :: itemId in ledger.conflicts[id].itemIds && itemId in live) then ledger
      else ledger.(conflicts :=
        WriteConflict(ledger.conflicts, id, ledger.conflicts[id].version, Resolved, ledger.conflicts[id].reevaluations))
  }

  function Run(ledger: Ledger, events: seq<Event>): Ledger
    decreases |events|
  {
    if events == [] then ledger else Run(Next(ledger, events[0]), events[1..])
  }

  /* ------------------------------------------------------------- what is kept */

  /** Conflicts read at an earlier moment: the version has moved on, or nothing has. */
  ghost predicate ReadEarlier(read: Reading, conflicts: Conflicts) {
    forall k :: 0 <= k < |read| ==>
      && read[k].0 in conflicts && read[k].1.version <= conflicts[read[k].0].version
      && (read[k].1.version == conflicts[read[k].0].version ==> read[k].1 == conflicts[read[k].0])
  }

  /** A conflict's record only grows, whoever writes it. */
  ghost predicate Grows(earlier: ConflictRecord, later: ConflictRecord) {
    && earlier.reevaluations <= later.reevaluations && earlier.version <= later.version
    && earlier.itemIds == later.itemIds && earlier.positions == later.positions
    && (earlier.version == later.version ==> earlier == later)
  }

  ghost predicate AllGrow(earlier: Conflicts, later: Conflicts) {
    earlier.Keys == later.Keys && forall id :: id in earlier ==> Grows(earlier[id], later[id])
  }

  /** Every recorded re-evaluation has a snapshot of the conflict as it stood before. */
  ghost predicate Documented(ledger: Ledger) {
    forall id, k :: id in ledger.conflicts && 0 <= k < |ledger.conflicts[id].reevaluations| ==>
      HasSnapshot(ledger.snapshots, id, ledger.conflicts[id].reevaluations[k])
  }

  ghost predicate HasSnapshot(snapshots: seq<Snapshot>, id: string, entry: Reevaluation) {
    entry.resultingVersion == entry.previousVersion + 1
    && exists s ::
         s in snapshots && s.conflictId == id && s.version == entry.previousVersion && s.status == entry.previousStatus
  }

  /** What one re-evaluation may do. */
  ghost predicate Careful(before: Ledger, after: Ledger) {
    && AllGrow(before.conflicts, after.conflicts)
    && before.snapshots <= after.snapshots
    && forall id :: id in before.conflicts ==>
         (before.conflicts[id].status in HUMAN_SETTLED ==> after.conflicts[id] == before.conflicts[id])
  }

  /** A changed conflict had its snapshot taken as it stood. */
  ghost predicate SnapshotFirst(before: Ledger, after: Ledger) {
    forall id :: id in before.conflicts && id in after.conflicts && after.conflicts[id] != before.conflicts[id] ==>
      SnapshotOf(id, before.conflicts[id]) in after.snapshots
  }

  lemma OneIsCareful(ledger: Ledger, input: Input, id: string, read: ConflictRecord, agreement: map<string, bool>)
    requires ReadEarlier([(id, read)], ledger.conflicts) && Documented(ledger)
    ensures var after := ReevaluateOne(ledger, input, id, read, agreement);
      Careful(ledger, after) && SnapshotFirst(ledger, after) && Documented(after)
  {
    var after := ReevaluateOne(ledger, input, id, read, agreement);
    assert [(id, read)][0] == (id, read);
    if after != ledger {
      assert after.snapshots[|ledger.snapshots|] == SnapshotOf(id, read);
      forall c, k | c in after.conflicts && 0 <= k < |after.conflicts[c].reevaluations|
        ensures HasSnapshot(after.snapshots, c, after.conflicts[c].reevaluations[k])
      {
        if c in ledger.conflicts && k < |ledger.conflicts[c].reevaluations| {
          assert HasSnapshot(ledger.snapshots, c, ledger.conflicts[c].reevaluations[k]);
        } else {
          assert SnapshotOf(id, read) in after.snapshots;
        }
      }
    }
  }

  lemma ReadingSurvives(read: Reading, a: Conflicts, b: Conflicts)
    requires ReadEarlier(read, a) && AllGrow(a, b)
    ensures ReadEarlier(read, b)
  {
  }

  lemma CarefulTwice(a: Ledger, b: Ledger, c: Ledger)
    requires Careful(a, b) && Careful(b, c) && SnapshotFirst(a, b) && SnapshotFirst(b, c)
    ensures Careful(a, c) && SnapshotFirst(a, c)
  {
    forall id | id in a.conflicts && c.conflicts[id] != a.conflicts[id]
      ensures SnapshotOf(id, a.conflicts[id]) in c.snapshots {
      if b.conflicts[id] == a.conflicts[id] {
        assert SnapshotOf(id, b.conflicts[id]) in c.snapshots;
      } else {
        var k :| 0 <= k < |b.snapshots| && b.snapshots[k] == SnapshotOf(id, a.conflicts[id]);
        assert c.snapshots[k] == b.snapshots[k];
      }
    }
  }

  /** A re-evaluation, from conflicts read however long before: what a person settled is
      untouched, records only grow, and every conflict it changes was snapshotted first,
      exactly as it stood. */
  lemma {:induction false} ReevaluationIsCareful(ledger: Ledger, input: Input, read: Reading,
                                                 agreement: map<string, bool>)
    requires ReadEarlier(read, ledger.conflicts) && Documented(ledger)
    ensures var after := Reevaluate(ledger, input, read, agreement);
      Careful(ledger, after) && SnapshotFirst(ledger, after) && Documented(after)
    decreases |read|
  {
    if read != [] {
      var init, last := read[..|read| - 1], read[|read| - 1];
      assert forall k :: 0 <= k < |init| ==> init[k] == read[k];
      ReevaluationIsCareful(ledger, input, init, agreement);
      var before := Reevaluate(ledger, input, init, agreement);
      ReadingSurvives([last], ledger.conflicts, before.conflicts);
      OneIsCareful(before, input, last.0, last.1, agreement);
      CarefulTwice(ledger, before, Reevaluate(ledger, input, read, agreement));
    }
  }

  ghost predicate FairRun(ledger: Ledger, events: seq<Event>)
    decreases |events|
  {
    events != [] ==>
      && (events[0].Answered? ==> ReadEarlier(events[0].read, ledger.conflicts))
      && FairRun(Next(ledger, events[0]), events[1..])
  }

  lemma NextIsKept(ledger: Ledger, event: Event)
    requires Documented(ledger)
    requires event.Answered? ==> ReadEarlier(event.read, ledger.conflicts)
    ensures var after := Next(ledger, event);
      AllGrow(ledger.conflicts, after.conflicts) && ledger.snapshots <= after.snapshots && Documented(after)
  {
    var after := Next(ledger, event);
    if event.Answered? {
      ReevaluationIsCareful(ledger, event.input, event.read, event.agreement);
    } else {
      forall id, k | id in after.conflicts && 0 <= k < |after.conflicts[id].reevaluations|
        ensures HasSnapshot(after.snapshots, id, after.conflicts[id].reevaluations[k])
      {
        assert after.conflicts[id].reevaluations == ledger.conflicts[id].reevaluations;
        assert HasSnapshot(ledger.snapshots, id, ledger.conflicts[id].reevaluations[k]);
      }
    }
  }

  /** Over every run of re-evaluations, decisions and rechecks: no re-evaluation record is
      ever lost or changed, and each one has the snapshot that was taken before it. */
  lemma {:induction false} RecordsOnlyGrow(ledger: Ledger, events: seq<Event>)
    requires Documented(ledger) && FairRun(ledger, events)
    ensures AllGrow(ledger.conflicts, Run(ledger, events).conflicts)
    ensures ledger.snapshots <= Run(ledger, events).snapshots && Documented(Run(ledger, events))
    decreases |events|
  {
    if events != [] {
      NextIsKept(ledger, events[0]);
      RecordsOnlyGrow(Next(ledger, events[0]), events[1..]);
    }
  }

  /** Over every run, a conflict a person settled stays as it is until a person sets its
      status again: no answer, model or recheck moves it. */
  lemma {:induction false} HumanSettlementStands(ledger: Ledger, events: seq<Event>, id: string)
    requires Documented(ledger) && FairRun(ledger, events)
    requires id in ledger.conflicts && ledger.conflicts[id].status in HUMAN_SETTLED
    requires forall i :: 0 <= i < |events| ==> !(events[i].SetStatus? && events[i].id == id)
    ensures id in Run(ledger, events).conflicts && Run(ledger, events).conflicts[id] == ledger.conflicts[id]
    decreases |events|
  {
    if events != [] {
      NextIsKept(ledger, events[0]);
      if events[0].Answered? {
        ReevaluationIsCareful(ledger, events[0].input, events[0].read, events[0].agreement);
      }
      assert forall i :: 0 <= i < |events[1..]| ==> events[1..][i] == events[i + 1];
      HumanSettlementStands(Next(ledger, events[0]), events[1..], id);
    }
  }

  /* ------------------------------------------------------ where it is not so kept */

  /** A conflict an earlier answer settled stays settled through a later answer exactly
      when the later answer does not reach it, or settles it again on its own: the first
      answer's merits are not consulted. */
  lemma SettlementSurvivesIff(ledger: Ledger, input: Input, id: string, agreement: map<string, bool>)
    requires id in ledger.conflicts && ledger.conflicts[id].status == ResolvedByClarification
    ensures var conflict := ledger.conflicts[id];
      var after := ReevaluateOne(ledger, input, id, conflict, agreement);
      id in after.conflicts
      && (after.conflicts[id].status == ResolvedByClarification <==>
            !InScope(input, id, conflict) || forall c: Condition :: Holds(FactsOf(input, id, conflict, agreement), c))
  {
    SettledIffAllHold(FactsOf(input, id, ledger.conflicts[id], agreement));
  }

  /** An answer with only a proposal waiting on one of a settled conflict's requirements,
      and not linked to it, reopens the conflict. */
  lemma BystanderReopens(ledger: Ledger, input: Input, id: string, agreement: map<string, bool>, itemId: string)
    requires id in ledger.conflicts && ledger.conflicts[id].status == ResolvedByClarification
    requires itemId in ledger.conflicts[id].itemIds && itemId in input.proposedItemIds
    requires Among(ledger.conflicts[id].itemIds, input.linkedItemIds) == []
    requires Among(ledger.conflicts[id].positions, input.appliedItemIds) == []
    ensures var after := ReevaluateOne(ledger, input, id, ledger.conflicts[id], agreement);
      id in after.conflicts && after.conflicts[id].status == Open
  {
    UntouchedIsOpen(FactsOf(input, id, ledger.conflicts[id], agreement));
  }

  lemma UntouchedIsOpen(facts: Facts)
    requires |facts.linked| == 0 && |facts.applied| == 0
    ensures Evaluate(facts).status == Open
  {
    EveryConditionListed(LinkedToConflict);
    FilterHas(CONDITIONS, facts, false, LinkedToConflict);
  }

  /** Setting a status directly, and the regular recheck, are the two changes that leave no
      snapshot behind. */
  lemma ChangesWithoutSnapshotIff(ledger: Ledger, event: Event, id: string)
    requires Documented(ledger) && id in ledger.conflicts
    requires event.Answered? ==> ReadEarlier(event.read, ledger.conflicts)
    ensures id in Next(ledger, event).conflicts
    ensures Next(ledger, event).conflicts[id] != ledger.conflicts[id]
              && SnapshotOf(id, ledger.conflicts[id]) !in Next(ledger, event).snapshots
       <==> (event.SetStatus? || event.Recheck?) && Next(ledger, event).conflicts[id] != ledger.conflicts[id]
              && SnapshotOf(id, ledger.conflicts[id]) !in ledger.snapshots
  {
    if event.Answered? {
      ReevaluationIsCareful(ledger, event.input, event.read, event.agreement);
    } else if event.Decide? && Next(ledger, event).conflicts[id] != ledger.conflicts[id] {
      assert Next(ledger, event).snapshots[|ledger.snapshots|] == SnapshotOf(id, ledger.conflicts[id]);
    }
  }

  /* --------------------------------------------------------------- as stored */

  class ConflictReevaluator {
    var conflicts: Conflicts
    var snapshots: seq<Snapshot>

    constructor ()
      ensures conflicts == map[] && snapshots == []
    {
      conflicts, snapshots := map[], [];
    }

    function State(): Ledger
      reads this
    {
      Ledger(conflicts, snapshots)
    }

    method RecordConflictVersion(snapshot: Snapshot)
      modifies this`snapshots
      ensures snapshots == old(snapshots) + [snapshot]
    {
      snapshots := snapshots + [snapshot];
    }

    method UpdateFinding(id: string, expected: nat, status: ConflictStatus, reevaluations: seq<Reevaluation>)
        returns (updated: bool)
      modifies this`conflicts
      ensures updated <==> id in old(conflicts) && old(conflicts)[id].version == expected
      ensures conflicts == WriteConflict(old(conflicts), id, expected, status, reevaluations)
    {
      updated := id in conflicts && conflicts[id].version == expected;
      if updated {
        conflicts := conflicts[id :=
            conflicts[id].(status := status, reevaluations := reevaluations, version := expected + 1)];
      }
    }

    /** Judge every conflict in scope, as read before the model was asked; `records` says
        what was decided, for the conflicts nobody else had changed in the meantime. */
    method ReevaluateAll(input: Input, read: Reading, agreement: map<string, bool>) returns (records: seq<Reevaluation>)
      modifies this
      ensures State() == Reevaluate(old(State()), input, read, agreement)
      ensures records == LandedRecords(old(State()), input, read, agreement)
    {
      ghost var before := State();
      records := [];
      for i := 0 to |read|
        invariant State() == Reevaluate(before, input, read[..i], agreement)
        invariant records == LandedRecords(before, input, read[..i], agreement)
      {
        assert read[..i + 1][..i] == read[..i];
        var id, conflict := read[i].0, read[i].1;
        if !InScope(input, id, conflict) || conflict.status in HUMAN_SETTLED { continue; }
        var facts := FactsOf(input, id, conflict, agreement);
        var verdict := Evaluate(facts);
        if PassesOver(facts, verdict, conflict) { continue; }
        RecordConflictVersion(SnapshotOf(id, conflict));
        var record := RecordOf(input, conflict, verdict);
        var updated := UpdateFinding(id, conflict.version, verdict.status, conflict.reevaluations + [record]);
        if updated { records := records + [record]; }
      }
      assert read[..|read|] == read;
    }
  }
}
