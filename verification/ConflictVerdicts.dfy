/** What a confirmed answer makes of every conflict it was read with, in terms of the
    stored facts alone. */
module ConflictVerdicts {
  import opened Wrappers
  import opened ConflictReevaluation

  /** The answer is linked to one of the conflict's requirements. */
  ghost predicate Linked(input: Input, conflict: ConflictRecord) {
    exists itemId :: itemId in conflict.itemIds && itemId in input.linkedItemIds
  }

  /** One of the positions has been rewritten by the answer. */
  ghost predicate Touched(input: Input, conflict: ConflictRecord) {
    exists itemId :: itemId in conflict.positions && itemId in input.appliedItemIds
  }

  ghost predicate EveryPosition(conflict: ConflictRecord, among: set<string>) {
    conflict.positions != [] && forall itemId :: itemId in conflict.positions ==> itemId in among
  }

  /** The verdict. An answer that has nothing to do with the conflict leaves it open; it is
      settled if everything holds; and short of that it needs review once every position
      has been rewritten or is at least proposed. */
  ghost function StatusFor(input: Input, conflict: ConflictRecord, agreed: bool): ConflictStatus {
    if input.answerConfirmed && !input.isAssumption && Linked(input, conflict)
       && EveryPosition(conflict, input.appliedItemIds) && agreed then ResolvedByClarification
    else if !Linked(input, conflict) && !Touched(input, conflict) then Open
    else if EveryPosition(conflict, input.appliedItemIds + input.proposedItemIds) then NeedsReview
    else StillConflicting
  }

  /** The answer bears on the conflict: it names it, or one of its requirements. */
  ghost predicate BearsOn(input: Input, id: string, conflict: ConflictRecord) {
    || id in input.linkedFindingIds
    || exists itemId ::
         && itemId in conflict.itemIds
         && (itemId in input.appliedItemIds || itemId in input.proposedItemIds || itemId in input.linkedItemIds)
  }

  /** The verdict is written: nobody has changed the conflict since it was read, no person
      has settled it, the answer bears on it, and the verdict is news or the answer is
      linked to it or has rewritten one of its positions. */
  ghost predicate IsWritten(input: Input, id: string, read: ConflictRecord, stored: ConflictRecord, agreed: bool) {
    && stored.version == read.version && BearsOn(input, id, stored)
    && stored.status !in {Resolved, DismissedConflict, AcceptedRisk, SupersededConflict}
    && (StatusFor(input, stored, agreed) != stored.status || Linked(input, stored) || Touched(input, stored))
  }

  /** A conflict with its verdict: the new status, and an entry that says what it was. */
  ghost predicate Judged(input: Input, was: ConflictRecord, now: ConflictRecord, agreed: bool) {
    && now.itemIds == was.itemIds && now.positions == was.positions && now.version == was.version + 1
    && now.status == StatusFor(input, was, agreed)
    && |now.reevaluations| == |was.reevaluations| + 1 && was.reevaluations <= now.reevaluations
    && var entry := now.reevaluations[|was.reevaluations|];
    && entry.clarificationId == input.clarificationId && entry.answerVersion == input.answerVersion
    && entry.previousStatus == was.status && entry.resultingStatus == now.status
    && entry.previousVersion == was.version && entry.resultingVersion == now.version
  }

  lemma {:induction false} AmongHas(ids: seq<string>, wanted: set<string>, id: string)
    ensures id in Among(ids, wanted) <==> id in ids && id in wanted
  {
    if ids != [] { AmongHas(ids[1..], wanted, id); }
  }

  lemma SomeAmong(ids: seq<string>, wanted: set<string>)
    ensures Among(ids, wanted) != [] <==> exists id :: id in ids && id in wanted
  {
    var among := Among(ids, wanted);
    if among != [] {
      AmongHas(ids, wanted, among[0]);
    } else if id :| id in ids && id in wanted {
      AmongHas(ids, wanted, id);
    }
  }

  lemma VerdictIs(input: Input, id: string, conflict: ConflictRecord, agreement: map<string, bool>)
    ensures Evaluate(FactsOf(input, id, conflict, agreement)).status
         == StatusFor(input, conflict, id in agreement && agreement[id])
    ensures FactsOf(input, id, conflict, agreement).linked != [] <==> Linked(input, conflict)
    ensures FactsOf(input, id, conflict, agreement).applied != [] <==> Touched(input, conflict)
  {
    var facts := FactsOf(input, id, conflict, agreement);
    StatusIs(facts);
    SomeAmong(conflict.itemIds, input.linkedItemIds);
    SomeAmong(conflict.positions, input.appliedItemIds);
    forall itemId | itemId in conflict.positions
      ensures itemId in facts.applied <==> itemId in input.appliedItemIds
      ensures itemId in facts.proposed <==> itemId in input.proposedItemIds
    {
      AmongHas(conflict.positions, input.appliedItemIds, itemId);
      AmongHas(conflict.positions, input.proposedItemIds, itemId);
    }
  }

  lemma OneVerdict(ledger: Ledger, input: Input, id: string, read: ConflictRecord, agreement: map<string, bool>)
    requires id in ledger.conflicts && (read.version == ledger.conflicts[id].version ==> read == ledger.conflicts[id])
    ensures var after := ReevaluateOne(ledger, input, id, read, agreement).conflicts;
      var was, agreed := ledger.conflicts[id], id in agreement && agreement[id];
      && id in after
      && (IsWritten(input, id, read, was, agreed) ==> Judged(input, was, after[id], agreed))
      && (!IsWritten(input, id, read, was, agreed) ==> after[id] == was)
  {
    VerdictIs(input, id, read, agreement);
    assert InScope(input, id, read) <==> BearsOn(input, id, read);
  }

  lemma {:induction false} UnreadStays(ledger: Ledger, input: Input, read: Reading, agreement: map<string, bool>,
                                       id: string)
    requires id in ledger.conflicts && forall k :: 0 <= k < |read| ==> read[k].0 != id
    ensures id in Reevaluate(ledger, input, read, agreement).conflicts
    ensures Reevaluate(ledger, input, read, agreement).conflicts[id] == ledger.conflicts[id]
    decreases |read|
  {
    if read != [] {
      assert forall k :: 0 <= k < |read| - 1 ==> read[..|read| - 1][k] == read[k];
      UnreadStays(ledger, input, read[..|read| - 1], agreement, id);
    }
  }

  /** One re-evaluation, over all the conflicts it was read with: each has the verdict of
      the stored facts and an entry for it exactly if the verdict may be written, and is as
      it was if not. */
  lemma {:induction false} ReevaluationWrites(ledger: Ledger, input: Input, read: Reading,
                                              agreement: map<string, bool>, k: nat)
    requires ReadEarlier(read, ledger.conflicts) && k < |read|
    requires forall i, j :: 0 <= i < j < |read| ==> read[i].0 != read[j].0
    ensures var id, after := read[k].0, Reevaluate(ledger, input, read, agreement).conflicts;
      var was, agreed := ledger.conflicts[id], id in agreement && agreement[id];
      && id in after
      && (IsWritten(input, id, read[k].1, was, agreed) ==> Judged(input, was, after[id], agreed))
      && (!IsWritten(input, id, read[k].1, was, agreed) ==> after[id] == was)
    decreases |read|
  {
    var init, last := read[..|read| - 1], read[|read| - 1];
    var before := Reevaluate(ledger, input, init, agreement);
    assert forall i :: 0 <= i < |init| ==> init[i] == read[i];
    if k == |read| - 1 {
      UnreadStays(ledger, input, init, agreement, last.0);
      OneVerdict(before, input, last.0, last.1, agreement);
    } else {
      ReevaluationWrites(ledger, input, init, agreement, k);
      assert read[k].0 != last.0;
      assert Reevaluate(ledger, input, read, agreement)
          == ReevaluateOne(before, input, last.0, last.1, agreement);
    }
  }

  /** What people write: a choice settles an open conflict and asking leaves it open; a
      status set directly is the status; the recheck closes what has nothing left. */
  lemma PeopleWrite(ledger: Ledger, id: string, expected: nat, asks: bool, status: ConflictStatus)
    requires id in ledger.conflicts && expected == ledger.conflicts[id].version
    ensures var was := ledger.conflicts[id];
      && Next(ledger, SetStatus(id, expected, status)).conflicts[id] == was.(status := status, version := expected + 1)
      && Next(ledger, Decide(id, expected, asks)).conflicts[id]
         == if was.status == Open
            then was.(status := if asks then Open else Resolved, version := expected + 1) else was
  {
  }
}
