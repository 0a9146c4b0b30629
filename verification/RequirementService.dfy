/** Integration and the decisions of reviewers as the program runs them, written step by
    step into the stored collections. */
module RequirementService {
  import opened Wrappers
  import opened Requirements

  class AnalysisRepository {
    var items: Items
    var wording: seq<PastWording>
    var findings: Findings
    var baseline: Option<Baseline>

    constructor ()
      ensures State() == Store(map[], [], map[], None)
    {
      items, wording, findings, baseline := map[], [], map[], None;
    }

    function State(): Store
      reads this
    {
      Store(items, wording, findings, baseline)
    }

    /** The version is part of the filter: the write lands or it does not. */
    method UpdateItem(id: string, expected: nat, change: Item -> Item) returns (updated: bool)
      modifies this`items
      ensures updated <==> id in old(items) && old(items)[id].version == expected
      ensures items == Requirements.UpdateItem(old(items), id, expected, change)
    {
      updated := id in items && items[id].version == expected;
      if updated { items := items[id := change(items[id]).(version := expected + 1)]; }
    }

    method UpdateFinding(id: string, expected: nat, status: FindingStatus) returns (updated: bool)
      modifies this`findings
      ensures updated <==> id in old(findings) && old(findings)[id].version == expected
      ensures findings == Requirements.UpdateFinding(old(findings), id, expected, status)
    {
      updated := id in findings && findings[id].version == expected;
      if updated { findings := findings[id := findings[id].(status := status, version := expected + 1)]; }
    }

    method RecordVersion(record: PastWording)
      modifies this`wording
      ensures wording == old(wording) + [record]
    {
      wording := wording + [record];
    }
  }

  datatype Clarification = Clarification(id: string, relatedItemIds: seq<string>, relatedFindingIds: seq<string>)

  /** One proposal is enough to leave the answer waiting for a person. */
  predicate HasProposal(impacts: seq<Impact>) {
    exists i :: 0 <= i < |impacts| && impacts[i].kind.Proposed?
  }

  lemma HasProposalOfBoth(a: seq<Impact>, b: seq<Impact>)
    ensures HasProposal(a + b) <==> HasProposal(a) || HasProposal(b)
  {
    if HasProposal(a) {
      var i :| 0 <= i < |a| && a[i].kind.Proposed?;
      assert (a + b)[i].kind.Proposed?;
    }
    if HasProposal(b) {
      var i :| 0 <= i < |b| && b[i].kind.Proposed?;
      assert (a + b)[|a| + i].kind.Proposed?;
    }
  }

  class ClarificationIntegration {
    const repository: AnalysisRepository

    constructor (repository: AnalysisRepository)
      ensures this.repository == repository
    {
      this.repository := repository;
    }

    /** What an answer touches: the items its question is about, and every item sharing a
        finding with it, except those already set aside. */
    method AffectedItems(clarification: Clarification) returns (affected: Items)
      ensures forall id :: id in affected <==>
        && id in repository.items && repository.items[id].status !in {SupersededItem, RejectedItem}
        && (id in clarification.relatedItemIds
            || exists f ::
                 && f in clarification.relatedFindingIds && f in repository.findings
                 && id in repository.findings[f].itemIds)
      ensures forall id :: id in affected ==> affected[id] == repository.items[id]
    {
      var ids: set<string> := set id | id in clarification.relatedItemIds;
      for i := 0 to |clarification.relatedFindingIds|
        invariant forall id :: id in ids <==>
          id in clarification.relatedItemIds
          || exists f ::
               && f in clarification.relatedFindingIds[..i] && f in repository.findings
               && id in repository.findings[f].itemIds
      {
        var findingId := clarification.relatedFindingIds[i];
        assert clarification.relatedFindingIds[..i + 1] == clarification.relatedFindingIds[..i] + [findingId];
        if findingId in repository.findings {
          ids := ids + set id | id in repository.findings[findingId].itemIds;
        }
      }
      assert clarification.relatedFindingIds[..|clarification.relatedFindingIds|] == clarification.relatedFindingIds;
      affected := map id | id in ids && id in repository.items
          && repository.items[id].status !in {SupersededItem, RejectedItem}
                      :: repository.items[id];
    }

    /** Fold a validated answer into the items read before the model was asked. */
    method Integrate(affected: Items, updates: seq<Update>, answer: Answer)
      returns (impacts: seq<Impact>, anyProposed: bool)
      modifies repository
      ensures repository.State() == Next(old(repository.State()), Integration(affected, updates, answer))
      ensures impacts == ApplyUpdates(old(repository.State()), affected, updates, answer).1
      ensures anyProposed <==> HasProposal(impacts)
    {
      ghost var before := repository.State();
      impacts, anyProposed := [], false;
      for i := 0 to |updates|
        invariant (repository.State(), impacts) == ApplyUpdates(before, affected, updates[..i], answer)
        invariant repository.findings == before.findings
        invariant anyProposed <==> HasProposal(impacts)
      {
        assert updates[..i + 1][..i] == updates[..i];
        var impact := Apply(affected, updates[i], answer);
        anyProposed := anyProposed || HasProposal(impact);
        HasProposalOfBoth(impacts, impact);
        impacts := impacts + impact;
      }
      assert updates[..|updates|] == updates;
      CloseClaimed(affected, updates);
    }

    method Apply(affected: Items, update: Update, answer: Answer) returns (impact: seq<Impact>)
      modifies repository
      ensures (repository.State(), impact) == ApplyUpdate(old(repository.State()), affected, update, answer)
      ensures repository.findings == old(repository.findings)
    {
      if update.itemId !in affected { return []; }
      var id, item := update.itemId, affected[update.itemId];
      if SameWording(answer, update.description, item.statement) {
        return [Impact(id, Unchanged, item.statement, item.statement)];
      }
      var guard := ProtectionFor(id, item, answer.approved);
      if guard.Some? {
        var written := repository.UpdateItem(id, item.version, Propose(update, item, guard.value, answer));
        return [Impact(id, Proposed(guard.value), item.statement, update.description)];
      }
      repository.RecordVersion(PastWording(id, item.version, item.statement, ByIntegration));
      var written := repository.UpdateItem(id, item.version, Rewrite(update, item, answer));
      return [Impact(id, Applied, item.statement, update.description)];
    }

    method CloseClaimed(affected: Items, updates: seq<Update>)
      modifies repository`findings
      ensures repository.findings == CloseFindings(old(repository.findings), affected, ClaimedIn(updates, []))
    {
      ghost var before := repository.findings;
      var claimed := ClaimedIn(updates, []);
      for i := 0 to |claimed|
        invariant repository.findings == CloseFindings(before, affected, claimed[..i])
      {
        assert claimed[..i + 1][..i] == claimed[..i];
        if MayClose(repository.findings, claimed[i], affected) {
          var closed := repository.UpdateFinding(claimed[i], repository.findings[claimed[i]].version, Settled);
        }
      }
      assert claimed[..|claimed|] == claimed;
    }
  }

  class AnalysisService {
    const repository: AnalysisRepository

    constructor (repository: AnalysisRepository)
      ensures this.repository == repository
    {
      this.repository := repository;
    }

    method EditRequirement(id: string, expected: nat, edit: ItemEdit) returns (updated: bool)
      modifies repository
      ensures repository.State() == Next(old(repository.State()), Event.EditRequirement(id, expected, edit))
      ensures updated <==> id in old(repository.items) && old(repository.items)[id].status != SupersededItem
                           && old(repository.items)[id].version == expected
    {
      if id !in repository.items || repository.items[id].status == SupersededItem { return false; }
      updated := repository.UpdateItem(id, expected, Edited(edit));
    }

    method ResolveProposal(id: string, expected: nat, decision: ProposalDecision, cite: bool) returns (updated: bool)
      modifies repository
      ensures repository.State() == Next(old(repository.State()), Event.ResolveProposal(id, expected, decision, cite))
      ensures updated <==> id in old(repository.items) && old(repository.items)[id].proposal.Some?
                           && old(repository.items)[id].version == expected
    {
      if id !in repository.items || repository.items[id].proposal.None? { return false; }
      var item, proposal := repository.items[id], repository.items[id].proposal.value;
      if decision.RejectProposal? {
        updated := repository.UpdateItem(id, expected,
            (stored: Item) => stored.(needsRevalidation := false, proposal := None));
      } else {
        repository.RecordVersion(PastWording(id, item.version, item.statement, ByAcceptedProposal));
        updated := repository.UpdateItem(id, expected, Accepted(Decided(decision, proposal), item, proposal, cite));
      }
    }

    method SetAsideAll(ids: seq<string>, except: Option<string>, status: ItemStatus, byUser: bool)
      modifies repository`items
      ensures repository.items == SetAside(old(repository.items), ids, except, status, byUser)
    {
      ghost var before := repository.items;
      for i := 0 to |ids|
        invariant repository.items == SetAside(before, ids[..i], except, status, byUser)
      {
        assert ids[..i + 1][..i] == ids[..i];
        if except != Some(ids[i]) && ids[i] in repository.items {
          var written := repository.UpdateItem(ids[i], repository.items[ids[i]].version,
            (stored: Item) => stored.(status := status, editedByUser := stored.editedByUser || byUser));
        }
      }
      assert ids[..|ids|] == ids;
    }

    method ResolveDuplicate(id: string, expected: nat, mergeInto: Option<string>) returns (error: Option<AnalysisError>)
      modifies repository
      ensures (repository.State(), error)
              == Requirements.ResolveDuplicate(old(repository.State()), id, expected, mergeInto)
    {
      if id !in repository.findings || repository.findings[id].kind != Duplicate { return Some(FindingNotFound); }
      var finding := repository.findings[id];
      if finding.status != OpenFinding { return Some(AlreadyResolved); }
      if mergeInto.Some? {
        if mergeInto.value !in finding.itemIds { return Some(InvalidPrimary); }
        SetAsideAll(finding.itemIds, mergeInto, SupersededItem, false);
      }
      var updated := repository.UpdateFinding(id, expected, Settled);
      return if updated then None else Some(StaleVersion);
    }

    /** Approve the baseline in force, refreshed just before its blockers are checked. */
    method Approve(expected: nat, blocked: bool) returns (error: Option<AnalysisError>)
      modifies repository
      ensures repository.State() == Next(old(repository.State()), ApproveBaseline(expected, blocked))
      ensures error.None? ==>
              ApprovedIds(repository.State()) == set id | id in repository.items && Counts(repository.items[id])
      ensures error.Some? ==> ApprovedIds(repository.State()) == ApprovedIds(old(repository.State()))
      ensures error == match old(repository.baseline)
        case None => Some(BaselineNotFound)
        case Some(baseline) =>
          if baseline.status == ApprovedBaseline then Some(BaselineAlreadyApproved)
          else if baseline.status == OutdatedBaseline then Some(BaselineOutdated)
          else if forall id :: id in old(repository.items) ==> !Counts(old(repository.items)[id])
            then Some(BaselineEmpty)
          else if blocked then Some(BaselineHasBlockers)
          else if baseline.recordVersion != expected then Some(StaleVersion)
          else None
    {
      if repository.baseline.None? { return Some(BaselineNotFound); }
      repository.baseline := Some(Refreshed(repository.items, repository.baseline.value));
      var baseline := repository.baseline.value;
      if baseline.status == ApprovedBaseline { return Some(BaselineAlreadyApproved); }
      if baseline.status == OutdatedBaseline { return Some(BaselineOutdated); }
      if baseline.itemIds == {} {
        assert forall id :: id in repository.items && Counts(repository.items[id]) ==> id in baseline.itemIds;
        return Some(BaselineEmpty);
      }
      ghost var id :| id in baseline.itemIds;
      assert Counts(repository.items[id]);
      if blocked { return Some(BaselineHasBlockers); }
      if baseline.recordVersion != expected { return Some(StaleVersion); }
      repository.baseline := Some(baseline.(status := ApprovedBaseline, recordVersion := expected + 1));
      return None;
    }

    /** Start a review of the baseline in force, whatever its status. */
    method StartReview() returns (error: Option<AnalysisError>)
      modifies repository`baseline
      ensures repository.State() == Next(old(repository.State()), Event.StartReview)
      ensures error == if old(repository.baseline).None? then Some(BaselineNotFound) else None
      ensures ApprovedIds(repository.State()) == {}
    {
      if repository.baseline.None? { return Some(BaselineNotFound); }
      var baseline := repository.baseline.value;
      repository.baseline := Some(baseline.(status := InReview, recordVersion := baseline.recordVersion + 1));
      return None;
    }

    /** The item side of settling a conflict by rewriting its first position. */
    method RewriteSides(ids: seq<string>, replacement: string)
      modifies repository`items
      ensures repository.items == RewrittenSides(old(repository.items), ids, replacement)
    {
      if ids == [] { return; }
      if ids[0] in repository.items {
        var written := repository.UpdateItem(ids[0], repository.items[ids[0]].version,
          (stored: Item) => stored.(statement := replacement, status := EditedItem, editedByUser := true));
      }
      SetAsideAll(ids[1..], None, RejectedItem, true);
    }
  }
}
