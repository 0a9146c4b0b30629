/** What an integration writes into each requirement, what a protected one is offered, and
    what the person's decision on the offer leaves. */
module RequirementProposals {
  import opened Wrappers
  import opened Requirements
  import opened RequirementProtection

  /* ---------------------------------------------------- one integration, one item */

  /** The first update about a requirement that says something new of it. */
  ghost predicate FirstNew(updates: seq<Update>, id: string, said: string, answer: Answer, j: int) {
    && 0 <= j < |updates| && updates[j].itemId == id && !SameWording(answer, updates[j].description, said)
    && forall l :: 0 <= l < j && updates[l].itemId == id ==> SameWording(answer, updates[l].description, said)
  }

  /** Nobody has written the requirement since it was read. */
  ghost predicate Undisturbed(store: Store, read: Items, id: string)
    requires id in store.items
  {
    id in read && read[id].version == store.items[id].version
  }

  /** The first of the four protections that holds. */
  ghost predicate ProtectedBy(id: string, item: Item, approved: set<string>, reason: ProposalReason) {
    match reason
    case AlreadyApproved => id in approved
    case UserCreated => id !in approved && item.origin == Manual
    case ManuallyEdited => id !in approved && item.origin != Manual && item.editedByUser
    case AcceptedByUser =>
      id !in approved && item.origin != Manual && !item.editedByUser && item.status == AcceptedItem
  }

  /** A protected requirement offered new words: they wait beside its own. */
  ghost predicate OfferedOnly(id: string, was: Item, now: Item, words: string, answer: Answer) {
    && now == was.(proposal := now.proposal, version := was.version + 1)
    && now.proposal.Some?
    && now.proposal.value.proposed == words && now.proposal.value.current == was.statement
    && now.proposal.value.clarificationId == answer.clarificationId
    && ProtectedBy(id, was, answer.approved, now.proposal.value.reason)
  }

  /** A requirement nobody protects says the new words and cites the answer once, last. */
  ghost predicate Rewritten(was: Item, cited: seq<string>, now: Item, words: string, answer: Answer) {
    && now == was.(statement := words, needsRevalidation := false, cites := now.cites, version := was.version + 1)
    && CitesOnce(cited, now.cites, answer.clarificationId)
  }

  ghost predicate CitesOnce(before: seq<string>, after: seq<string>, id: string) {
    && after != [] && after[|after| - 1] == id
    && multiset(after) == multiset(before)[id := 1]
  }

  lemma {:induction false} WithoutLeaves(cites: seq<string>, id: string)
    ensures multiset(Without(cites, id)) == multiset(cites)[id := 0]
  {
    if cites != [] {
      WithoutLeaves(cites[1..], id);
      assert cites == [cites[0]] + cites[1..];
    }
  }

  /** What one update does to one requirement, as it is read and stored. */
  ghost predicate ItemAfter(store: Store, read: Items, id: string, now: Item, words: string, answer: Answer)
    requires id in store.items && id in read
  {
    if IsProtected(id, read[id], answer.approved) then
      && now == store.items[id].(proposal := now.proposal, version := store.items[id].version + 1)
      && now.proposal.Some? && now.proposal.value.proposed == words
      && now.proposal.value.current == read[id].statement
      && now.proposal.value.clarificationId == answer.clarificationId
      && ProtectedBy(id, read[id], answer.approved, now.proposal.value.reason)
    else Rewritten(store.items[id], read[id].cites, now, words, answer)
  }

  lemma OneItemAfter(store: Store, read: Items, update: Update, answer: Answer, id: string)
    requires id in store.items
    ensures var after := ApplyUpdate(store, read, update, answer).0.items;
      && id in after
      && if update.itemId == id && Undisturbed(store, read, id)
            && !SameWording(answer, update.description, read[id].statement)
         then ItemAfter(store, read, id, after[id], update.description, answer)
         else after[id] == store.items[id]
  {
    if id in read { WithoutLeaves(read[id].cites, answer.clarificationId); }
  }

  lemma {:induction false} ItemAfterUpdates(store: Store, read: Items, updates: seq<Update>, answer: Answer,
                                            id: string)
    requires ReadEarlier(read, store.items) && id in store.items
    ensures id in ApplyUpdates(store, read, updates, answer).0.items
    ensures id in read ==>
              var now := ApplyUpdates(store, read, updates, answer).0.items[id];
              && (forall j :: FirstNew(updates, id, read[id].statement, answer, j) && Undisturbed(store, read, id) ==>
                    ItemAfter(store, read, id, now, updates[j].description, answer))
              && ((forall j :: !(FirstNew(updates, id, read[id].statement, answer, j) && Undisturbed(store, read, id)))
                  ==> now == store.items[id])
    ensures id !in read ==> ApplyUpdates(store, read, updates, answer).0.items[id] == store.items[id]
    decreases |updates|
  {
    if updates != [] {
      var init, last := updates[..|updates| - 1], |updates| - 1;
      var before := ApplyUpdates(store, read, init, answer).0;
      ItemAfterUpdates(store, read, init, answer, id);
      OneItemAfter(before, read, updates[last], answer, id);
      if id in read {
        var said := read[id].statement;
        VersionAfterUpdates(store, read, init, answer, id);
        FirstNewOfMore(updates, id, said, answer);
        if forall l :: 0 <= l < |init| && init[l].itemId == id ==> SameWording(answer, init[l].description, said) {
          assert forall j :: !FirstNew(init, id, said, answer, j);
          assert before.items[id] == store.items[id];
        }
      }
    }
  }

  /** One more update is the first to say something new exactly when no earlier one was. */
  lemma FirstNewOfMore(updates: seq<Update>, id: string, said: string, answer: Answer)
    requires updates != []
    ensures var init, last := updates[..|updates| - 1], |updates| - 1;
      && (forall j :: j != last ==>
            (FirstNew(updates, id, said, answer, j) <==> FirstNew(init, id, said, answer, j)))
      && (FirstNew(updates, id, said, answer, last) <==>
            && updates[last].itemId == id && !SameWording(answer, updates[last].description, said)
            && forall l :: 0 <= l < |init| && init[l].itemId == id ==> SameWording(answer, init[l].description, said))
  {
    var init, last := updates[..|updates| - 1], |updates| - 1;
    assert forall j :: 0 <= j < last ==> init[j] == updates[j];
  }

  /** What an integration writes into a requirement, over every list of updates: if nobody
      has written it since it was read and an update says something new, the first such
      update decides, and waits as a proposal beside the words of a protected requirement
      or replaces those of any other. Every other requirement is exactly as it was. */
  lemma IntegrationWrites(store: Store, read: Items, updates: seq<Update>, answer: Answer, id: string)
    requires ReadEarlier(read, store.items) && id in store.items
    ensures id in Integrate(store, read, updates, answer).0.items
    ensures var was, now := store.items[id], Integrate(store, read, updates, answer).0.items[id];
      && (forall j :: Undisturbed(store, read, id) && FirstNew(updates, id, was.statement, answer, j) ==>
            if IsProtected(id, was, answer.approved) then OfferedOnly(id, was, now, updates[j].description, answer)
            else Rewritten(was, read[id].cites, now, updates[j].description, answer))
      && ((forall j :: !(Undisturbed(store, read, id) && FirstNew(updates, id, was.statement, answer, j))) ==>
            now == was)
  {
    ItemAfterUpdates(store, read, updates, answer, id);
    assert Integrate(store, read, updates, answer).0.items == ApplyUpdates(store, read, updates, answer).0.items;
  }

  /* --------------------------------------------------- the decision on an offer */

  /** Answer, then decide. What a protected requirement was offered is what a person takes
      by accepting; by rewording they take their own words; by rejecting they keep what it
      said. Either way the offer is gone, and words that are replaced are on record. */
  lemma AnswerThenDecide(store: Store, read: Items, updates: seq<Update>, answer: Answer, id: string, j: nat,
                         decision: ProposalDecision, cite: bool)
    requires ReadEarlier(read, store.items) && id in store.items
    requires Undisturbed(store, read, id) && IsProtected(id, store.items[id], answer.approved)
    requires FirstNew(updates, id, store.items[id].statement, answer, j)
    ensures var was := store.items[id];
      var offered := Next(store, Integration(read, updates, answer));
      var after := Next(offered, ResolveProposal(id, was.version + 1, decision, cite));
      && id in after.items && after.items[id].proposal == None && !after.items[id].needsRevalidation
      && after.items[id].version == was.version + 2
      && after.items[id].statement
         == (match decision
             case RejectProposal => was.statement
             case AcceptProposal => updates[j].description
             case RewordProposal(words) => if words.Some? then words.value else updates[j].description)
      && (decision.RejectProposal? ==>
            after.items[id] == was.(proposal := None, needsRevalidation := false, version := was.version + 2)
            && after.wording == offered.wording)
      && (!decision.RejectProposal? ==>
            && after.items[id].editedByUser && after.items[id].status == EditedItem
            && after.wording
               == offered.wording + [PastWording(id, was.version + 1, was.statement, ByAcceptedProposal)]
            && multiset(after.items[id].cites)[answer.clarificationId] == (if cite then 1 else 0)
            && forall other :: other != answer.clarificationId ==>
                 multiset(after.items[id].cites)[other] == multiset(was.cites)[other])
  {
    IntegrationWrites(store, read, updates, answer, id);
    var offered := Next(store, Integration(read, updates, answer));
    WithoutLeaves(offered.items[id].cites, answer.clarificationId);
  }

  /** A decision made from an older reading writes nothing into the requirement. */
  lemma LateDecisionWritesNothing(store: Store, id: string, expected: nat, decision: ProposalDecision, cite: bool)
    requires id in store.items && expected != store.items[id].version
    ensures Next(store, ResolveProposal(id, expected, decision, cite)).items == store.items
  {
  }

  /* ------------------------------------------------------ other calls of a person */

  /** An edit writes what it gives and leaves the rest; a change of content marks the
      requirement as edited, under the status asked for if one is. */
  lemma EditWrites(store: Store, id: string, expected: nat, edit: ItemEdit)
    requires id in store.items
    ensures var was, after := store.items[id], Next(store, EditRequirement(id, expected, edit));
      && id in after.items && after.wording == store.wording
      && (forall other :: other in store.items && other != id ==>
            other in after.items && after.items[other] == store.items[other])
      && var now := after.items[id];
      if was.version != expected || was.status == SupersededItem then now == was
      else
        && now == was.(statement := now.statement, status := now.status, editedByUser := now.editedByUser,
                       version := was.version + 1)
        && (edit.statement.Some? ==> now.statement == edit.statement.value)
        && (edit.statement.None? ==> now.statement == was.statement)
        && (edit.status.Some? ==> now.status == edit.status.value)
        && (edit.status.None? ==>
              now.status == if edit.statement.Some? || edit.otherContent then EditedItem else was.status)
        && (now.editedByUser <==> was.editedByUser || edit.statement.Some? || edit.otherContent)
  {
  }

  /** A requirement set aside has the status of the decision and says what it said. */
  ghost predicate AsideOf(was: Item, now: Item, status: ItemStatus, byUser: bool) {
    now == was.(status := status, editedByUser := was.editedByUser || byUser, version := now.version)
  }

  lemma {:induction false} SetAsideEach(items: Items, ids: seq<string>, except: Option<string>, status: ItemStatus,
                                        byUser: bool, id: string)
    requires id in items
    ensures id in SetAside(items, ids, except, status, byUser)
    ensures var now := SetAside(items, ids, except, status, byUser)[id];
      if id in ids && except != Some(id) then AsideOf(items[id], now, status, byUser) else now == items[id]
    decreases |ids|
  {
    if ids != [] {
      SetAsideEach(items, ids[..|ids| - 1], except, status, byUser, id);
      assert id in ids <==> id in ids[..|ids| - 1] || id == ids[|ids| - 1];
    }
  }

  /** Merging supersedes all but the primary and marks nobody's work; choosing a side
      rejects all but the winner, and that is a person's decision. */
  lemma SettlementWrites(store: Store, ids: seq<string>, kept: string, id: string)
    requires id in store.items && kept in ids
    ensures var merged := Next(store, MergeDuplicates(ids, kept)).items;
      && id in merged
      && if id in ids && id != kept then AsideOf(store.items[id], merged[id], SupersededItem, false)
         else merged[id] == store.items[id]
    ensures var chosen := Next(store, ChooseSide(ids, kept)).items;
      && id in chosen
      && if id in ids && id != kept then AsideOf(store.items[id], chosen[id], RejectedItem, true)
         else chosen[id] == store.items[id]
  {
    SetAsideEach(store.items, ids, Some(kept), SupersededItem, false, id);
    SetAsideEach(store.items, ids, Some(kept), RejectedItem, true, id);
  }

  /** Rewriting a side gives the first position the new words and rejects the others. */
  lemma RewriteSettles(store: Store, ids: seq<string>, replacement: string, id: string)
    requires id in store.items && ids != []
    ensures var after := Next(store, RewriteSide(ids, replacement)).items;
      && id in after
      && (id == ids[0] ==> after[id].statement == replacement && after[id].editedByUser)
      && (id == ids[0] && id !in ids[1..] ==> after[id].status == EditedItem)
      && (id != ids[0] ==>
            if id in ids[1..] then AsideOf(store.items[id], after[id], RejectedItem, true)
            else after[id] == store.items[id])
  {
    var first := RewriteFirst(store.items, ids[0], replacement);
    assert id in first;
    SetAsideEach(first, ids[1..], None, RejectedItem, true, id);
  }

  /** The requirements that count: those a person has neither rejected nor set aside. */
  ghost predicate InForce(store: Store, id: string) {
    id in store.items && store.items[id].status !in {RejectedItem, SupersededItem}
  }

  lemma CountsIff(item: Item)
    ensures Counts(item) <==> item.status !in {RejectedItem, SupersededItem}
  {
    match item.status { case Drafted => case AcceptedItem => case EditedItem => case _ => }
  }

  /** An approval goes through exactly when the baseline is unsigned, of the version named,
      unblocked and not empty, and then it names exactly the requirements that count. */
  lemma ApprovalNames(store: Store, expected: nat, blocked: bool)
    requires store.baseline.Some?
    ensures var was, after := store.baseline.value, Next(store, ApproveBaseline(expected, blocked));
      && after == store.(baseline := after.baseline) && after.baseline.Some?
      && var goes := was.status in {DraftBaseline, InReview} && was.recordVersion == expected && !blocked
                     && exists id :: InForce(store, id);
      && (goes ==>
            && after.baseline.value.status == ApprovedBaseline && after.baseline.value.recordVersion == expected + 1
            && forall id :: id in after.baseline.value.itemIds <==> InForce(store, id))
      && (!goes ==>
            after.baseline.value.status == was.status && after.baseline.value.recordVersion == was.recordVersion)
      && (was.status in {ApprovedBaseline, OutdatedBaseline} ==> after == store)
  {
    forall id | id in store.items ensures Counts(store.items[id]) <==> InForce(store, id) {
      CountsIff(store.items[id]);
    }
    var named := set id | id in store.items && Counts(store.items[id]);
    if id :| InForce(store, id) { assert id in named; }
    if id :| id in named { assert InForce(store, id); }
  }

  /** A changed source makes an approved baseline outdated and no other; marking for a second
      look marks the named requirements and changes nothing else about any. */
  lemma ChangesAreMarked(store: Store, marked: seq<string>)
    ensures var after := Next(store, OutdateBaseline);
      after == if store.baseline.Some? && store.baseline.value.status == ApprovedBaseline
               then store.(baseline := Some(store.baseline.value.(status := OutdatedBaseline))) else store
    ensures var after := Next(store, MarkForRevalidation(marked));
      && after == store.(items := after.items) && after.items.Keys == store.items.Keys
      && forall id :: id in store.items ==>
           && after.items[id] == store.items[id].(needsRevalidation := after.items[id].needsRevalidation)
           && (after.items[id].needsRevalidation <==> store.items[id].needsRevalidation || id in marked)
  {
  }
}
