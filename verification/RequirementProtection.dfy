/** Which decisions of people outrank the model, over every run and however reads and
    writes interleave, and the one that comes too late to. */
module RequirementProtection {
  import opened Wrappers
  import opened Requirements

  /* -------------------------------------------------- items read earlier */

  /** The same person's decisions, whatever derived marks moved. */
  ghost predicate SameDecisions(a: Item, b: Item) {
    a.statement == b.statement && a.origin == b.origin && a.editedByUser == b.editedByUser && a.status == b.status
  }

  /** Items read at an earlier moment: an item's version has moved on since, or nothing
      anybody decided about it has. */
  ghost predicate ReadEarlier(read: Items, items: Items) {
    forall id :: id in read ==>
      && id in items && read[id].version <= items[id].version
      && (read[id].version == items[id].version ==> SameDecisions(read[id], items[id]))
  }

  lemma UpdateIsLater(items: Items, id: string, expected: nat, change: Item -> Item)
    ensures ReadEarlier(items, UpdateItem(items, id, expected, change))
  {
  }

  lemma Later(a: Items, b: Items, c: Items)
    requires ReadEarlier(a, b) && ReadEarlier(b, c)
    ensures ReadEarlier(a, c)
  {
  }

  lemma {:induction false} UpdatesAreLater(store: Store, read: Items, updates: seq<Update>, answer: Answer)
    ensures ReadEarlier(store.items, ApplyUpdates(store, read, updates, answer).0.items)
    decreases |updates|
  {
    if updates != [] {
      var init, last := updates[..|updates| - 1], updates[|updates| - 1];
      UpdatesAreLater(store, read, init, answer);
      var before := ApplyUpdates(store, read, init, answer).0;
      var after := ApplyUpdate(before, read, last, answer).0;
      OneUpdateIsLater(before, read, last, answer);
      Later(store.items, before.items, after.items);
    }
  }

  lemma OneUpdateIsLater(store: Store, read: Items, update: Update, answer: Answer)
    ensures ReadEarlier(store.items, ApplyUpdate(store, read, update, answer).0.items)
  {
  }

  lemma {:induction false} SetAsideIsLater(items: Items, ids: seq<string>, except: Option<string>, status: ItemStatus,
                                           byUser: bool)
    ensures ReadEarlier(items, SetAside(items, ids, except, status, byUser))
    ensures SetAside(items, ids, except, status, byUser).Keys == items.Keys
    ensures forall id :: id in items ==>
            SetAside(items, ids, except, status, byUser)[id].statement == items[id].statement
    ensures forall id :: id in items && items[id].editedByUser ==>
            SetAside(items, ids, except, status, byUser)[id].editedByUser
    decreases |ids|
  {
    if ids != [] { SetAsideIsLater(items, ids[..|ids| - 1], except, status, byUser); }
  }

  lemma NextIsLater(store: Store, event: Event)
    ensures ReadEarlier(store.items, Next(store, event).items)
  {
    match event
    case Integration(read, updates, answer) => UpdatesAreLater(store, read, updates, answer);
    case MergeDuplicates(ids, primary) => SetAsideIsLater(store.items, ids, Some(primary), SupersededItem, false);
    case ChooseSide(ids, winner) => SetAsideIsLater(store.items, ids, Some(winner), RejectedItem, true);
    case RewriteSide(ids, replacement) => RewriteSideIsLater(store.items, ids, replacement);
    case EditRequirement(id, expected, edit) => UpdateIsLater(store.items, id, expected, Edited(edit));
    case ResolveProposal(id, expected, decision, cite) => ResolveIsLater(store, event);
    case _ =>
  }

  lemma ResolveIsLater(store: Store, event: Event)
    requires event.ResolveProposal?
    ensures ReadEarlier(store.items, Next(store, event).items)
  {
  }

  /** A conflict settled by rewriting: the first side says something new, the others go. */
  lemma RewriteSideIsLater(items: Items, ids: seq<string>, replacement: string)
    ensures ReadEarlier(items, RewrittenSides(items, ids, replacement))
    ensures RewrittenSides(items, ids, replacement).Keys == items.Keys
    ensures forall id :: id in items && items[id].editedByUser ==>
            RewrittenSides(items, ids, replacement)[id].editedByUser
    ensures forall id :: id in items && (ids == [] || id != ids[0]) ==>
              RewrittenSides(items, ids, replacement)[id].statement == items[id].statement
  {
    if ids != [] {
      var first := RewriteFirst(items, ids[0], replacement);
      SetAsideIsLater(first, ids[1..], None, RejectedItem, true);
      Later(items, first, RewrittenSides(items, ids, replacement));
    }
  }

  /** Whatever was read at some moment of a run is still a fair reading at any later one:
      what the conditional write needs to know. */
  lemma {:induction false} ReadingsStayFair(store: Store, events: seq<Event>)
    ensures ReadEarlier(store.items, Run(store, events).items)
    decreases |events|
  {
    if events != [] {
      NextIsLater(store, events[0]);
      ReadingsStayFair(Next(store, events[0]), events[1..]);
      Later(store.items, Next(store, events[0]).items, Run(store, events).items);
    }
  }

  /* --------------------------------------------------------- one integration */

  /** The four protections: `approved` as it was read, the other three by the item. */
  ghost predicate IsProtected(id: string, item: Item, approved: set<string>) {
    id in approved || item.origin == Manual || item.editedByUser || item.status == AcceptedItem
  }

  lemma ProtectionForIff(id: string, item: Item, approved: set<string>)
    ensures ProtectionFor(id, item, approved).Some? <==> IsProtected(id, item, approved)
  {
  }

  /** What an integration may do to an item it did or did not get to write. */
  ghost predicate OnlyWording(before: Item, after: Item) {
    && after.origin == before.origin && after.editedByUser == before.editedByUser && after.status == before.status
    && after.version >= before.version
  }

  ghost predicate Records(wording: seq<PastWording>, id: string, item: Item) {
    exists k :: 0 <= k < |wording| && wording[k].itemId == id && wording[k].statement == item.statement
             && wording[k].version >= item.version
  }

  /** Protected items keep their statement; a changed statement was recorded first. */
  ghost predicate Guarded(before: Store, after: Store, approved: set<string>) {
    && before.wording <= after.wording
    && after.items.Keys == before.items.Keys
    && forall id :: id in before.items ==>
         && OnlyWording(before.items[id], after.items[id])
         && (IsProtected(id, before.items[id], approved) ==> after.items[id].statement == before.items[id].statement)
         && (after.items[id].statement != before.items[id].statement ==> Records(after.wording, id, before.items[id]))
  }

  lemma OneUpdateIsGuarded(store: Store, read: Items, update: Update, answer: Answer)
    requires ReadEarlier(read, store.items)
    ensures Guarded(store, ApplyUpdate(store, read, update, answer).0, answer.approved)
    ensures ReadEarlier(read, ApplyUpdate(store, read, update, answer).0.items)
  {
    var after := ApplyUpdate(store, read, update, answer).0;
    OneUpdateIsLater(store, read, update, answer);
    Later(read, store.items, after.items);
    var id := update.itemId;
    if id in read && ProtectionFor(id, read[id], answer.approved).None?
      && !SameWording(answer, update.description, read[id].statement) {
      RewriteIsGuarded(store, read, update, answer);
    }
  }

  lemma RewriteIsGuarded(store: Store, read: Items, update: Update, answer: Answer)
    requires ReadEarlier(read, store.items) && update.itemId in read
    requires ProtectionFor(update.itemId, read[update.itemId], answer.approved).None?
    requires !SameWording(answer, update.description, read[update.itemId].statement)
    ensures Guarded(store, ApplyUpdate(store, read, update, answer).0, answer.approved)
  {
    var id := update.itemId;
    var after := ApplyUpdate(store, read, update, answer).0;
    assert after.wording[|store.wording|] == PastWording(id, read[id].version, read[id].statement, ByIntegration);
    if store.items[id].version == read[id].version { assert Records(after.wording, id, store.items[id]); }
  }

  lemma GuardedTwice(a: Store, b: Store, c: Store, approved: set<string>)
    requires Guarded(a, b, approved) && Guarded(b, c, approved)
    requires ReadEarlier(a.items, b.items)
    ensures Guarded(a, c, approved)
  {
    forall id | id in a.items
      ensures OnlyWording(a.items[id], c.items[id])
      ensures IsProtected(id, a.items[id], approved) ==> c.items[id].statement == a.items[id].statement
      ensures c.items[id].statement != a.items[id].statement ==> Records(c.wording, id, a.items[id])
    {
      if c.items[id].statement != a.items[id].statement {
        if b.items[id].statement != a.items[id].statement {
          RecordsGrow(b.wording, c.wording, id, a.items[id]);
        } else {
          assert Records(c.wording, id, b.items[id]);
        }
      }
    }
  }

  lemma RecordsGrow(short: seq<PastWording>, long: seq<PastWording>, id: string, item: Item)
    requires short <= long && Records(short, id, item)
    ensures Records(long, id, item)
  {
    var k :| 0 <= k < |short| && short[k].itemId == id && short[k].statement == item.statement
      && short[k].version >= item.version;
    assert long[k] == short[k];
  }

  lemma {:induction false} UpdatesAreGuarded(store: Store, read: Items, updates: seq<Update>, answer: Answer)
    requires ReadEarlier(read, store.items)
    ensures Guarded(store, ApplyUpdates(store, read, updates, answer).0, answer.approved)
    ensures ReadEarlier(read, ApplyUpdates(store, read, updates, answer).0.items)
    decreases |updates|
  {
    if updates != [] {
      var init, last := updates[..|updates| - 1], updates[|updates| - 1];
      UpdatesAreGuarded(store, read, init, answer);
      UpdatesAreLater(store, read, init, answer);
      var before := ApplyUpdates(store, read, init, answer).0;
      OneUpdateIsGuarded(before, read, last, answer);
      GuardedTwice(store, before, ApplyUpdates(store, read, updates, answer).0, answer.approved);
    }
  }

  /** Whatever the model returns, for items read however long ago: an integration changes
      no statement of a manual, edited or accepted requirement, nor of one that was in an
      approved baseline when the approvals were read; no origin, status or edited mark at
      all; and it has recorded the old wording of every statement it does change. */
  lemma IntegrationOutranksNobody(store: Store, read: Items, updates: seq<Update>, answer: Answer)
    requires ReadEarlier(read, store.items)
    ensures Guarded(store, Integrate(store, read, updates, answer).0, answer.approved)
  {
    UpdatesAreGuarded(store, read, updates, answer);
    var written := ApplyUpdates(store, read, updates, answer).0;
    assert Integrate(store, read, updates, answer).0.items == written.items;
    assert Integrate(store, read, updates, answer).0.wording == written.wording;
  }

  /* ------------------------------------------- exactly which statements change */

  /** The first update about a requirement that says something new of it. */
  function FirstChange(updates: seq<Update>, id: string, said: string, answer: Answer): Option<string>
    decreases |updates|
  {
    if updates == [] then None
    else
      var earlier := FirstChange(updates[..|updates| - 1], id, said, answer);
      var last := updates[|updates| - 1];
      if earlier.Some? || last.itemId != id || SameWording(answer, last.description, said) then earlier
      else Some(last.description)
  }

  lemma {:induction false} FirstChangeIff(updates: seq<Update>, id: string, said: string, answer: Answer)
    ensures FirstChange(updates, id, said, answer).None?
       <==> forall j :: 0 <= j < |updates| && updates[j].itemId == id ==>
           SameWording(answer, updates[j].description, said)
    ensures FirstChange(updates, id, said, answer).Some? ==>
              !SameWording(answer, FirstChange(updates, id, said, answer).value, said)
    decreases |updates|
  {
    if updates != [] {
      var init := updates[..|updates| - 1];
      FirstChangeIff(init, id, said, answer);
      assert forall j :: 0 <= j < |init| ==> init[j] == updates[j];
    }
  }

  /** Whether an integration may write a requirement it is given an update about. */
  ghost predicate Writable(store: Store, read: Items, answer: Answer, id: string)
    requires id in store.items
  {
    && id in read && read[id].version == store.items[id].version
    && !IsProtected(id, store.items[id], answer.approved)
  }

  lemma {:induction false} StatementAfterUpdates(store: Store, read: Items, updates: seq<Update>, answer: Answer,
                                                 id: string)
    requires ReadEarlier(read, store.items) && id in store.items
    ensures var after, change := ApplyUpdates(store, read, updates, answer).0.items,
                                 FirstChange(updates, id, store.items[id].statement, answer);
      && id in after
      && after[id].statement
         == if Writable(store, read, answer, id) && change.Some? then change.value else store.items[id].statement
    decreases |updates|
  {
    if updates != [] {
      var init, last := updates[..|updates| - 1], updates[|updates| - 1];
      StatementAfterUpdates(store, read, init, answer, id);
      OneStatement(ApplyUpdates(store, read, init, answer).0, read, last, answer, id);
      if id in read {
        VersionAfterUpdates(store, read, init, answer, id);
        FirstChangeIff(init, id, read[id].statement, answer);
      }
    }
  }

  lemma OneStatement(store: Store, read: Items, update: Update, answer: Answer, id: string)
    requires id in store.items
    ensures var after := ApplyUpdate(store, read, update, answer).0.items;
      && id in after
      && after[id].statement
         == if id in read && update.itemId == id && read[id].version == store.items[id].version
               && !IsProtected(id, read[id], answer.approved)
               && !SameWording(answer, update.description, read[id].statement)
            then update.description else store.items[id].statement
  {
  }

  /** An integration changes a statement exactly when it was given the requirement, nobody
      has written it since, none of the four protections held as they were read, and some
      update says something new; and then the first such update is what it says. */
  lemma StatementChangesIff(store: Store, read: Items, updates: seq<Update>, answer: Answer, id: string)
    requires ReadEarlier(read, store.items) && id in store.items
    ensures id in Integrate(store, read, updates, answer).0.items
    ensures var now, later := store.items[id].statement, Integrate(store, read, updates, answer).0.items[id].statement;
      && (later != now <==> Writable(store, read, answer, id) && FirstChange(updates, id, now, answer).Some?)
      && (later != now ==> Some(later) == FirstChange(updates, id, now, answer))
  {
    StatementAfterUpdates(store, read, updates, answer, id);
    FirstChangeIff(updates, id, store.items[id].statement, answer);
  }

  /* --------------------------------------------------------------- over runs */

  /** Every integration of the run writes from items read at some earlier moment. */
  ghost predicate FairReads(store: Store, events: seq<Event>)
    decreases |events|
  {
    events != [] ==>
      && (events[0].Integration? ==> ReadEarlier(events[0].read, store.items))
      && FairReads(Next(store, events[0]), events[1..])
  }

  /** A person gives this requirement new words. */
  predicate Rewords(event: Event, id: string) {
    match event
    case EditRequirement(edited, _, edit) => edited == id && edit.statement.Some?
    case ResolveProposal(resolved, _, decision, _) => resolved == id && !decision.RejectProposal?
    case RewriteSide(ids, _) => ids != [] && ids[0] == id
    case _ => false
  }

  lemma MarksStay(store: Store, event: Event, id: string)
    requires id in store.items
    requires event.Integration? ==> ReadEarlier(event.read, store.items)
    ensures id in Next(store, event).items
    ensures Next(store, event).items[id].origin == store.items[id].origin
    ensures store.items[id].editedByUser ==> Next(store, event).items[id].editedByUser
    ensures store.wording <= Next(store, event).wording
  {
    match event
    case Integration(read, updates, answer) => IntegrationOutranksNobody(store, read, updates, answer);
    case MergeDuplicates(ids, primary) => SetAsideKeepsOrigin(store.items, ids, Some(primary), SupersededItem, false);
    case ChooseSide(ids, winner) => SetAsideKeepsOrigin(store.items, ids, Some(winner), RejectedItem, true);
    case RewriteSide(ids, replacement) =>
      if ids != [] {
        SetAsideKeepsOrigin(RewriteFirst(store.items, ids[0], replacement), ids[1..], None, RejectedItem, true);
      }
    case _ =>
  }

  lemma {:induction false} SetAsideKeepsOrigin(items: Items, ids: seq<string>, except: Option<string>,
                                               status: ItemStatus, byUser: bool)
    ensures SetAside(items, ids, except, status, byUser).Keys == items.Keys
    ensures forall id :: id in items ==> SetAside(items, ids, except, status, byUser)[id].origin == items[id].origin
    ensures forall id :: id in items && items[id].editedByUser ==>
            SetAside(items, ids, except, status, byUser)[id].editedByUser
    decreases |ids|
  {
    if ids != [] { SetAsideKeepsOrigin(items, ids[..|ids| - 1], except, status, byUser); }
  }

  lemma WordingChanges(store: Store, event: Event, id: string)
    requires id in store.items
    requires event.Integration? ==> ReadEarlier(event.read, store.items)
    ensures id in Next(store, event).items
    ensures Next(store, event).items[id].statement != store.items[id].statement ==>
              || (event.Integration? && !IsProtected(id, store.items[id], event.answer.approved)
                  && Records(Next(store, event).wording, id, store.items[id]))
              || (event.ResolveProposal? && Rewords(event, id)
                 && Records(Next(store, event).wording, id, store.items[id]))
              || ((event.EditRequirement? || event.RewriteSide?) && Rewords(event, id)
                  && Next(store, event).wording == store.wording)
  {
    match event
    case Integration(read, updates, answer) => IntegrationOutranksNobody(store, read, updates, answer);
    case MergeDuplicates(ids, primary) => SetAsideIsLater(store.items, ids, Some(primary), SupersededItem, false);
    case ChooseSide(ids, winner) => SetAsideIsLater(store.items, ids, Some(winner), RejectedItem, true);
    case RewriteSide(ids, replacement) => RewriteSideIsLater(store.items, ids, replacement);
    case ResolveProposal(resolved, expected, decision, cite) =>
      if resolved == id && store.items[id].proposal.Some? && !decision.RejectProposal? {
        assert Next(store, event).wording[|store.wording|]
            == PastWording(id, store.items[id].version, store.items[id].statement, ByAcceptedProposal);
      }
    case _ =>
  }

  /** Over every run: a requirement a person wrote or edited keeps the words it has until a
      person changes them, whatever any model returns; and it never stops counting as
      theirs. */
  lemma {:induction false} HumanWordingStands(store: Store, events: seq<Event>, id: string)
    requires id in store.items && (store.items[id].editedByUser || store.items[id].origin == Manual)
    requires FairReads(store, events) && forall i :: 0 <= i < |events| ==> !Rewords(events[i], id)
    ensures id in Run(store, events).items
    ensures Run(store, events).items[id].statement == store.items[id].statement
    ensures store.items[id].editedByUser ==> Run(store, events).items[id].editedByUser
    decreases |events|
  {
    if events != [] {
      MarksStay(store, events[0], id);
      WordingChanges(store, events[0], id);
      assert forall i :: 0 <= i < |events[1..]| ==> events[1..][i] == events[i + 1];
      HumanWordingStands(Next(store, events[0]), events[1..], id);
    }
  }

  /* ------------------------------------------------------- approved baselines */

  /** What approved a requirement stops doing so exactly when a review of the signed
      baseline is started, which no status forbids, or a new analysis supersedes it. */
  lemma ApprovalLostIff(store: Store, event: Event, id: string)
    requires id in ApprovedIds(store)
    ensures id !in ApprovedIds(Next(store, event)) <==> event.StartReview? || event.NewBaseline?
  {
    BaselineOnly(store, event);
  }

  /** The other calls leave the baseline in force alone. */
  lemma BaselineOnly(store: Store, event: Event)
    ensures Next(store, event).baseline ==
      if event.NewBaseline? then Some(Baseline(DraftBaseline, event.itemIds, 0))
      else if store.baseline.Some? then Some(NextBaseline(store.items, store.baseline.value, event)) else None
  {
    if event.Integration? { UpdatesLeaveBaseline(store, event.read, event.updates, event.answer); }
  }

  lemma {:induction false} UpdatesLeaveBaseline(store: Store, read: Items, updates: seq<Update>, answer: Answer)
    ensures ApplyUpdates(store, read, updates, answer).0.baseline == store.baseline
    decreases |updates|
  {
    if updates != [] { UpdatesLeaveBaseline(store, read, updates[..|updates| - 1], answer); }
  }

  predicate KeepsApproval(event: Event) { !event.StartReview? && !event.NewBaseline? }

  lemma {:induction false} ApprovedStays(store: Store, events: seq<Event>, id: string)
    requires id in ApprovedIds(store) && forall i :: 0 <= i < |events| ==> KeepsApproval(events[i])
    ensures id in ApprovedIds(Run(store, events))
    decreases |events|
  {
    if events != [] {
      ApprovalLostIff(store, events[0], id);
      assert forall i :: 0 <= i < |events[1..]| ==> events[1..][i] == events[i + 1];
      ApprovedStays(Next(store, events[0]), events[1..], id);
    }
  }

  /** The approvals an integration of the run goes by were read during the run. */
  ghost predicate ApprovalsReadInRun(store: Store, events: seq<Event>, k: nat)
    requires k < |events| && events[k].Integration?
  {
    exists j :: 0 <= j <= k && events[k].answer.approved == ApprovedIds(Run(store, events[..j]))
  }

  /** Over every run from an approved baseline: while it stays approved, and every
      integration has read the approvals since, no model changes the words of a
      requirement it names. */
  lemma ApprovedWordingStands(store: Store, events: seq<Event>, id: string)
    requires id in store.items && id in ApprovedIds(store) && FairReads(store, events)
    requires forall i :: 0 <= i < |events| ==> KeepsApproval(events[i]) && !Rewords(events[i], id)
    requires forall k :: 0 <= k < |events| && events[k].Integration? ==> ApprovalsReadInRun(store, events, k)
    ensures id in Run(store, events).items && Run(store, events).items[id].statement == store.items[id].statement
    ensures id in ApprovedIds(Run(store, events))
  {
    forall k | 0 <= k < |events| && events[k].Integration? ensures id in events[k].answer.approved {
      var j :| 0 <= j <= k && events[k].answer.approved == ApprovedIds(Run(store, events[..j]));
      assert forall i :: 0 <= i < j ==> events[..j][i] == events[i];
      ApprovedStays(store, events[..j], id);
    }
    ApprovedStays(store, events, id);
    KnownApprovedStands(store, events, id);
  }

  lemma {:induction false} KnownApprovedStands(store: Store, events: seq<Event>, id: string)
    requires id in store.items && FairReads(store, events)
    requires forall i :: 0 <= i < |events| ==> !Rewords(events[i], id)
    requires forall k :: 0 <= k < |events| && events[k].Integration? ==> id in events[k].answer.approved
    ensures id in Run(store, events).items && Run(store, events).items[id].statement == store.items[id].statement
    decreases |events|
  {
    if events != [] {
      WordingChanges(store, events[0], id);
      assert forall i :: 0 <= i < |events[1..]| ==> events[1..][i] == events[i + 1];
      KnownApprovedStands(Next(store, events[0]), events[1..], id);
    }
  }

  /** What the item itself says about who decided it. */
  predicate IsOwned(item: Item) { item.origin == Manual || item.editedByUser || item.status == AcceptedItem }

  /** Approval while the model runs protects nothing. A requirement read in no approved
      baseline and named by one at the time of writing is rewritten all the same, exactly
      when nobody has written it since, nobody owns it, and an update says something new. */
  lemma ApprovedMeanwhileRewrittenIff(store: Store, meanwhile: seq<Event>, given: Items, updates: seq<Update>,
                                      answer: Answer, id: string)
    requires forall g :: g in given ==> g in store.items && given[g] == store.items[g]
    requires answer.approved == ApprovedIds(store)
    requires id in given && id !in ApprovedIds(store) && id in ApprovedIds(Run(store, meanwhile))
    ensures var now := Run(store, meanwhile);
      var after := Next(now, Integration(given, updates, answer));
      && id in now.items && id in after.items && id in ApprovedIds(after)
      && (after.items[id].statement != now.items[id].statement <==>
            now.items[id].version == store.items[id].version && !IsOwned(now.items[id])
            && FirstChange(updates, id, now.items[id].statement, answer).Some?)
  {
    var now := Run(store, meanwhile);
    ReadingsStayFair(store, meanwhile);
    StatementChangesIff(now, given, updates, answer, id);
    ApprovalLostIff(now, Integration(given, updates, answer), id);
  }

  /** It does happen, from an empty project: a requirement is analysed, an answer starts
      being integrated, the baseline is approved, and the answer rewrites it. */
  lemma ApprovedWordingCanChange(id: string, item: Item, update: Update, answer: Answer)
    requires item.status == Drafted && !IsOwned(item)
    requires update.itemId == id && !SameWording(answer, update.description, item.statement) && answer.approved == {}
    ensures var read := Run(Store(map[], [], map[], None), [Insert(map[id := item]), NewBaseline({id})]);
      var signed := Next(read, ApproveBaseline(0, false));
      var after := Next(signed, Integration(read.items, [update], answer));
      && answer.approved == ApprovedIds(read) && id in ApprovedIds(signed) && id in signed.items
      && signed.items[id].statement == item.statement
      && id in ApprovedIds(after) && id in after.items && after.items[id].statement == update.description
  {
    var events := [Insert(map[id := item]), NewBaseline({id})];
    var first := Next(Store(map[], [], map[], None), events[0]);
    var read := Next(first, events[1]);
    assert events[1..] == [events[1]] && Run(first, events[1..]) == read;
    var signed := Next(read, ApproveBaseline(0, false));
    assert Counts(read.items[id]) && id in Refreshed(read.items, read.baseline.value).itemIds;
    StatementChangesIff(signed, read.items, [update], answer, id);
    ApprovalLostIff(signed, Integration(read.items, [update], answer), id);
  }

  lemma {:induction false} EditedStaysEdited(store: Store, events: seq<Event>, id: string)
    requires id in store.items && FairReads(store, events)
    ensures id in Run(store, events).items && store.wording <= Run(store, events).wording
    ensures store.items[id].editedByUser ==> Run(store, events).items[id].editedByUser
    decreases |events|
  {
    if events != [] {
      MarksStay(store, events[0], id);
      EditedStaysEdited(Next(store, events[0]), events[1..], id);
    }
  }

  /** Over every run: whichever event of it changed a requirement's words, the words before
      it are on record at the end, unless the change was a person's own edit or a rewrite
      settling a conflict. */
  lemma {:induction false} RewritesAreRecorded(store: Store, events: seq<Event>, k: nat, id: string)
    requires FairReads(store, events) && k < |events|
    requires id in Run(store, events[..k]).items
    requires !events[k].EditRequirement? && !events[k].RewriteSide?
    ensures var before := Run(store, events[..k]); var after := Next(before, events[k]);
      id in after.items
      && (after.items[id].statement != before.items[id].statement ==>
            Records(Run(store, events).wording, id, before.items[id]))
    decreases |events|
  {
    if k == 0 {
      assert events[..0] == [];
      var next := Next(store, events[0]);
      WordingChanges(store, events[0], id);
      EditedStaysEdited(next, events[1..], id);
      if next.items[id].statement != store.items[id].statement {
        RecordsGrow(next.wording, Run(store, events).wording, id, store.items[id]);
      }
    } else {
      assert events[..k][0] == events[0] && events[..k][1..] == events[1..][..k - 1];
      RewritesAreRecorded(Next(store, events[0]), events[1..], k - 1, id);
    }
  }

  /** Where history has a gap. A call that changes a requirement's words records no earlier
      wording at all exactly when it is an ordinary edit or settles a conflict by rewriting
      a side; every other one has recorded the words it replaced. */
  lemma ChangesUnrecordedIff(store: Store, event: Event, id: string)
    requires id in store.items && id in Next(store, event).items
    requires Next(store, event).items[id].statement != store.items[id].statement
    requires event.Integration? ==> ReadEarlier(event.read, store.items)
    ensures Next(store, event).wording == store.wording <==> event.EditRequirement? || event.RewriteSide?
    ensures !(event.EditRequirement? || event.RewriteSide?) ==> Records(Next(store, event).wording, id, store.items[id])
  {
    WordingChanges(store, event, id);
    if event.Integration? { ChangeIsRecorded(store, event.read, event.updates, event.answer, id); }
  }

  /** Both do lose words: either call can say anything of a requirement nobody set aside. */
  lemma EditsRecordNothing(store: Store, id: string, words: string, edit: ItemEdit)
    requires id in store.items && store.items[id].status != SupersededItem && edit.statement == Some(words)
    ensures var edited := Next(store, EditRequirement(id, store.items[id].version, edit));
      edited.items[id].statement == words && edited.wording == store.wording
    ensures var settled := Next(store, RewriteSide([id], words));
      id in settled.items && settled.items[id].statement == words && settled.wording == store.wording
  {
    var first := RewriteFirst(store.items, id, words);
    assert [id][1..] == [];
    assert SetAside(first, [], None, RejectedItem, true) == first;
  }

  lemma {:induction false} ChangeIsRecorded(store: Store, read: Items, updates: seq<Update>, answer: Answer, id: string)
    requires ReadEarlier(read, store.items) && id in store.items
    ensures store.wording <= ApplyUpdates(store, read, updates, answer).0.wording
    ensures id in ApplyUpdates(store, read, updates, answer).0.items
    ensures ApplyUpdates(store, read, updates, answer).0.items[id].statement != store.items[id].statement ==>
              |ApplyUpdates(store, read, updates, answer).0.wording| > |store.wording|
    decreases |updates|
  {
    if updates != [] {
      var init := updates[..|updates| - 1];
      ChangeIsRecorded(store, read, init, answer, id);
      UpdatesAreGuarded(store, read, init, answer);
    }
  }

  /* ------------------------------------------------ what the impacts claim */

  lemma {:induction false} VersionAfterUpdates(store: Store, read: Items, updates: seq<Update>, answer: Answer,
                                               id: string)
    requires ReadEarlier(read, store.items) && id in read
    ensures var after := ApplyUpdates(store, read, updates, answer).0;
      id in after.items
      && (after.items[id].version == read[id].version <==>
            store.items[id].version == read[id].version
            && forall j :: 0 <= j < |updates| && updates[j].itemId == id ==>
               SameWording(answer, updates[j].description, read[id].statement))
    decreases |updates|
  {
    if updates != [] {
      var init, last := updates[..|updates| - 1], updates[|updates| - 1];
      VersionAfterUpdates(store, read, init, answer, id);
      UpdatesAreGuarded(store, read, init, answer);
      assert forall j :: 0 <= j < |init| ==> init[j] == updates[j];
    }
  }

  /** An update reported as applied was written exactly when nobody touched the requirement
      since it was read and no earlier update of the same answer was about it too. When it
      was not, the report says applied all the same. */
  lemma AppliedIffFirstAndUndisturbed(store: Store, read: Items, updates: seq<Update>, answer: Answer, k: nat)
    requires ReadEarlier(read, store.items) && k < |updates| && updates[k].itemId in read
    requires !SameWording(answer, updates[k].description, read[updates[k].itemId].statement)
    requires ProtectionFor(updates[k].itemId, read[updates[k].itemId], answer.approved).None?
    ensures var id, before := updates[k].itemId, ApplyUpdates(store, read, updates[..k], answer).0;
      var (after, impacts) := ApplyUpdate(before, read, updates[k], answer);
      && impacts == [Impact(id, Applied, read[id].statement, updates[k].description)]
      && (after.items != before.items <==>
            store.items[id].version == read[id].version
            && forall j :: 0 <= j < k && updates[j].itemId == id ==>
               SameWording(answer, updates[j].description, read[id].statement))
      && (after.items != before.items ==> after.items[id].statement == updates[k].description)
  {
    var id := updates[k].itemId;
    VersionAfterUpdates(store, read, updates[..k], answer, id);
    var before := ApplyUpdates(store, read, updates[..k], answer).0;
    var after := ApplyUpdate(before, read, updates[k], answer).0;
    assert forall j :: 0 <= j < k ==> updates[..k][j] == updates[j];
    if before.items[id].version == read[id].version { assert after.items[id].version != before.items[id].version; }
  }

  /* -------------------------------------------------------- closing findings */

  /** A finding is closed by an integration exactly when an update claims it and it is
      open, about a requirement the integration was given, and no conflict. */
  lemma ClosedIff(findings: Findings, read: Items, claimed: seq<string>, id: string)
    requires id in findings
    ensures var closed := CloseFindings(findings, read, claimed);
      && id in closed
      && closed[id]
         == if id in claimed && findings[id].status == OpenFinding && findings[id].kind != Conflict
               && exists itemId :: itemId in findings[id].itemIds && itemId in read
            then findings[id].(status := Settled, version := findings[id].version + 1) else findings[id]
  {
    ClosedIfAllowed(findings, read, claimed, id);
  }

  lemma {:induction false} ClosedIfAllowed(findings: Findings, read: Items, claimed: seq<string>, id: string)
    requires id in findings
    ensures id in CloseFindings(findings, read, claimed)
    ensures CloseFindings(findings, read, claimed)[id]
         == if id in claimed && MayClose(findings, id, read)
            then findings[id].(status := Settled, version := findings[id].version + 1) else findings[id]
    decreases |claimed|
  {
    if claimed != [] {
      var last := claimed[|claimed| - 1];
      ClosedIfAllowed(findings, read, claimed[..|claimed| - 1], id);
      var before := CloseFindings(findings, read, claimed[..|claimed| - 1]);
      assert id in claimed <==> id in claimed[..|claimed| - 1] || id == last;
      if id == last { assert MayClose(before, id, read) ==> before[id] == findings[id]; }
    }
  }

  lemma {:induction false} AddAllHas(claimed: seq<string>, ids: seq<string>, id: string)
    ensures id in AddAll(claimed, ids) <==> id in claimed || id in ids
    decreases |ids|
  {
    if ids != [] { AddAllHas(if ids[0] in claimed then claimed else claimed + [ids[0]], ids[1..], id); }
  }

  lemma {:induction false} ClaimedHas(updates: seq<Update>, claimed: seq<string>, id: string)
    ensures id in ClaimedIn(updates, claimed) <==>
              id in claimed || exists i :: 0 <= i < |updates| && id in updates[i].resolvedFindingIds
    decreases |updates|
  {
    if updates != [] {
      AddAllHas(claimed, updates[0].resolvedFindingIds, id);
      ClaimedHas(updates[1..], AddAll(claimed, updates[0].resolvedFindingIds), id);
      if exists i :: 0 <= i < |updates[1..]| && id in updates[1..][i].resolvedFindingIds {
        var i :| 0 <= i < |updates[1..]| && id in updates[1..][i].resolvedFindingIds;
        assert id in updates[i + 1].resolvedFindingIds;
      }
      if exists i :: 0 < i < |updates| && id in updates[i].resolvedFindingIds {
        var i :| 0 < i < |updates| && id in updates[i].resolvedFindingIds;
        assert id in updates[1..][i - 1].resolvedFindingIds;
      }
    }
  }

  /* ------------------------------------------------- a refusal that changes things */

  /** A refused decision on a duplicate group normally changes nothing. It does exactly
      when it is a merge refused for a stale version and the group holds another item:
      the others have been superseded by then. */
  lemma RefusedMergeChangesIff(store: Store, id: string, expected: nat, mergeInto: Option<string>)
    requires ResolveDuplicate(store, id, expected, mergeInto).1.Some?
    ensures ResolveDuplicate(store, id, expected, mergeInto).0 != store <==>
      && ResolveDuplicate(store, id, expected, mergeInto).1 == Some(StaleVersion) && mergeInto.Some?
      && exists itemId :: itemId in store.findings[id].itemIds && itemId != mergeInto.value && itemId in store.items
  {
    var (after, error) := ResolveDuplicate(store, id, expected, mergeInto);
    if error == Some(StaleVersion) && mergeInto.Some? {
      var ids := store.findings[id].itemIds;
      forall itemId | itemId in store.items {
        SetAsideVersion(store.items, ids, mergeInto, SupersededItem, false, itemId);
      }
      SetAsideIsLater(store.items, ids, mergeInto, SupersededItem, false);
      if forall itemId :: itemId in ids && itemId != mergeInto.value ==> itemId !in store.items {
        assert after.items == store.items;
      }
    }
  }

  lemma {:induction false} SetAsideVersion(items: Items, ids: seq<string>, except: Option<string>, status: ItemStatus,
                                           byUser: bool, id: string)
    requires id in items
    ensures id in SetAside(items, ids, except, status, byUser)
    ensures id in ids && except != Some(id) ==>
            SetAside(items, ids, except, status, byUser)[id].version > items[id].version
    ensures !(id in ids && except != Some(id)) ==> SetAside(items, ids, except, status, byUser)[id] == items[id]
    decreases |ids|
  {
    if ids != [] {
      SetAsideVersion(items, ids[..|ids| - 1], except, status, byUser, id);
      SetAsideIsLater(items, ids[..|ids| - 1], except, status, byUser);
      assert id in ids <==> id in ids[..|ids| - 1] || id == ids[|ids| - 1];
    }
  }
}
