/** Requirements as the analysis stores them, and every call that can change one. */
module Requirements {
  import opened Wrappers

  datatype ItemOrigin = FromModel | Manual | FromClarification
  datatype ItemStatus = Drafted | AcceptedItem | EditedItem | RejectedItem | SupersededItem

  /** Why a rewrite was proposed instead of applied. */
  datatype ProposalReason = AlreadyApproved | UserCreated | ManuallyEdited | AcceptedByUser

  datatype Revision = Revision(clarificationId: string, current: string, proposed: string, reason: ProposalReason)

  datatype Item = Item(
    origin: ItemOrigin,
    status: ItemStatus,
    statement: string,
    editedByUser: bool,
    proposal: Option<Revision>,
    needsRevalidation: bool,
    /** The clarifications its evidence cites. */
    cites: seq<string>,
    version: nat)

  datatype Author = ByIntegration | ByAcceptedProposal

  /** Earlier words of a requirement, and what replaced them. */
  datatype PastWording = PastWording(itemId: string, version: nat, statement: string, changedBy: Author)

  type Items = map<string, Item>

  datatype FindingType = Duplicate | Conflict | Ambiguity | Missing
  datatype FindingStatus = OpenFinding | Settled | OtherStatus(code: string)
  datatype Finding = Finding(kind: FindingType, status: FindingStatus, itemIds: seq<string>, version: nat)

  type Findings = map<string, Finding>

  datatype BaselineStatus = DraftBaseline | InReview | ApprovedBaseline | OutdatedBaseline

  /** The baseline in force. A new analysis supersedes every earlier one. */
  datatype Baseline = Baseline(status: BaselineStatus, itemIds: set<string>, recordVersion: nat)

  datatype Store = Store(items: Items, wording: seq<PastWording>, findings: Findings, baseline: Option<Baseline>)

  predicate IsSigned(baseline: Baseline) { baseline.status in {ApprovedBaseline, OutdatedBaseline} }

  /** The requirements an approved baseline names, whether or not it is out of date. */
  function ApprovedIds(store: Store): set<string> {
    if store.baseline.Some? && IsSigned(store.baseline.value) then store.baseline.value.itemIds else {}
  }

  /** The conditional write. What it sets goes over what is stored. */
  function UpdateItem(items: Items, id: string, expected: nat, change: Item -> Item): Items {
    if id in items && items[id].version == expected
    then items[id := change(items[id]).(version := expected + 1)]
    else items
  }

  function UpdateFinding(findings: Findings, id: string, expected: nat, status: FindingStatus): Findings {
    if id in findings && findings[id].version == expected
    then findings[id := findings[id].(status := status, version := expected + 1)]
    else findings
  }

  /* ------------------------------------------------------------- integration */

  /** One rewrite the model returned, and the findings it says that settles. */
  datatype Update = Update(itemId: string, description: string, resolvedFindingIds: seq<string>)

  datatype ImpactKind = Unchanged | Proposed(why: ProposalReason) | Applied
  datatype Impact = Impact(itemId: string, kind: ImpactKind, before: string, after: string)

  /** What one confirmed answer brings. `approved` holds the requirements an approved
      baseline named when it was read, before the model was asked; `normalise` reduces a
      wording to its letters and digits. */
  datatype Answer = Answer(clarificationId: string, approved: set<string>, normalise: string -> string)

  predicate SameWording(answer: Answer, a: string, b: string) { answer.normalise(a) == answer.normalise(b) }

  /** Whether a requirement is protected from automatic rewriting, and why. */
  function ProtectionFor(id: string, item: Item, approved: set<string>): Option<ProposalReason> {
    if id in approved then Some(AlreadyApproved)
    else if item.origin == Manual then Some(UserCreated)
    else if item.editedByUser then Some(ManuallyEdited)
    else if item.status == AcceptedItem then Some(AcceptedByUser)
    else None
  }

  function Without(cites: seq<string>, id: string): seq<string> {
    if cites == [] then []
    else (if cites[0] == id then [] else [cites[0]]) + Without(cites[1..], id)
  }

  function Propose(update: Update, read: Item, reason: ProposalReason, answer: Answer): Item -> Item {
    (stored: Item) => stored.(proposal :=
        Some(Revision(answer.clarificationId, read.statement, update.description, reason)))
  }

  function Rewrite(update: Update, read: Item, answer: Answer): Item -> Item {
    (stored: Item) => stored.(statement := update.description, needsRevalidation := false,
                              cites := Without(read.cites, answer.clarificationId) + [answer.clarificationId])
  }

  /** One update, judged and written from the item as it was read before the model ran. */
  function ApplyUpdate(store: Store, read: Items, update: Update, answer: Answer): (Store, seq<Impact>) {
    if update.itemId !in read then (store, [])
    else
      var id, item := update.itemId, read[update.itemId];
      var guard := ProtectionFor(id, item, answer.approved);
      if SameWording(answer, update.description, item.statement) then
        (store, [Impact(id, Unchanged, item.statement, item.statement)])
      else if guard.Some? then
        (store.(items := UpdateItem(store.items, id, item.version, Propose(update, item, guard.value, answer))),
         [Impact(id, Proposed(guard.value), item.statement, update.description)])
      else
        (store.(wording := store.wording + [PastWording(id, item.version, item.statement, ByIntegration)],
                items := UpdateItem(store.items, id, item.version, Rewrite(update, item, answer))),
         [Impact(id, Applied, item.statement, update.description)])
  }

  function ApplyUpdates(store: Store, read: Items, updates: seq<Update>, answer: Answer): (Store, seq<Impact>)
    decreases |updates|
  {
    if updates == [] then (store, [])
    else
      var (before, impacts) := ApplyUpdates(store, read, updates[..|updates| - 1], answer);
      var (after, last) := ApplyUpdate(before, read, updates[|updates| - 1], answer);
      (after, impacts + last)
  }

  /** Every finding the updates name, each once, in the order they first name it. */
  function ClaimedIn(updates: seq<Update>, claimed: seq<string>): seq<string>
    decreases |updates|
  {
    if updates == [] then claimed
    else ClaimedIn(updates[1..], AddAll(claimed, updates[0].resolvedFindingIds))
  }

  function AddAll(claimed: seq<string>, ids: seq<string>): seq<string>
    decreases |ids|
  {
    if ids == [] then claimed
    else AddAll(if ids[0] in claimed then claimed else claimed + [ids[0]], ids[1..])
  }

  /** Whether an integration may close a finding: open, no contradiction, and about a
      requirement it was given. */
  predicate MayClose(findings: Findings, id: string, read: Items) {
    && id in findings && findings[id].status == OpenFinding && findings[id].kind != Conflict
    && exists itemId :: itemId in findings[id].itemIds && itemId in read
  }

  function CloseFindings(findings: Findings, read: Items, claimed: seq<string>): Findings
    decreases |claimed|
  {
    if claimed == [] then findings
    else
      var last := claimed[|claimed| - 1];
      var before := CloseFindings(findings, read, claimed[..|claimed| - 1]);
      if MayClose(before, last, read) then UpdateFinding(before, last, before[last].version, Settled) else before
  }

  /** Everything written after the model's output validated. */
  function Integrate(store: Store, read: Items, updates: seq<Update>, answer: Answer): (Store, seq<Impact>) {
    var (written, impacts) := ApplyUpdates(store, read, updates, answer);
    (written.(findings := CloseFindings(written.findings, read, ClaimedIn(updates, []))), impacts)
  }

  /* --------------------------------------------------------- what people do */

  datatype ItemEdit = ItemEdit(statement: Option<string>, otherContent: bool, status: Option<ItemStatus>)

  predicate ChangesContent(edit: ItemEdit) { edit.statement.Some? || edit.otherContent }

  function Edited(edit: ItemEdit): Item -> Item {
    (stored: Item) => stored.(
      statement := edit.statement.GetOr(stored.statement),
      status := edit.status.GetOr(if ChangesContent(edit) then EditedItem else stored.status),
      editedByUser := stored.editedByUser || ChangesContent(edit))
  }

  datatype ProposalDecision = RejectProposal | AcceptProposal | RewordProposal(statement: Option<string>)

  function Decided(decision: ProposalDecision, proposal: Revision): string {
    if decision.RewordProposal? then decision.statement.GetOr(proposal.proposed) else proposal.proposed
  }

  function Accepted(statement: string, item: Item, proposal: Revision, cite: bool): Item -> Item {
    (stored: Item) => stored.(statement := statement, status := EditedItem, editedByUser := true,
                              needsRevalidation := false, proposal := None,
                              cites := Without(item.cites, proposal.clarificationId)
                                       + if cite then [proposal.clarificationId] else [])
  }

  /** Every item of a group but one is set aside. */
  function SetAside(items: Items, ids: seq<string>, except: Option<string>, status: ItemStatus, byUser: bool): Items
    decreases |ids|
  {
    if ids == [] then items
    else
      var before := SetAside(items, ids[..|ids| - 1], except, status, byUser);
      var last := ids[|ids| - 1];
      if except == Some(last) || last !in before then before
      else UpdateItem(before, last, before[last].version,
                      (stored: Item) => stored.(status := status, editedByUser := stored.editedByUser || byUser))
  }

  function RewriteFirst(items: Items, id: string, replacement: string): Items {
    if id !in items then items
    else UpdateItem(items, id, items[id].version,
                    (stored: Item) => stored.(statement := replacement, status := EditedItem, editedByUser := true))
  }

  function RewrittenSides(items: Items, ids: seq<string>, replacement: string): Items {
    if ids == [] then items
    else SetAside(RewriteFirst(items, ids[0], replacement), ids[1..], None, RejectedItem, true)
  }

  /* -------------------------------------------------------------- the baseline */

  predicate Counts(item: Item) { item.status in {Drafted, AcceptedItem, EditedItem} }

  /** A baseline not yet signed names every requirement that counts. */
  function Refreshed(items: Items, baseline: Baseline): Baseline {
    if IsSigned(baseline) then baseline
    else baseline.(itemIds := set id | id in items && Counts(items[id]))
  }

  predicate MayApprove(baseline: Baseline, expected: nat, blocked: bool) {
    !IsSigned(baseline) && baseline.itemIds != {} && !blocked && baseline.recordVersion == expected
  }

  /** Approval refreshes first, and keeps what that computed when it refuses. */
  function Approved(items: Items, baseline: Baseline, expected: nat, blocked: bool): Baseline {
    var refreshed := Refreshed(items, baseline);
    if MayApprove(refreshed, expected, blocked)
    then refreshed.(status := ApprovedBaseline, recordVersion := expected + 1) else refreshed
  }

  datatype Event =
    /** A confirmed answer, written from items read earlier. */
    | Integration(read: Items, updates: seq<Update>, answer: Answer)
    | EditRequirement(id: string, expected: nat, edit: ItemEdit)
    /** A new analysis, a requirement written by hand, or an assumption put on record. */
    | Insert(added: Items)
    | ResolveProposal(id: string, expected: nat, decision: ProposalDecision, cite: bool)
    | MergeDuplicates(ids: seq<string>, primary: string)
    | ChooseSide(ids: seq<string>, winner: string)
    | RewriteSide(ids: seq<string>, replacement: string)
    | MarkForRevalidation(marked: seq<string>)
    /** A new analysis has written its requirements. */
    | NewBaseline(itemIds: set<string>)
    | RefreshBaseline
    | StartReview
    | ApproveBaseline(expected: nat, blocked: bool)
    /** A source or an answer has changed. */
    | OutdateBaseline

  function Next(store: Store, event: Event): Store {
    match event
    case Integration(read, updates, answer) => Integrate(store, read, updates, answer).0
    case EditRequirement(id, expected, edit) =>
      if id !in store.items || store.items[id].status == SupersededItem then store
      else store.(items := UpdateItem(store.items, id, expected, Edited(edit)))
    case Insert(added) => store.(items := added + store.items)
    case ResolveProposal(id, expected, decision, cite) =>
      if id !in store.items || store.items[id].proposal.None? then store
      else
        var item, proposal := store.items[id], store.items[id].proposal.value;
        if decision.RejectProposal? then
          store.(items :=
              UpdateItem(store.items, id, expected,
                  (stored: Item) => stored.(needsRevalidation := false, proposal := None)))
        else
          store.(wording := store.wording + [PastWording(id, item.version, item.statement, ByAcceptedProposal)],
                 items := UpdateItem(store.items, id, expected,
                     Accepted(Decided(decision, proposal), item, proposal, cite)))
    case MergeDuplicates(ids, primary) =>
      if primary !in ids then store
      else store.(items := SetAside(store.items, ids, Some(primary), SupersededItem, false))
    case ChooseSide(ids, winner) =>
      if winner !in ids then store
      else store.(items := SetAside(store.items, ids, Some(winner), RejectedItem, true))
    case RewriteSide(ids, replacement) =>
      store.(items := RewrittenSides(store.items, ids, replacement))
    case MarkForRevalidation(marked) =>
      store.(items := map id | id in store.items ::
        if id in marked then store.items[id].(needsRevalidation := true) else store.items[id])
    case NewBaseline(itemIds) => store.(baseline := Some(Baseline(DraftBaseline, itemIds, 0)))
    case _ =>
      match store.baseline
      case None => store
      case Some(baseline) => store.(baseline := Some(NextBaseline(store.items, baseline, event)))
  }

  /** What a call does to the baseline in force. Starting a review asks for no status. */
  function NextBaseline(items: Items, baseline: Baseline, event: Event): Baseline {
    match event
    case RefreshBaseline => Refreshed(items, baseline)
    case StartReview => baseline.(status := InReview, recordVersion := baseline.recordVersion + 1)
    case ApproveBaseline(expected, blocked) => Approved(items, baseline, expected, blocked)
    case OutdateBaseline =>
      if baseline.status == ApprovedBaseline then baseline.(status := OutdatedBaseline) else baseline
    case _ => baseline
  }

  function Run(store: Store, events: seq<Event>): Store
    decreases |events|
  {
    if events == [] then store else Run(Next(store, events[0]), events[1..])
  }

  /* ------------------------------------------------- settling a duplicate group */

  datatype AnalysisError =
    | FindingNotFound | AlreadyResolved | InvalidPrimary | StaleVersion
    | BaselineNotFound | BaselineAlreadyApproved | BaselineOutdated | BaselineEmpty | BaselineHasBlockers

  /** The decision on a duplicate group: merge into one of its items, or keep all of them. */
  function ResolveDuplicate(store: Store, id: string, expected: nat, mergeInto: Option<string>)
    : (Store, Option<AnalysisError>)
  {
    if id !in store.findings || store.findings[id].kind != Duplicate then (store, Some(FindingNotFound))
    else if store.findings[id].status != OpenFinding then (store, Some(AlreadyResolved))
    else if mergeInto.Some? && mergeInto.value !in store.findings[id].itemIds then (store, Some(InvalidPrimary))
    else
      var merged := if mergeInto.None? then store
        else store.(items := SetAside(store.items, store.findings[id].itemIds, mergeInto, SupersededItem, false));
      if store.findings[id].version != expected then (merged, Some(StaleVersion))
      else (merged.(findings := UpdateFinding(store.findings, id, expected, Settled)), None)
  }
}
