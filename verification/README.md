# Verification model of the delivery-document workbench

A Dafny 4.11 model of the parts of the workbench whose correctness depends on more than
one function: the engine of the seven controlled documents, the request limiter, the
protection of people's decisions during analysis, estimation, traceability and the bounded
inference loop. `dafny verify dfyconfig.toml` checks everything.

The model follows the program's structure. What the program computes is a function; what it
changes step by step is a class or a loop proved against such a function; and what the
program promises is proved about the functions, mostly over whole runs of calls.

* **Documents.** `DocumentTypes` has the lifecycle and dependency tables and the propagation
  walk; `DocumentContent` the merges of new compositions with people's work; `DocumentEngine`
  one function per operation on a working record, its live sections, features and rows by
  version, and its archive; `DocumentProject` all seven documents and runs of calls.
  `DocumentService` is the same engine as the program runs it, over stored collections. The
  remaining `Document*` modules and `RowRegeneration` prove the promises: what a generation, an
  edit, a rewrite and a decision leave in every section, feature and row (`DocumentGeneration`,
  `DocumentEdits`, `DocumentRewrites`), when each call goes through (`DocumentGates`), what
  history says of each version (`DocumentLineage`), signed history, agreement of archive and
  working version, conserved hours, what approval signs, restoration, lifecycles of rows,
  staleness, and the ground a signed document stands on; `DocumentFirstApproval` builds the
  reachable states where a promise breaks.
* **Rate limiting.** `RateLimitSpec` has the evicting store and the ideal one; the other
  `RateLimit*` modules compare them, bound what passes in any span, say when a refused caller
  may come back, and hold the in-place store and the audit throttle.
* **Analysis.** `Requirements`, `RequirementProtection`, `RequirementProposals` and
  `RequirementService` cover integration and people's decisions; `ClarificationAnswers`,
  `ConflictReevaluation` and `ConflictVerdicts` the two append-only records. Reads made before
  a model is asked and writes made after it are separate moments, and any other call may come
  in between. `CompareAndSet` is the conditional write on its own, under any interleaving.
* **Estimation.** `EstimateUnits` has one line, `EstimateVersions` and `EstimateLines`
  re-estimating and copying, `EstimateSnapshots` the versions with their statuses,
  re-estimations whose two halves have any other calls between them, and what reaches into an
  approved version, `EstimateService` the same as stored; `DependencyGraph` and
  `EstimateDependencies` the graph, and `RoleSplit` the hours by role.
* **Read models and loops.** `Traceability`, `TaskRunner` and `Metrics`.

## Where the program and its documentation differ

The model follows the program. Each point names the member that states it.

* A feature rewrite cuts a version that nothing archives, so the next edit reuses its number
  (`DocumentAgreement.EditAfterRewriteReusesNumber`), although every content change is
  described as cutting a new version (`apps/api/src/documents/documents.service.ts:1565-1581`).
* Suggested assumptions added to an approved document change its signed version when it is
  next archived, even once it has been issued (`DocumentSigned.CandidatesRewriteSigned`,
  `DocumentSigned.IssuedVersionRewritten`).
* Regenerating, restoring or rewriting rows of an approved document withdraws it without
  telling the documents built on it (`DocumentFoundations.CoverageKeptIff`).
* Revising an issued document drops its rows (`DocumentRestore.RevisedRowsKeptIff`).
* Every cut, whatever it is about, drops every pending feature proposal
  (`DocumentRestore.ProposalSurvivesIff`), and a restored version does not protect its features
  (`DocumentRestore.RestoredFeatureKeptIff`).
* An approved dependency sheet accepts lifecycle moves, although the comment at
  `apps/api/src/documents/documents.service.ts:2855-2856` says it refuses them
  (`DocumentRowLife.DependencyMovesIff`); and no lifecycle act puts a row into four of the
  nine states (`DocumentRowLife.UnreachedStatesAreInitial`).
* An eviction can refuse a request, not only allow one more
  (`RateLimitProofs.EvictionCanRefuse`), though only once the window that was lost would
  have ended (`RateLimitProofs.RefusedOnlyAfterLostWindow`,
  `RateLimitBound.RefusedAfterLostWindowIff`), and a full throttle audits a newcomer twice
  (`AuditThrottle.NewcomerAuditedTwiceIff`).
* A requirement approved while a model is rewriting it is rewritten all the same
  (`RequirementProtection.ApprovedMeanwhileRewrittenIff`), although
  `apps/api/src/analysis/clarification-integration.service.ts:397-398` says such a one never
  is; and starting a review takes the approval off a signed baseline
  (`RequirementProtection.ApprovalLostIff`), although
  `apps/api/src/analysis/baseline.service.ts:65` says that what was signed stays signed.
* An ordinary edit of a requirement, and a conflict settled by rewriting, record no earlier
  wording (`RequirementProtection.ChangesUnrecordedIff`), although the repository says everything that
  changes one does (`apps/api/src/analysis/analysis.repository.ts:260-265`); the same holds
  for two changes of a conflict (`ConflictReevaluation.ChangesWithoutSnapshotIff`).
* An integration reports an update as applied when it was not written
  (`RequirementProtection.AppliedIffFirstAndUndisturbed`), and a refused merge has already
  superseded the other items (`RequirementProtection.RefusedMergeChangesIff`).
* An answer that does not touch a settled conflict can reopen it
  (`ConflictReevaluation.BystanderReopens`).
* An approved estimate can change after it is reopened, because a line or a dependency is
  looked up by its id in any version (`EstimateSnapshots.ReopenedPlanCanChange`), and before
  that, when a re-estimation begun before the approval ends after it and rewrites the version
  it was given (`EstimateSnapshots.ApprovedWhileAsking`), although
  `apps/api/src/estimation/estimation.service.ts:832-833` says it keeps saying what it said.
* A re-estimation refused at its end stays recorded as running, and no other can begin after
  it (`EstimateSnapshots.RefusedEndBlocksAll`), although the path at
  `apps/api/src/estimation/estimation-ai.service.ts:176-183` closes the record of one whose
  model failed.
* A hand-written estimate line stops being a person's when a reset is the last thing done to
  it (`EstimateVersions.ManualLineSurvivesIff`), although
  `apps/api/src/estimation/estimation.service.ts:513-514` says re-estimation leaves it alone;
  a re-estimation refused for size has already deleted lines
  (`EstimateVersions.RefusedGenerateChangesIff`); and the graph is not always valid as
  `apps/api/src/estimation/estimation.service.ts:539-541` says
  (`EstimateDependencies.InferenceSchedulableIff`, `EstimateDependencies.PuttingBackSchedulableIff`).

## How things are represented

* The `order` field of sections, features and rows is their position in a sequence, and the
  identifiers handed out in one call come from a counter the call brings.
* A row payload is a map from fields to values; the row schema, the credential check and the
  check of work-package references are one predicate `accepts` that a call brings.
* Blockers of an approval computed from coverage, effort, scope and attribution are one flag;
  findings, prerequisites, undecided proposals and unconfirmed assumptions are modelled.
* A composition, a model's output and upstream versions are arbitrary values a call brings.
* Each operation on documents and estimates is one atomic step; only the conditional writes,
  and the time between reading and writing around a model call, are modelled under
  interleaving. A re-estimation is two steps: the gate, the test that none is running and the
  run record; then, after any other calls, everything it writes.
* Hours are real numbers rounded to hundredths; binary floating point is not modelled.

## Model

| member | source | states |
|---|---|---|
| `DocumentSigned.SignedHistoryIsImmutable` | apps/api/src/documents/documents.service.ts:1974-2025 | over every run of calls on a project that never adds candidates to an approved document, a version once archived as approved or issued keeps its sections, features and rows, and its status moves only from approved to issued |
| `DocumentSigned.ApplyKeepsSigned` | apps/api/src/documents/documents.service.ts:353-1342 | each single call keeps signed history and the invariant behind it, except candidates added to an approved document |
| `DocumentSigned.ArchivedContentChangesIff` | apps/api/src/documents/documents.service.ts:1974-2025 | a call other than an approval changes what an archived version says if and only if it archives the working version first and that version's live content has drifted from its archive |
| `DocumentSigned.CandidatesRewriteSigned` | apps/api/src/documents/documents.service.ts:2323-2330 | candidates added to an approved document wait, over any run that does not move it on, and the call that moves it on puts them into the signed version if and only if it archives the working version first |
| `DocumentSigned.IssuedVersionRewritten` | apps/api/src/documents/documents.service.ts:1053-1160 | candidates, then issuing, then revising or reopening change what an issued version says |
| `DocumentSigned.SignedHistoryCanChange` | apps/api/src/documents/documents.service.ts:2258-2346 | such a run exists from an empty project: assumptions approved on everything before them, one more suggested, the list issued, a revision begun |
| `DocumentAgreement.CutAlwaysSyncs` | apps/api/src/documents/documents.service.ts:1554-1682 | after every cutting operation the working version is the newest archived one, archived as it stands; history only grew |
| `DocumentAgreement.CutPreservesThePast` | apps/api/src/documents/documents.service.ts:1554-1682 | from a synchronised state every cut takes a strictly larger number and the version it leaves still holds the content from before the call, although live rows were changed first |
| `DocumentAgreement.AgreementKeptIff` | apps/api/src/documents/documents.service.ts:3305-3410 | archive and working version stay in step after a call if and only if it is neither a feature rewrite nor a non-empty addition of candidates |
| `DocumentAgreement.EditAfterRewriteReusesNumber` | apps/api/src/documents/documents.repository.ts:128-136 | an edit after a feature rewrite takes the same version number again and the rewritten words never enter history |
| `DocumentHistory.CutVersionSyncs` | apps/api/src/documents/documents.service.ts:434-473 | content cut under a number past all history is archived as it stands and disturbs no earlier version |
| `DocumentHistory.ArchiveFirst` | apps/api/src/documents/documents.service.ts:1974-2025 | archiving the working version rewrites only its own entry, with its live content, and raises the next free number past it |
| `DocumentHistory.NextIsNew` | apps/api/src/documents/documents.repository.ts:128-136 | the next version number is in no archive and above every archived one |
| `DocumentHistory.ApproveStays` | apps/api/src/documents/documents.service.ts:824-892 | an approval archives the working version as approved with its live content and moves nothing else |
| `DocumentHistory.MarkFinalStays` | apps/api/src/documents/documents.service.ts:1163-1220 | issuing turns only the working version's archived status to issued |
| `DocumentHistory.RegenerateFeaturesCut` | apps/api/src/documents/documents.service.ts:3341-3405 | a feature rewrite archives what it replaces and leaves the version it cuts in no archive |
| `DocumentLineage.LineageIsWrittenOnce` | apps/api/src/documents/documents.service.ts:1974-2025 | over every run, what a version in history says of how it was made, what it was restored from and what it revises, it says for good |
| `DocumentLineage.GenerationIsLabelled` | apps/api/src/documents/documents.service.ts:353-490 | a generation is archived under a new number as one, unvalidated, against what its record says, and names the version it supersedes |
| `DocumentLineage.FirstGenerationIsLabelled` | apps/api/src/documents/documents.service.ts:353-490 | a first generation is version one, archived as such |
| `DocumentLineage.ReopeningIsLabelled` | apps/api/src/documents/documents.service.ts:906-1040 | a reopened version is under revision, keeps the reasons and upstream versions of the approved one and names it as the one it revises |
| `DocumentLineage.RevisionIsLabelled` | apps/api/src/documents/documents.service.ts:1053-1160 | a revision is a draft without reasons, by today's upstream versions, names the issued version, and that one is on record as issued unless it already had a label |
| `DocumentLineage.RestorationIsLabelled` | apps/api/src/documents/documents.service.ts:1229-1342 | a restoration names the version it copies and keeps reasons and upstream versions |
| `DocumentLineage.ApprovalIsArchived` | apps/api/src/documents/documents.service.ts:824-892 | an approval archives the validation that was approved and moves nothing else of the record but its status |
| `DocumentHours.HoursConserved` | apps/api/src/documents/documents.service.ts:1837-1868 | over every run that neither generates, restores nor rewrites rows of a document, its features' unit ids, effort and hours are the same, row by row and in order |
| `DocumentHours.HoursComeFromCompositions` | apps/api/src/documents/documents.service.ts:3348-3374 | over every run from before a document exists, each listing it shows or has in history carries, row for row, the hours of one of the compositions the run brought |
| `DocumentHours.GenerateSetsHours` | apps/api/src/documents/documents.service.ts:1837-1868 | a generation sets the hours to exactly the composed ones, whatever was edited before |
| `DocumentHours.RestoreSetsHours` | apps/api/src/documents/documents.mapper.ts:124-153 | a restoration brings back exactly the hours of the chosen version |
| `DocumentApproval.ApprovalSignsWhatWasValidated` | apps/api/src/documents/documents.service.ts:824-892 | over every run, what an approval archives is word for word what the last validation read, with its findings, none blocking, nothing undecided and no suggestion unconfirmed |
| `DocumentApproval.ApplyStaysFaithful` | apps/api/src/documents/documents.service.ts:708-779 | each call either drops the stored validation, keeps the content it read, or leaves a suggestion waiting that blocks approval |
| `DocumentRestore.RestoreCopiesForward` | apps/api/src/documents/documents.service.ts:1229-1342 | a restored version is new, says what the chosen one says with sections and rows protected, and leaves the chosen one as it was, unless that is the working version and has drifted |
| `DocumentRestore.RestoredAwaitsNobody` | apps/api/src/documents/documents.service.ts:1229-1342 | a restored version has no suggestion left to decide on |
| `DocumentRestore.RestoredSectionKeptIff` | apps/api/src/documents/documents.service.ts:1800-1827 | the next generation keeps a restored section word for word, new text only as a proposal, if and only if its key is still composed |
| `DocumentRestore.RestoredRowsKeptIff` | apps/api/src/documents/documents.service.ts:1881-1952 | the next generation keeps every restored row with its payload if and only if the restored rows have distinct keys |
| `DocumentRestore.RestoreThenGenerate` | apps/api/src/documents/documents.service.ts:1229-1342 | the two calls in sequence produce exactly that content |
| `DocumentRestore.RestoredFeatureKeptIff` | apps/api/src/documents/documents.service.ts:1266-1269 | the next generation keeps a restored feature's wording if and only if somebody had edited it before (or the same words are composed) |
| `DocumentRestore.RevisedRowsKeptIff` | apps/api/src/documents/documents.service.ts:1077-1104 | revising an issued document copies sections and features but no rows: the copy is whole if and only if there were none |
| `DocumentRestore.ReopenedIsWhole` | apps/api/src/documents/documents.service.ts:951-998 | reopening copies sections, features and rows, with each row's origin and proposal |
| `DocumentRestore.ProposalSurvivesIff` | apps/api/src/documents/documents.service.ts:3355-3358 | a pending proposal on a feature outlasts a call that does not rewrite that feature if and only if the call neither cuts a version nor rewrites features; a row rewrite that takes the working number again is the one cut that spares it |
| `DocumentRestore.FeatureEditKeepsOtherProposals` | apps/api/src/documents/documents.mapper.ts:124-153 | an edit of a feature carries every row, and the proposal of every section |
| `DocumentRestore.RunKeepsUpToNow` | apps/api/src/documents/documents.repository.ts:255-269 | over every run no row and no feature is stored under a version still to come |
| `DocumentRowLife.RewriteFrame` | apps/api/src/documents/documents.service.ts:2567-2610 | a targeted rewrite leaves unselected rows and protected payloads alone and elsewhere changes only rewritable fields |
| `DocumentRowLife.ApplyMovesRows` | apps/api/src/documents/documents.service.ts:3018-3121 | one call moves each row along its lifecycle table or not at all, and changes no schedule field |
| `DocumentRowLife.LifecyclesArePaths` | apps/api/src/documents/documents.service.ts:2909-2950 | over every run without a generation or restoration each row's history is a path of its lifecycle table, and no work package's schedule takes a different value |
| `DocumentRowLife.AcceptanceIsForGood` | packages/contracts/src/documents/client-dependency.contract.ts:163-179 | along such a path acceptance and supersession are final |
| `DocumentRowLife.UnreachedStatesAreInitial` | apps/api/src/documents/documents.service.ts:2858-2907 | no call waives, supersedes or puts a dependency under validation: a row in such a state was written in it |
| `DocumentRowLife.DependencyMovesIff` | apps/api/src/documents/documents.service.ts:2858-2907 | a lifecycle act on a dependency row succeeds if and only if the record version is the one named, the sheet is a draft, in revision or approved, its ground is signed, the table has the move and the row fits its schema; an approved sheet becomes a draft by it |
| `DocumentRowLife.ScheduleNeverMoves` | apps/api/src/documents/documents.service.ts:3047-3068 | a schedule field a work package has now is one it always had, unchanged |
| `DocumentRowLife.WordingIsNeverStatus` | apps/api/src/documents/documents.service.ts:3131-3172 | no rewritable field is a lifecycle or schedule field |
| `DocumentStaleness.MarkedOnce` | apps/api/src/documents/documents.service.ts:1707-1736 | telling a document leaves exactly one reason naming the source, every other reason, and nothing else changed |
| `DocumentStaleness.PropagationReaches` | apps/api/src/documents/documents.service.ts:1707-1736 | another document changes if and only if it is started and downstream of one that was reopened, revised, or, while approved, edited, excluded from or rewritten in its features; it then has exactly one reason naming that one, its other reasons, and the same status, version, content and history |
| `DocumentStaleness.ToldCannotBeSigned` | apps/api/src/documents/documents.service.ts:842-846 | over any run in which a told document is neither generated nor revised, the reason stays and every approval or issue of it is refused |
| `DocumentStaleness.ReasonDroppedIff` | apps/api/src/documents/documents.service.ts:430 | a recorded reason goes if and only if its own document is successfully generated or revised |
| `DocumentStaleness.ReasonSticks` | apps/api/src/documents/documents.service.ts:1129 | over every run a reason stays until then |
| `DocumentStaleness.NothingStaleIsSigned` | apps/api/src/documents/documents.service.ts:842-846 | no call makes a document approved or issued while it has a reason, recorded or derived |
| `DocumentFoundations.CoverageKeptIff` | apps/api/src/documents/documents.service.ts:353-490 | a call leaves a signed document on unsigned ground without saying so if and only if it regenerates, restores or rewrites rows of an approved document that has an untold signed dependent |
| `DocumentFoundations.SignedGround` | apps/api/src/documents/documents.service.ts:1412-1428 | under the run invariant, everything a signed and unwarned document is built on, however far upstream, exists, is signed and is itself unwarned |
| `DocumentFoundations.RunsStayGrounded` | apps/api/src/documents/documents.service.ts:1707-1736 | every run without a silent withdrawal keeps that invariant |
| `DocumentFoundations.RegenerationCanUncover` | apps/api/src/documents/documents.service.ts:353-490 | a run from an empty project leaves a listing approved, current and standing on a draft: understanding and listing approved, the understanding generated again |
| `DocumentTypes.DownstreamDocuments` | packages/contracts/src/documents/document-dependency.ts:139-153 | the walk returns exactly the documents built on the source, directly or not, in canonical order |
| `DocumentTypes.DownstreamIsTransitive` | packages/contracts/src/documents/document-dependency.ts:139-153 | downstream of downstream is downstream |
| `DocumentContent.ProtectedSectionSurvivesIff` | apps/api/src/documents/documents.service.ts:1800-1827 | a person's section keeps its words, with the new text as a proposal, if and only if its key is still composed |
| `DocumentContent.MergeRows` | apps/api/src/documents/documents.service.ts:1881-1952 | the table-and-list merge computes the specified rows |
| `DocumentGeneration.GenerationWrites` | apps/api/src/documents/documents.service.ts:1800-1952 | a generation leaves a draft with, for each composed section in order, its key, title, references and omitted reason, and its body as generated prose unless a person wrote the last section of its key, whose words and origin then stay with the new body as the proposal; likewise each feature has the composed hours and citations, and the composed wording and notes unless somebody edited the last feature of its units; each row is the composed one, or the last person's row of its key with the composed payload as proposal; nothing else but people's rows of keys not composed follows |
| `DocumentGeneration.FirstGenerationWrites` | apps/api/src/documents/documents.service.ts:353-490 | a first generation writes exactly what is composed, against today's upstream versions |
| `DocumentGeneration.GenerationStamps` | apps/api/src/documents/documents.service.ts:1757-1776 | a generation goes by today's baseline, stack and estimate, and where one has no version today by the one before |
| `DocumentGeneration.JoinTellsApart` | apps/api/src/documents/documents.service.ts:1842-1850 | two lists of units are the same to the merge if and only if they are the same list, as long as neither is empty and no id holds the separator |
| `DocumentGeneration.RowKeyIsItsOwn` | apps/api/src/documents/documents.service.ts:2234-2246 | a payload that defines one of the four key fields as text has that text as its key |
| `DocumentEdits.SectionEditWrites` | apps/api/src/documents/documents.service.ts:494-625 | over the current content after a served edit: writing a section leaves the given body and title, as the person's; regenerating one replaces the application's body and only proposes beside a person's; deciding leaves the old body on keep, the proposal on accept, the given text on edit, and no proposal; every other section, feature and row says what it said |
| `DocumentEdits.FeatureEditWrites` | apps/api/src/documents/documents.service.ts:643-669 | an edit of a feature leaves the wording and notes given or decided on, under the person's name, and touches no hours, units, citations or other feature |
| `DocumentEdits.RowEditWrites` | apps/api/src/documents/documents.service.ts:2357-2496 | an edit of a row leaves the fields given over those it had, the reason of its exclusion, the payload decided on, or the state its lifecycle act leads to; every other row and all else says what it said |
| `DocumentEdits.AddRowWrites` | apps/api/src/documents/documents.service.ts:2416-2462 | an added row goes last, says what was given and is the person's |
| `DocumentEdits.RemoveRowWrites` | apps/api/src/documents/documents.service.ts:2498-2530 | removing a row removes that one and no other |
| `DocumentEdits.EditGoesThroughIff` | apps/api/src/documents/documents.service.ts:494-625 | an edit other than a lifecycle act goes through if and only if the record version is the one named, the document is open and its ground signed, what it names is there, a proposal it decides on is waiting, and the row it leaves is storable |
| `DocumentEdits.EditIsLabelled` | apps/api/src/documents/documents.service.ts:1554-1682 | the version an edit cuts is archived as an edited or regenerated section, an edited or removed row or a decision on a row exactly when it is one, names the version it supersedes, and carries no other lineage |
| `DocumentEdits.GenerateThenDecide` | apps/api/src/documents/documents.service.ts:584-625 | generating over a person's section and then deciding leaves their words from before on keep, the composed ones on accept, and every other section as generated |
| `DocumentEdits.GenerateThenDecideRow` | apps/api/src/documents/documents.service.ts:2673-2729 | the same of a row, under its author, origin and exclusion either way |
| `DocumentEdits.RegenerateThenDecide` | apps/api/src/documents/documents.service.ts:541-625 | rewriting one section and then deciding leaves a person's section exactly as it was on keep but for the mark that it is theirs, and the rewrite on accept |
| `DocumentRewrites.RowRewriteWrites` | apps/api/src/documents/documents.service.ts:2532-2670 | a rewrite of rows gives each selected one the words named for it, else those first composed under its key, within the rewritable fields: as its own if it is the application's, as a proposal if it is a person's; every section says what it said |
| `DocumentRewrites.FeatureRewriteWrites` | apps/api/src/documents/documents.service.ts:3305-3410 | a rewrite of features gives each selected one the wording named for its units, as its own or as a proposal, and drops the proposals of the others |
| `DocumentRewrites.SuggestionsWrite` | apps/api/src/documents/documents.service.ts:2258-2346 | suggestions go last as drafts of the application, whatever state they claim, and nothing else is touched |
| `DocumentRewrites.ExclusionWrites` | apps/api/src/documents/documents.service.ts:672-698 | an excluded requirement is on the record once, last, with the reason given, and every other exclusion as often as before |
| `DocumentRewrites.AcknowledgementWrites` | apps/api/src/documents/documents.service.ts:781-811 | exactly the warnings of the kind become acknowledged, and nothing an approval reads changes |
| `DocumentGates.ApprovalIff` | apps/api/src/documents/documents.service.ts:824-892 | an approval goes through if and only if the document is a draft or in revision, current, validated as it stands with nothing blocking, and everything in it is decided and its ground signed |
| `DocumentGates.IssueIff` | apps/api/src/documents/documents.service.ts:1163-1220 | an issue goes through if and only if the document is approved and current |
| `DocumentGates.RewritesIff` | apps/api/src/documents/documents.service.ts:353-391 | generation, reopening and restoration go through if and only if lock, record version and status allow |
| `DocumentGates.UnlockedIff` | apps/api/src/documents/documents.service.ts:1412-1446 | a document is unlocked if and only if its upstream versions exist and everything it is built on is signed and current |
| `RowRegeneration.RegenerationConservesHumansIff` | apps/api/src/documents/documents.service.ts:1881-1952 | every protected row comes back exactly once, payload, origin, attribution and exclusion unchanged, if and only if the protected rows have distinct keys |
| `RowRegeneration.RegeneratedRows` | apps/api/src/documents/documents.service.ts:1881-1952 | the result is the composed rows in order, each placed, followed by one row for each protected key the composition did not produce |
| `RowRegeneration.ProposalIffComposed` | apps/api/src/documents/documents.service.ts:1881-1952 | a row of the result has a proposal if and only if it is a person's and the composition produced its key |
| `DocumentProject.StepTouchesOne` | apps/api/src/documents/documents.service.ts:1707-1736 | a call changes one document; another one can at most gain a reason |
| `DocumentService.DocumentsRepository.Update` | apps/api/src/documents/documents.repository.ts:98-119 | the conditional write lands if and only if the stored record version is the expected one, and moves it on by one |
| `DocumentService.DocumentsRepository.Touch` | apps/api/src/documents/documents.repository.ts:122-126 | reasons are written whatever the record version |
| `DocumentService.DocumentsRepository.NextVersion` | apps/api/src/documents/documents.repository.ts:128-136 | one past the newest archived version, the working version not considered |
| `DocumentService.DocumentsRepository.ReplaceRows` | apps/api/src/documents/documents.repository.ts:255-269 | rows of every version are removed |
| `DocumentService.DocumentsRepository.InsertRows` | apps/api/src/documents/documents.repository.ts:271-283 | rows are appended to one version |
| `DocumentService.DocumentsService.Archive` | apps/api/src/documents/documents.service.ts:1974-2025 | a version is created or updated in the archive and its lineage written once |
| `DocumentService.DocumentsService.MarkDependentsOutdated` | apps/api/src/documents/documents.service.ts:1707-1736 | the loop tells exactly the started downstream documents |
| `DocumentService.DocumentsService.AfterContentChange` | apps/api/src/documents/documents.service.ts:1554-1682 | the edited live content is cut as a new version, and dependents of an approved document are told |
| `DocumentService.DocumentsService.EditableDocument` | apps/api/src/documents/documents.service.ts:1487-1509 | the gate opens if and only if the document exists, its record version is the one named, it is a draft, in revision or approved, and everything it is built on is signed; each refusal says which of these fails |
| `DocumentService.DocumentsService.Generate` | apps/api/src/documents/documents.service.ts:353-490 | written in the source's order, it leaves the stored collections exactly as the engine's generation, first or later, and refuses with the same error; what that writes into every section, feature and row is GenerationWrites and FirstGenerationWrites |
| `DocumentService.DocumentsService.Change` | apps/api/src/documents/documents.service.ts:494-670 | each of the twelve edits, made in place and then cut, leaves the collections as the engine's edit and tells dependents of an approved document; what each edit writes is SectionEditWrites, FeatureEditWrites, RowEditWrites, AddRowWrites and RemoveRowWrites |
| `DocumentService.DocumentsService.ExcludeRequirement` | apps/api/src/documents/documents.service.ts:672-698 | the exclusion is committed first and the cut made from the record read before it, as in the engine |
| `DocumentService.DocumentsService.Approve` | apps/api/src/documents/documents.service.ts:824-892 | the refusals come in the engine's order, and an approval commits the status, then archives the version as approved |
| `DocumentService.DocumentsService.Reopen` | apps/api/src/documents/documents.service.ts:906-1040 | an approved version stays archived as approved while its copy is opened, an issued one is revised, and dependents are told |
| `DocumentService.DocumentsService.Revise` | apps/api/src/documents/documents.service.ts:1053-1160 | the issued version is archived as issued, its copy opened beside it, and dependents are told |
| `DocumentService.DocumentsService.MarkFinal` | apps/api/src/documents/documents.service.ts:1163-1220 | record and archived version become issued together, or nothing changes |
| `DocumentService.DocumentsService.Restore` | apps/api/src/documents/documents.service.ts:1229-1342 | the working version is archived before the chosen one is copied forward, as in the engine |
| `DocumentService.DocumentsService.AddAssumptionCandidates` | apps/api/src/documents/documents.service.ts:2258-2346 | the suggestions join the live rows of the working version and nothing else changes |
| `DocumentService.DocumentsService.RegenerateRows` | apps/api/src/documents/documents.service.ts:2532-2670 | the number is taken before the working version is archived, and a refused row leaves everything as it was, as in the engine |
| `DocumentService.DocumentsService.RegenerateFeatures` | apps/api/src/documents/documents.service.ts:3305-3425 | the working version is archived, the rewritten one stored under the next number and not archived, as in the engine |
| `DocumentService.DocumentsService.Validate` | apps/api/src/documents/documents.service.ts:708-779 | the stored result names the working version and changes nothing else |
| `DocumentService.DocumentsService.AcknowledgeFinding` | apps/api/src/documents/documents.service.ts:781-811 | every warning of the kind is acknowledged, or the call refused when there is none |
| `DocumentService.DocumentsService.Perform` | apps/api/src/documents/documents.service.ts:353-3425 | serving any call changes the stored project exactly as one step of the project, and succeeds exactly when that step does |
| `DocumentService.DocumentsService.PerformAll` | apps/api/src/documents/documents.service.ts:353-3425 | serving calls one after another is a run of the project, so the stored collections keep signed history and signed ground whenever the run theorems say so |
| `CompareAndSet.VersionCountsWins` | apps/api/src/analysis/analysis.repository.ts:229-256 | a stored version counts the writes that landed and never goes back |
| `CompareAndSet.WinnersAreSerial` | apps/api/src/analysis/analysis.repository.ts:229-256 | in any interleaving, of the writes based on one version at most one lands, and winners land in version order |
| `CompareAndSet.WinsIffUndisturbed` | apps/api/src/documents/documents.repository.ts:98-119 | a write made on what was read lands if and only if nothing landed in between, and then replaces the very value it was based on |
| `RateLimitBound.RateBound` | apps/api/src/abuse/rate-limit.store.ts:50-71 | over any trace one key with one policy is allowed fewer than n + 1 budgets in any half-open span of n windows |
| `RateLimitBound.RateBoundIsExact` | apps/api/src/abuse/rate-limit.store.ts:50-71 | for every policy and n a trace reaches (n + 1) times the limit, less one |
| `RateLimitProofs.RefinesUnbounded` | apps/api/src/abuse/rate-limit.store.ts:50-71 | with room to spare every decision of a trace equals that of a limiter that never evicts, field by field |
| `RateLimitProofs.EvictionForgetsNothingIff` | apps/api/src/abuse/rate-limit.store.ts:83-117 | eviction drops an open window if and only if the open windows already fill the store |
| `RateLimitProofs.ForgettingShows` | apps/api/src/abuse/rate-limit.store.ts:83-117 | once an open window is dropped some next request is answered differently |
| `RateLimitProofs.EvictionCanRefuse` | apps/api/src/abuse/rate-limit.store.ts:83-117 | an eviction can refuse a request the unbounded limiter allows |
| `RateLimitProofs.RefusedOnlyAfterLostWindow` | apps/api/src/abuse/rate-limit.store.ts:83-117 | over every trace, a request refused by the bounded store and allowed by the unbounded one is counted in a window that ends before the unbounded one's: it opened in place of a lost window that has run out since |
| `RateLimitBound.RefusedAfterLostWindowIff` | apps/api/src/abuse/rate-limit.store.ts:50-71 | conversely, over every trace inside a window that replaced a lost one, the bounded store refuses what the unbounded one allows if and only if the request is among the last ones of a fresh budget, as many as the replacing window had counted |
| `RateLimitProofs.ConsumeBoundsMemory` | apps/api/src/abuse/rate-limit.store.ts:50-71 | after every request the store holds at most maxKeys windows |
| `RateLimitStore.RateLimitStore.Consume` | apps/api/src/abuse/rate-limit.store.ts:50-71 | the in-place store decides as specified and logs key, time and answer |
| `RateLimitRetry.DecisionTells` | apps/api/src/abuse/rate-limit.store.ts:50-71 | a request is counted in its key's open window, or opens one of its policy's length, the first whenever there is one and room; it is allowed if and only if the count is within the limit, told what remains, and told to wait the time to that window's end, rounded up to whole seconds and never none |
| `RateLimitRetry.RetryAfterIsEnough` | apps/api/src/abuse/rate-limit.store.ts:50-71 | whatever other keys do and whatever is evicted, a refused key's next request after the wait it was told is allowed |
| `RateLimitRetry.RetryAfterIsNeeded` | apps/api/src/abuse/rate-limit.store.ts:50-71 | unless its window is evicted, one made a second short of that wait, or earlier, is refused |
| `RateLimitStore.RateLimitStore.EvictIfNeeded` | apps/api/src/abuse/rate-limit.store.ts:83-117 | the two deleting loops evict as specified |
| `RateLimitStore.RateLimitStore.DeleteExpired` | apps/api/src/abuse/rate-limit.store.ts:90-95 | exactly the expired windows go |
| `RateLimitStore.RateLimitStore.DeleteOldest` | apps/api/src/abuse/rate-limit.store.ts:102-116 | exactly the oldest windows go |
| `AuditThrottle.Throttle.RecordOnce` | apps/api/src/abuse/rate-limit.guard.ts:162-180 | a refusal is audited unless its key was within the window |
| `AuditThrottle.AuditedAgainIff` | apps/api/src/abuse/rate-limit.guard.ts:162-180 | an audited key is audited again inside its window if and only if a refusal in between emptied the throttle |
| `AuditThrottle.AuditedWhenDue` | apps/api/src/abuse/rate-limit.guard.ts:162-180 | a refusal of an unknown key, or at or after the end of its window, is audited whatever other keys did meanwhile |
| `AuditThrottle.NewcomerAuditedTwiceIff` | apps/api/src/abuse/rate-limit.guard.ts:175-180 | a newcomer's very next refusal is audited again if and only if the throttle was full |
| `RequirementProtection.IntegrationOutranksNobody` | apps/api/src/analysis/clarification-integration.service.ts:161-242 | whatever the model returns, for items read however long before, an integration changes no statement of a manual, edited or accepted requirement nor of one in an approved baseline when the approvals were read, no origin, status or edited mark, and recorded the old wording of every statement it changes |
| `RequirementProtection.StatementChangesIff` | apps/api/src/analysis/clarification-integration.service.ts:161-242 | an integration changes a statement if and only if it was given the requirement, nobody has written it since, none of the four protections held as read, and an update says something new; then the first such update is what it says |
| `RequirementProposals.IntegrationWrites` | apps/api/src/analysis/clarification-integration.service.ts:161-242 | if nobody has written a requirement since it was read and an update says something new, the first such update decides: a protected one gains a proposal with that wording as proposed, its own as current, the answer's clarification and the first protection that holds as reason; any other says it and cites the answer once; every other requirement is exactly as it was |
| `RequirementProposals.AnswerThenDecide` | apps/api/src/analysis/analysis.service.ts:1537-1666 | integrating and then deciding: accepting makes the statement the update's wording, rewording the given one, rejecting leaves it; the proposal is gone, and replaced words are on record |
| `RequirementProposals.LateDecisionWritesNothing` | apps/api/src/analysis/analysis.service.ts:1537-1666 | a decision from an older version writes into no requirement |
| `RequirementProposals.EditWrites` | apps/api/src/analysis/analysis.service.ts:682-708 | an edit writes the statement and status it gives, marks changed content as edited by a person, and touches no other requirement |
| `RequirementProposals.SettlementWrites` | apps/api/src/analysis/analysis.service.ts:842-900 | merging supersedes all of the group but the primary and marks nobody's work; choosing a side rejects all but the winner as a person's decision; each says what it said |
| `RequirementProposals.RewriteSettles` | apps/api/src/analysis/analysis.service.ts:951-975 | rewriting gives the first position the new words as a person's and rejects the others |
| `RequirementProposals.ApprovalNames` | apps/api/src/analysis/analysis.service.ts:2012-2055 | an approval goes through if and only if the baseline is unsigned, of the version named, unblocked and not empty, and then names exactly the requirements neither rejected nor set aside |
| `RequirementProposals.ChangesAreMarked` | apps/api/src/analysis/analysis.repository.ts:275-296 | marking for a second look marks the requirements named and changes nothing else of any; a changed source makes an approved baseline outdated and leaves any other as it is |
| `RequirementProtection.ApprovedWordingStands` | apps/api/src/analysis/analysis.service.ts:1511-1519 | over every run from an approved baseline that stays approved, in which each integration read the approvals since, no model changes the words of a requirement it names |
| `RequirementProtection.ApprovedMeanwhileRewrittenIff` | apps/api/src/analysis/analysis.service.ts:1322-1331 | a requirement approved between the reading and the writing of an integration is rewritten if and only if nobody wrote it since, nobody owns it and an update says something new |
| `RequirementProtection.ApprovedWordingCanChange` | apps/api/src/analysis/analysis.service.ts:2012-2055 | such a run exists from an empty project |
| `RequirementProtection.ApprovalLostIff` | apps/api/src/analysis/analysis.service.ts:1981-1993 | a requirement stops being in an approved baseline if and only if a review of it is started, which no status forbids, or a new analysis supersedes it |
| `RequirementProtection.HumanWordingStands` | apps/api/src/analysis/clarification-integration.service.ts:407-433 | over every run a requirement a person wrote or edited keeps its words until a person changes them and never stops counting as theirs |
| `RequirementProtection.RewritesAreRecorded` | apps/api/src/analysis/analysis.service.ts:1590-1643 | over every run any event that changed a requirement's words left the old ones on record, except an ordinary edit and a rewrite settling a conflict |
| `RequirementProtection.ChangesUnrecordedIff` | apps/api/src/analysis/analysis.service.ts:682-708 | a call that changes a requirement's words adds no earlier wording if and only if it is an ordinary edit or settles a conflict by rewriting; any other has recorded the words it replaced |
| `RequirementProtection.EditsRecordNothing` | apps/api/src/analysis/analysis.service.ts:951-975 | both can say anything of a requirement nobody set aside, and record nothing |
| `RequirementProtection.EditedStaysEdited` | apps/api/src/analysis/analysis.service.ts:682-708 | over every run the edited mark never goes back and recorded wordings are never lost |
| `RequirementProtection.ReadingsStayFair` | apps/api/src/analysis/analysis.repository.ts:229-256 | what was read at any moment of a run is, at every later one, unchanged or of an older version |
| `RequirementProtection.ProtectionForIff` | apps/api/src/analysis/clarification-integration.service.ts:407-433 | an item is protected if and only if it is in an approved baseline as read, manual, edited or accepted |
| `RequirementProtection.AppliedIffFirstAndUndisturbed` | apps/api/src/analysis/clarification-integration.service.ts:223-242 | an update reported as applied was written if and only if nobody touched the item since it was read and no earlier update of the answer changed it |
| `RequirementProtection.ClosedIff` | apps/api/src/analysis/clarification-integration.service.ts:253-272 | a finding is closed if and only if claimed, open, not a conflict and about an item the integration was given |
| `RequirementProtection.ClaimedHas` | apps/api/src/analysis/clarification-integration.service.ts:253 | the claimed findings are exactly those some update names |
| `RequirementProtection.RefusedMergeChangesIff` | apps/api/src/analysis/analysis.service.ts:842-900 | a refused decision on a duplicate group changes something if and only if it is a merge refused for a stale version and another item exists |
| `RequirementService.AnalysisRepository.UpdateItem` | apps/api/src/analysis/analysis.repository.ts:229-256 | the write lands if and only if the version is the expected one |
| `RequirementService.ClarificationIntegration.AffectedItems` | apps/api/src/analysis/clarification-integration.service.ts:345-372 | exactly the related items and those sharing a finding, unless set aside |
| `RequirementService.ClarificationIntegration.Integrate` | apps/api/src/analysis/clarification-integration.service.ts:161-288 | the loops write what is specified, and one proposal is enough to need review; what is written into each requirement is IntegrationWrites |
| `RequirementService.AnalysisService.EditRequirement` | apps/api/src/analysis/analysis.service.ts:667-735 | the edit lands if and only if the item exists, is not superseded and has the version named, and then is the event the run theorems speak of |
| `RequirementService.AnalysisService.ResolveProposal` | apps/api/src/analysis/analysis.service.ts:1537-1666 | the old wording is recorded before the write; the decision lands if and only if there is a proposal and the version is the one named |
| `RequirementService.AnalysisService.ResolveDuplicate` | apps/api/src/analysis/analysis.service.ts:842-900 | the others are superseded before the finding is written, so a stale version is reported after they are |
| `RequirementService.AnalysisService.RewriteSides` | apps/api/src/analysis/analysis.service.ts:951-975 | settling by rewriting changes the first position and rejects the others |
| `RequirementService.AnalysisService.Approve` | apps/api/src/analysis/analysis.service.ts:2012-2055 | the refusals come in order, and an approval names exactly the requirements that count at that moment |
| `RequirementService.AnalysisService.StartReview` | apps/api/src/analysis/analysis.service.ts:1981-1993 | a review starts whatever the status, and leaves no requirement in an approved baseline |
| `ClarificationAnswers.AnswersAreAppendOnly` | apps/api/src/analysis/analysis.service.ts:1157-1191 | over every interleaving whose callers bring the version read, answer i has version i + 1, only the last is current, each earlier one names its successor, and nothing said is changed or lost |
| `ClarificationAnswers.ReadingsStayFair` | apps/api/src/analysis/analysis.repository.ts:397-410 | a reading taken at any moment of such a run is fair at every later one |
| `ClarificationAnswers.ConfirmsTheLast` | apps/api/src/analysis/analysis.service.ts:1263-1275 | a confirmation confirms the last answer, and is refused if and only if that was confirmed and integrated |
| `ClarificationAnswers.ConfirmationMarksTheLast` | apps/api/src/analysis/analysis.service.ts:1248-1296 | a confirmation that lands marks the last answer confirmed and changes no other; any other changes nothing |
| `ClarificationAnswers.OutcomeMarksItsAnswer` | apps/api/src/analysis/analysis.service.ts:1333-1356 | the outcome of an integration is written into the answer that was integrated and no other |
| `ClarificationAnswers.AnswerLosesIff` | apps/api/src/analysis/analysis.service.ts:1157-1191 | a caller naming a version that comes to be stored in between loses something if and only if something was answered or confirmed since |
| `ClarificationAnswers.ClarificationDesk.AnswerClarification` | apps/api/src/analysis/analysis.service.ts:1143-1191 | the answer joins the record read in the same call, and lands if and only if the caller named that version |
| `ClarificationAnswers.ClarificationDesk.ConfirmClarification` | apps/api/src/analysis/analysis.service.ts:1248-1296 | the current answer and no other is marked confirmed, if and only if there is one to confirm and the caller named the stored version |
| `ConflictReevaluation.SettledIffAllHold` | packages/contracts/src/analysis/conflict-reevaluation.ts:66-128 | a conflict is settled by an answer if and only if all six conditions hold, otherwise it goes on blocking, and the conditions listed as failed are those that fail |
| `ConflictReevaluation.ModelOnlyWithholds` | packages/contracts/src/analysis/conflict-reevaluation.ts:66-128 | the model's agreement matters in one case only, from needing review to settled when the five stored facts hold |
| `ConflictReevaluation.StatusIs` | packages/contracts/src/analysis/conflict-reevaluation.ts:66-128 | the verdict in the stored facts alone: settled, open when the answer has nothing to do with the conflict, in review when every position is applied or proposed, and otherwise still conflicting |
| `ConflictVerdicts.ReevaluationWrites` | apps/api/src/analysis/conflict-reevaluation.service.ts:82-183 | over all conflicts read: each has that verdict, and one entry naming answer, statuses and versions before and after, if and only if nobody changed it since, no person settled it, the answer bears on it and the verdict is news or linked; any other is as it was |
| `ConflictVerdicts.PeopleWrite` | apps/api/src/analysis/analysis.service.ts:915-1030 | a choice settles an open conflict, asking leaves it open, and a status set directly is the status |
| `ConflictReevaluation.ReevaluationIsCareful` | apps/api/src/analysis/conflict-reevaluation.service.ts:82-183 | from conflicts read however long before, what a person settled is untouched, records only grow, and each changed conflict was snapshotted as it stood |
| `ConflictReevaluation.RecordsOnlyGrow` | apps/api/src/analysis/conflict-reevaluation.service.ts:82-183 | over every run no re-evaluation record is lost or changed and each has its prior snapshot |
| `ConflictReevaluation.HumanSettlementStands` | apps/api/src/analysis/conflict-reevaluation.service.ts:303-308 | over every run a conflict a person settled stays as it is until a person sets its status again |
| `ConflictReevaluation.SettlementSurvivesIff` | apps/api/src/analysis/conflict-reevaluation.service.ts:82-183 | an automatic settlement survives a later answer if and only if that answer does not reach it or settles it again on its own |
| `ConflictReevaluation.BystanderReopens` | packages/contracts/src/analysis/conflict-reevaluation.ts:99-111 | an answer with only a proposal waiting on one side, not linked, reopens a settled conflict |
| `ConflictReevaluation.ChangesWithoutSnapshotIff` | apps/api/src/analysis/analysis.service.ts:1045-1075 | only setting a status directly and the regular recheck change a conflict without a snapshot |
| `ConflictReevaluation.ConflictReevaluator.ReevaluateAll` | apps/api/src/analysis/conflict-reevaluation.service.ts:82-183 | judging each conflict in turn, snapshot first, the loop leaves conflicts and snapshots as the specification says, and returns a record for exactly the verdicts that landed |
| `DependencyGraph.DetectCycles` | packages/contracts/src/estimation/dependency.contract.ts:211-283 | the iterative search comes back empty if and only if the live graph has no loop; each answer is a loop and no two are the same tasks |
| `DependencyGraph.BuildAdjacency` | packages/contracts/src/estimation/dependency.contract.ts:212-224 | the adjacency map lists, for every task, the live tasks waiting for it |
| `DependencyGraph.OrderedIsAcyclic` | packages/contracts/src/estimation/dependency.contract.ts:211-283 | an order in which everything comes after what it waits for rules loops out |
| `EstimateDependencies.AddDependency` | apps/api/src/estimation/estimation.service.ts:524-571 | a dependency is added if and only if both tasks are known, none joins a task to itself and the live plan stays free of loops |
| `EstimateDependencies.NoRunBuildsALoop` | apps/api/src/estimation/estimation.service.ts:524-606 | over every run of additions, removals and exclusions a schedulable plan stays schedulable |
| `EstimateDependencies.PuttingBackSchedulableIff` | apps/api/src/estimation/estimation.service.ts:364-427 | putting an excluded line back keeps the plan schedulable if and only if no task it waits for can be reached from it |
| `EstimateDependencies.GenerateDependencies` | apps/api/src/estimation/estimation.service.ts:306-354 | the loop adds, feature by feature, exactly the inferred edges not there yet |
| `EstimateDependencies.InferenceSchedulableIff` | apps/api/src/estimation/estimation.service.ts:306-354 | after inference the plan can be scheduled if and only if people's dependencies have no loop and lead from no feature and not from regression to the foundation, nor from regression to a feature |
| `EstimateDependencies.FreshInferenceSchedulable` | apps/api/src/estimation/estimation.service.ts:306-354 | with no dependency surviving, inference always leaves a schedulable plan |
| `EstimateVersions.GenerateCoversOnce` | apps/api/src/estimation/estimation.service.ts:185-273 | re-estimating keeps every user-authored line as it is, and each live baseline requirement is cited by exactly one application line, or by none if a person's line claims it |
| `EstimateLines.GeneratedLines` | apps/api/src/estimation/estimation.service.ts:173-295 | after the lines people authored come, in the order of the baseline, one line for each requirement that needs one with the engine's figures for it, and then the lines the overhead rules give for the hours of all lines before them |
| `EstimateVersions.ManualLineSurvivesIff` | apps/api/src/estimation/estimation.repository.ts:182-192 | after any overrides and resets of a hand-written line, re-estimation keeps it if and only if the last of them that went through was no reset |
| `EstimateVersions.RefusedGenerateChangesIff` | apps/api/src/estimation/estimation.service.ts:185-227 | a refused re-estimation changes the plan if and only if it was refused for size and there was something to delete |
| `EstimateVersions.UserEdgeStillJoinsIff` | apps/api/src/estimation/estimation.repository.ts:297-303 | a person's dependency survives re-estimation and still joins two tasks if and only if both are user-authored lines |
| `EstimateVersions.ReopeningCopiesThePlan` | apps/api/src/estimation/estimation.repository.ts:209-258 | the new version has the same lines, figures, authorship and total under new ids, the same dependencies among its tasks, and can be scheduled if and only if the old one could |
| `EstimateVersions.RenamedSchedulable` | apps/api/src/estimation/estimation.repository.ts:305-331 | one-to-one renaming keeps and reflects freedom from loops |
| `EstimateUnits.ResetUndoesEveryOverride` | apps/api/src/estimation/estimation.service.ts:364-461 | one reset after any number of overrides brings back effort and total from before the first, and is possible if and only if one went through |
| `EstimateUnits.OverrideSets` | apps/api/src/estimation/estimation.service.ts:364-427 | an override goes through if and only if every figure given is plausible; then every role has the last figure given for it or the one it had, the total is their sum to the hundredth, the range that total at the ratios of the uncertainty asked for or derived from the sources, exclusion, note and reason are those given or those before, and the first figures are kept |
| `EstimateUnits.ResetSets` | apps/api/src/estimation/estimation.service.ts:432-461 | a reset goes through if and only if there is an original; it brings back those figures, spreads them by the present uncertainty, takes the note away and touches nothing else |
| `EstimateSnapshots.OverrideIsServed` | apps/api/src/estimation/estimation.service.ts:364-427 | served, an override does this to its line in whichever version holds it and leaves every other line of every version as it was |
| `EstimateSnapshots.WorkIsCounted` | apps/api/src/estimation/estimation.service.ts:1065-1107 | a served change moves on the current version's record alone and leaves it for review if and only if something blocks it |
| `EstimateUnits.ResetLeaves` | apps/api/src/estimation/estimation.service.ts:432-461 | a reset restores neither exclusion nor uncertainty, and the range if and only if the uncertainty left spreads the total the same way |
| `EstimateUnits.ManualLineStaysIff` | apps/api/src/estimation/estimation.service.ts:432-461 | over every run of overrides and resets a person's line stays theirs if and only if the last act that went through is no reset, and the next reset takes it from them if and only if that act was an override, or there was none and the line came overridden |
| `EstimateUnits.OverrideAndResetTakesOver` | apps/api/src/estimation/estimation.service.ts:513-514 | for every hand-written line such a run exists: an override that goes through, then a reset |
| `EstimateSnapshots.PastPlanChangesIff` | apps/api/src/estimation/estimation.service.ts:173-461 | a call changes a version other than the current one if and only if it names by id alone, while the current one may be edited, a line of that version that allows the act or a dependency of it, or it is the end of a re-estimation that was given that version and finds something to delete or to add |
| `EstimateSnapshots.SettledStays` | apps/api/src/estimation/estimation.service.ts:173-295 | an approved or superseded version stays one, is given to no further re-estimation, and is changed by exactly those calls |
| `EstimateSnapshots.ApprovedPlanStands` | apps/api/src/estimation/estimation.service.ts:829-884 | over every run of calls that does not reach back into it, an approved version in which no re-estimation is still to end keeps every line and dependency, through its reopening and after |
| `EstimateSnapshots.ApprovedWhileAsking` | apps/api/src/estimation/estimation-ai.service.ts:72-209 | begun, approved, ended: all three are served, no call names a line or dependency of the approved version, and it is changed if and only if the end finds a baseline, a stack and something to delete or to add, even when it is refused for size |
| `EstimateSnapshots.ApprovedPlanCanChange` | apps/api/src/estimation/estimation.service.ts:173-295 | a run from an empty project ends so, with an approved estimate changed by a re-estimation |
| `EstimateSnapshots.ReopenedPlanCanChange` | apps/api/src/estimation/estimation.service.ts:364-427 | after any approved estimate is reopened, an act on a line by its old id changes the approved version and leaves the new one alone |
| `EstimateSnapshots.ReopenedPlanChangesToo` | apps/api/src/estimation/estimation.service.ts:1136-1146 | a run from an empty project ends so, with an approved estimate changed by an override after its reopening |
| `EstimateSnapshots.RefusedEndBlocksAll` | apps/api/src/estimation/estimation-ai.service.ts:79-219 | once the end of a re-estimation is refused, for a baseline or stack withdrawn meanwhile or for size, every later attempt to begin one is refused, over every run; after any other end one that passes the gate is not refused for running |
| `EstimateSnapshots.TheirLineStaysIff` | apps/api/src/estimation/estimation.repository.ts:182-192 | in any version and whatever the call, a person's line changes if and only if it is acted on, and stays theirs if and only if that is not a reset; the two halves of a re-estimation leave it alone |
| `EstimateSnapshots.AuthoredLineStands` | apps/api/src/estimation/estimation.repository.ts:182-192 | over every run of calls in which it is not reset, a person's line is still there and still theirs |
| `EstimateVersions.GenerateChangesIff` | apps/api/src/estimation/estimation.service.ts:173-295 | refused or not, re-estimating changes the plan if and only if baseline and stack are there and it has a line or dependency to delete or move, or room for a new line |
| `EstimateService.EstimationRepository.CurrentSnapshot` | apps/api/src/estimation/estimation.repository.ts:70-75 | the loop finds the highest version not superseded |
| `EstimateService.EstimationRepository.FindUnitById` | apps/api/src/estimation/estimation.repository.ts:150-152 | a line is found by id whatever its version |
| `EstimateService.EstimationRepository.SupersedeSnapshots` | apps/api/src/estimation/estimation.repository.ts:119-131 | every snapshot so far becomes history |
| `EstimateService.EstimationRepository.DeleteReplaceableUnits` | apps/api/src/estimation/estimation.repository.ts:182-192 | exactly the application's lines go |
| `EstimateService.EstimationRepository.CarryUnitsForward` | apps/api/src/estimation/estimation.repository.ts:209-258 | the loop copies the lines and returns the id map, the old version untouched |
| `EstimateService.EstimationRepository.CarryDependenciesForward` | apps/api/src/estimation/estimation.repository.ts:305-331 | the dependencies between known lines are copied under the new ids |
| `EstimateService.EstimationRepository.UpdateUnit` | apps/api/src/estimation/estimation.repository.ts:154-173 | the conditional write of one line |
| `EstimateService.EstimationService.Current` | apps/api/src/estimation/estimation.service.ts:121-127 | looking at an estimate starts an empty draft where there is none, and numbers it next |
| `EstimateService.EstimationService.Editable` | apps/api/src/estimation/estimation.service.ts:1109-1124 | the gate opens if and only if there is a current version, it is not approved, and its record version is the one named |
| `EstimateService.EstimationService.Act` | apps/api/src/estimation/estimation.service.ts:364-461 | one line of whichever version holds it changes as the override or reset says and the current snapshot is recalculated, or the plans are as they were and the error says why; what an override sets is OverrideSets |
| `EstimateService.EstimationService.BeginEstimate` | apps/api/src/estimation/estimation-ai.service.ts:72-135 | the gate, then no run on record, then baseline, stack and model; each refusal has its error and changes nothing, and a run that begins is handed the current version |
| `EstimateService.EstimationService.FinishEstimate` | apps/api/src/estimation/estimation.service.ts:173-304 | the version handed out is rewritten without another look at status or record version, and the current one recalculated; the deletes come before the size check, and a refusal leaves the run on record as running |
| `EstimateService.EstimationService.FailEstimate` | apps/api/src/estimation/estimation-ai.service.ts:176-193 | without a usable answer the run is closed and the plans are untouched |
| `EstimateService.EstimationService.AddDependency` | apps/api/src/estimation/estimation.service.ts:524-584 | a refusal changes nothing and says why; an addition adds one edge to the current plan |
| `EstimateService.EstimationService.RemoveDependency` | apps/api/src/estimation/estimation.service.ts:587-607 | the dependency goes from whichever version has it |
| `EstimateService.EstimationService.Approve` | apps/api/src/estimation/estimation.service.ts:764-815 | the refusals come in order; an approval needs an unapproved current version without blockers and with a line that counts |
| `EstimateService.EstimationService.Reopen` | apps/api/src/estimation/estimation.service.ts:836-884 | refused for a stale version before a wrong status; otherwise a draft beside the old versions, all superseded and each plan left as it was |
| `RoleSplit.SplitLosesNothing` | apps/api/src/estimation/estimation-engine.ts:229-277 | for any table without negative shares whose usable part is not nought, and any roles, the parts add up to the hours within half a hundredth each, none is negative, no role has two, and only roles of the project get work |
| `RoleSplit.ResolveConserves` | apps/api/src/estimation/estimation-engine.ts:229-262 | for any table without negative shares the resolved shares add up to its usable part, each role once and none foreign to the project |
| `RoleSplit.ResolveGives` | apps/api/src/estimation/estimation-engine.ts:210-262 | for any table and project a role holds its own share if it is there, those of absent roles it is the first present substitute for, and half of an interface share that two platforms divide |
| `RoleSplit.SplitGives` | apps/api/src/estimation/estimation-engine.ts:229-277 | for any table of positive shares each part is the hours by its role's share of the usable ones to the nearest hundredth, and a role has a part if and only if it holds a share; if nobody can do any of it everything falls to the first role, or the backend |
| `RoleSplit.ShareDroppedIff` | apps/api/src/estimation/estimation-engine.ts:210-216 | a share is redistributed if and only if neither its role nor any substitute is on the project |
| `RoleSplit.TableIsWhole` | apps/api/src/estimation/estimation-engine.ts:172-187 | every share table in use is positive and adds up to one |
| `RoleSplit.SplitAcrossRoles` | apps/api/src/estimation/estimation-engine.ts:229-277 | the accumulating loop gives that split: each role its part, or everything to one |
| `Traceability.LinksFor` | apps/api/src/documents/traceability.service.ts:209-309 | one pass builds the forward index and the reverse list as specified |
| `Traceability.LinksCountCitations` | apps/api/src/documents/traceability.service.ts:216-247 | for every requirement the links equal in number its occurrences across all artifacts' requirement keys |
| `Traceability.DirectionsAgree` | apps/api/src/documents/traceability.service.ts:216-247 | for every requirement and artifact the forward index and the reverse list count the same citations |
| `Traceability.CitationsPartition` | apps/api/src/documents/traceability.service.ts:236-246 | an artifact's requirement keys and dangling keys partition its citations |
| `Traceability.Follow` | apps/api/src/documents/traceability.service.ts:104-151 | the loop over documents builds the specified trace |
| `Traceability.TraceLinksAreTheDocuments` | apps/api/src/documents/traceability.service.ts:104-151 | a trace hands on the links of every written document, all of them in order and once, and no others |
| `Traceability.ExactlyOneOfThree` | apps/api/src/documents/traceability.service.ts:104-151 | a document says excluded if and only if its exclusions name the requirement's id or key, and missing if and only if it is written, obligatory, not excluded and without a link; for each written obligatory document exactly one of missing, excluded, or linked and not excluded holds; complete means none is missing |
| `Traceability.CoverageAddsUp` | apps/api/src/documents/traceability.service.ts:153-169 | represented, missing and excluded add up to the requirements plus those both represented and excluded |
| `Traceability.Gaps` | apps/api/src/documents/traceability.service.ts:313-419 | the pushes give the scope gaps, then each written document's gaps in order |
| `Traceability.ReportedIff` | apps/api/src/documents/traceability.service.ts:313-419 | a gap is reported if and only if it has the document and the first two hundred subjects that its kind calls for |
| `Traceability.MissingKeysAre` | apps/api/src/documents/traceability.service.ts:338-392 | the subjects of a scope gap are the requirements missing from its document, functional ones only for criteria, each once and in order |
| `Traceability.UnsupportedAre` | apps/api/src/documents/traceability.service.ts:396-407 | those of an unsupported gap are the entries that cite nothing and are not delivery work, in order |
| `Traceability.DanglingAre` | apps/api/src/documents/traceability.service.ts:409-414 | those of a dangling gap are the unknown keys some entry cites, each once |
| `Traceability.NoGapsIff` | apps/api/src/documents/traceability.service.ts:313-419 | no gap is reported if and only if nothing is missing from features, work and (for functional requirements) criteria, and every written document is current, with entries citing approved requirements only and, but for delivery work, at least one |
| `TaskRunner.Run` | apps/api/src/analysis/task-runner.service.ts:112-211 | the loop ends for every provider, makes at most maxAttempts plus two calls, succeeds only with a validated last answer, and every earlier turn was one worth going on from |
| `TaskRunner.BoundIsTight` | apps/api/src/analysis/task-runner.service.ts:112-211 | for every number of attempts some provider uses all of them and every repair |
| `TaskRunner.GivesUpOnlyWhenSpent` | apps/api/src/analysis/task-runner.service.ts:112-211 | a run that was not cancelled gives up only on an unusable turn, the third answer sent back, or the last attempt |
| `Metrics.RenderedIsCumulative` | packages/contracts/src/operations/metrics.contract.ts:170-190 | after any observations the figure rendered for a boundary is the number at or below it, and the count is all of them |
| `Metrics.SumIsTotal` | apps/api/src/observability/metrics.service.ts:62-80 | the sum is that of the observations |
| `Metrics.MetricsService.Observe` | apps/api/src/observability/metrics.service.ts:62-80 | one observation fills one bucket of one series |

## Left out

- RateLimitBound.RateBound: holds while no request evicts the key's own open window; what eviction does to decisions is stated by EvictionForgetsNothingIff, ForgettingShows, EvictionCanRefuse, RefusedOnlyAfterLostWindow and RefusedAfterLostWindowIff.
- DocumentSigned.SignedHistoryIsImmutable: excludes runs that add candidates to an approved document, for which SignedHistoryCanChange shows the promise fails.
- EstimateSnapshots.ApprovedPlanStands: excludes approvals made while a re-estimation of that version is asking its model, for which ApprovedWhileAsking shows when the promise fails; lines added by hand, calendar and team are no calls of its runs; they are written to the current version only.
- DocumentHours.HoursConserved: excludes rewriting rows as well as generating and restoring, because a row rewrite does not copy features to the version it cuts; documents with rows have none.
- DocumentHours.HoursComeFromCompositions: speaks of the documents without rows, the only ones that list priced features.
- DocumentRowLife.LifecyclesArePaths: starts from rows whose status their schema declares, which is all the program stores; a row may be added in any declared state.
- DocumentService.DocumentsService.Change: writes the edited content of one version whole, where the program writes the one section, feature or row.
- DocumentService.DocumentsService.AddAssumptionCandidates: takes the candidates left after repeated statements are dropped; an unknown document is refused for its kind first.
- EstimateVersions.GenerateCoversOnce: takes the engine's pricing and the overhead rules as functions, and assumes the ids of new lines are new and baseline items distinct; lines are kept in stored order, not sorted by key.
- EstimateVersions.ReopeningCopiesThePlan: assumes distinct line ids and distinct new ids, which the program draws at random.
- EstimateDependencies.AddDependency: lag, type and reason of a dependency are not part of the graph.
- ConflictReevaluation.ConflictReevaluator.ReevaluateAll: severity and wording of a conflict are not part of its record.
- Timestamps, technology ids, mapping confidence, audit records and the record's own regeneration reason: no branch reads them.
- Version comparison, exports, corrections, and what a run record holds besides whether it is running: they read or annotate what is modelled.
- The composers, schedule, feasibility, staffing and approval blockers of an estimate: pure calculations brought in as values.
- Carrying decided wordings into a new analysis run, similarity, and the recheck of duplicates and ambiguities.
- The single-document reverse lookup of the traceability view.
- Baseline coverage, alignment and blockers, session and transport handling, storage and job queues.
