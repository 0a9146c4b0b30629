/** The seven controlled documents, their lifecycle table, and what each is built on. */
module DocumentTypes {
  import opened Wrappers

  datatype DocType =
    | OurUnderstanding | FeatureListing | AcceptanceCriteria | Assumptions
    | StatementOfWork | WorkBreakdown | DependencySheet

  const DOCUMENT_TYPES: seq<DocType> :=
    [OurUnderstanding, FeatureListing, AcceptanceCriteria, Assumptions, StatementOfWork, WorkBreakdown, DependencySheet]

  datatype Status = NotStarted | Queued | Generating | Draft | NeedsRevision | Approved | Final | Failed

  function Transitions(from: Status): set<Status> {
    match from
    case NotStarted => {Queued}
    case Queued => {Generating, Failed}
    case Generating => {Draft, Failed}
    case Draft => {Queued, Draft, NeedsRevision, Approved}
    case NeedsRevision => {Queued, Draft, NeedsRevision, Approved}
    case Approved => {Queued, Draft, NeedsRevision, Final}
    case Final => {}
    case Failed => {Queued, NotStarted}
  }

  predicate CanTransition(from: Status, to: Status) { to in Transitions(from) }
  predicate CanGenerate(status: Status) { CanTransition(status, Queued) }
  predicate IsEditable(status: Status) { status in {Draft, NeedsRevision, Approved} }
  predicate IsRunning(status: Status) { status in {Queued, Generating} }
  /** A status with a signature behind it. */
  predicate IsSigned(status: Status) { status in {Approved, Final} }

  datatype UpstreamKind = Baseline | Stack | Estimate

  function UpstreamOf(t: DocType): set<UpstreamKind> {
    match t
    case OurUnderstanding => {Baseline}
    case AcceptanceCriteria => {Baseline}
    case Assumptions => {Baseline, Stack}
    case DependencySheet => {Baseline, Stack}
    case _ => {Baseline, Stack, Estimate}
  }

  function Prerequisites(t: DocType): set<DocType> {
    match t
    case OurUnderstanding => {}
    case FeatureListing => {OurUnderstanding}
    case AcceptanceCriteria => {FeatureListing}
    case Assumptions => {AcceptanceCriteria}
    case StatementOfWork => {Assumptions}
    case WorkBreakdown => {StatementOfWork}
    case DependencySheet => {Assumptions, WorkBreakdown}
  }

  function Order(t: DocType): nat {
    match t
    case OurUnderstanding => 1
    case FeatureListing => 2
    case AcceptanceCriteria => 3
    case Assumptions => 4
    case StatementOfWork => 5
    case WorkBreakdown => 6
    case DependencySheet => 7
  }

  /** The document kinds whose composer fills the generic row channel. */
  predicate HasRows(t: DocType) {
    t in {AcceptanceCriteria, Assumptions, WorkBreakdown, DependencySheet}
  }

  /** `t` is built on `source`, directly or through other documents. */
  predicate IsDownstream(source: DocType, t: DocType)
    decreases Order(t)
  {
    source in Prerequisites(t) || exists p :: p in Prerequisites(t) && IsDownstream(source, p)
  }

  /** The documents that name one as a prerequisite, in canonical order. */
  function DependingOn(source: DocType, among: seq<DocType>): seq<DocType> {
    if among == [] then []
    else (if source in Prerequisites(among[0]) then [among[0]] else []) + DependingOn(source, among[1..])
  }

  lemma {:induction false} DependingOnMembers(source: DocType, among: seq<DocType>)
    ensures forall t :: t in DependingOn(source, among) <==> t in among && source in Prerequisites(t)
  {
    if among != [] { DependingOnMembers(source, among[1..]); }
  }

  lemma EveryTypeListed(t: DocType)
    ensures t in DOCUMENT_TYPES
  {
    assert t == DOCUMENT_TYPES[Order(t) - 1];
  }

  ghost predicate ClosedUnder(s: DocType, reached: set<DocType>) {
    forall t :: s in Prerequisites(t) ==> t in reached
  }

  /** What the walk knows: only documents downstream are reached, and every one it is
      not still going to visit has its dependents reached. */
  ghost predicate WalkInvariant(source: DocType, reached: set<DocType>, queue: seq<DocType>) {
    && (forall t :: t in reached ==> IsDownstream(source, t))
    && (forall t :: t in queue ==> t == source || t in reached)
    && (source in queue || ClosedUnder(source, reached))
    && (forall s :: s in reached ==> s in queue || ClosedUnder(s, reached))
  }

  /** The propagation walk finds every document downstream of one, and only those. */
  method DownstreamDocuments(source: DocType) returns (found: seq<DocType>)
    ensures forall t :: t in found <==> IsDownstream(source, t)
    ensures forall i, j :: 0 <= i < j < |found| ==> Order(found[i]) < Order(found[j])
  {
    var reached: set<DocType> := {};
    var queue := [source];
    while queue != []
      invariant WalkInvariant(source, reached, queue)
      decreases Unreached(reached), |queue|
    {
      reached, queue := Visit(source, reached, queue);
    }
    forall t | IsDownstream(source, t) ensures t in reached { ReachedAll(source, t, reached); }
    found := InCanonicalOrder(reached, DOCUMENT_TYPES);
    CanonicalOrder(reached, 0);
    forall t ensures t in DOCUMENT_TYPES[0..] { EveryTypeListed(t); }
  }

  ghost function Unreached(reached: set<DocType>): set<DocType> {
    {OurUnderstanding, FeatureListing, AcceptanceCriteria, Assumptions, StatementOfWork, WorkBreakdown, DependencySheet}
    - reached
  }

  /** Take one document off the queue: its dependents are reached, the new ones queued. */
  method Visit(source: DocType, reached: set<DocType>, queue: seq<DocType>)
    returns (reached': set<DocType>, queue': seq<DocType>)
    requires queue != [] && WalkInvariant(source, reached, queue)
    ensures WalkInvariant(source, reached', queue')
    ensures Unreached(reached') < Unreached(reached) || (reached' == reached && |queue'| < |queue|)
  {
    var head, rest := queue[0], queue[1..];
    assert queue == [head] + rest;
    var dependents := DocumentsDependingOn(head);
    reached', queue' := Enqueue(dependents, reached, rest);
    VisitReachesOnlyDownstream(source, head, reached, queue, dependents);
    VisitCloses(source, head, reached, rest, dependents, reached', queue');
    if reached' != reached { UnreachedShrinks(reached, reached'); }
  }

  lemma UnreachedShrinks(reached: set<DocType>, reached': set<DocType>)
    requires reached <= reached' && reached != reached'
    ensures Unreached(reached') < Unreached(reached)
  {
    var added := reached' - reached;
    assert reached' == reached + added && reached + {} == reached;
    var t :| t in added;
    match t { case OurUnderstanding => case FeatureListing => case _ => }
    assert t in Unreached(reached) && t !in Unreached(reached');
  }

  lemma VisitReachesOnlyDownstream(source: DocType, head: DocType, reached: set<DocType>, queue: seq<DocType>,
                                   dependents: seq<DocType>)
    requires WalkInvariant(source, reached, queue) && head in queue
    requires forall t :: t in dependents ==> head in Prerequisites(t)
    ensures forall t :: t in dependents ==> IsDownstream(source, t)
  {
    forall t | t in dependents ensures IsDownstream(source, t) {
      if head != source {
        assert IsDownstream(source, head);
        assert head in Prerequisites(t);
        DownstreamIsTransitive(source, head, t);
      }
    }
  }

  lemma VisitCloses(source: DocType, head: DocType, reached: set<DocType>, rest: seq<DocType>,
                    dependents: seq<DocType>, reached': set<DocType>, queue': seq<DocType>)
    requires WalkInvariant(source, reached, [head] + rest)
    requires forall t :: head in Prerequisites(t) ==> t in dependents
    requires forall t :: t in reached' <==> t in reached || t in dependents
    requires forall t :: t in queue' <==> t in rest || (t in reached' && t !in reached)
    ensures source in queue' || ClosedUnder(source, reached')
    ensures forall s :: s in reached' ==> s in queue' || ClosedUnder(s, reached')
  {
    assert ClosedUnder(head, reached');
    forall s | (s == source || s in reached') && s !in queue' ensures ClosedUnder(s, reached') {
      if s != head {
        assert s !in [head] + rest;
        assert ClosedUnder(s, reached);
      }
    }
  }

  method DocumentsDependingOn(source: DocType) returns (dependents: seq<DocType>)
    ensures forall t :: t in dependents <==> source in Prerequisites(t)
  {
    dependents := DependingOn(source, DOCUMENT_TYPES);
    DependingOnMembers(source, DOCUMENT_TYPES);
    forall t | source in Prerequisites(t) ensures t in dependents { EveryTypeListed(t); }
  }

  method Enqueue(dependents: seq<DocType>, reached: set<DocType>, queue: seq<DocType>)
    returns (reached': set<DocType>, queue': seq<DocType>)
    ensures forall t :: t in reached' <==> t in reached || t in dependents
    ensures forall t :: t in queue' <==> t in queue || (t in reached' && t !in reached)
    ensures reached' == reached ==> queue' == queue
  {
    reached', queue' := reached, queue;
    for i := 0 to |dependents|
      invariant forall t :: t in reached' <==> t in reached || t in dependents[..i]
      invariant forall t :: t in queue' <==> t in queue || (t in reached' && t !in reached)
      invariant reached <= reached'
      invariant reached' == reached ==> queue' == queue
    {
      assert dependents[..i + 1] == dependents[..i] + [dependents[i]];
      if dependents[i] !in reached' {
        reached' := reached' + {dependents[i]};
        queue' := queue' + [dependents[i]];
      }
    }
    assert dependents[..|dependents|] == dependents;
  }

  function InCanonicalOrder(reached: set<DocType>, among: seq<DocType>): seq<DocType> {
    if among == [] then []
    else (if among[0] in reached then [among[0]] else []) + InCanonicalOrder(reached, among[1..])
  }

  lemma {:induction false} CanonicalOrder(reached: set<DocType>, from: nat)
    requires from <= |DOCUMENT_TYPES|
    ensures var found := InCanonicalOrder(reached, DOCUMENT_TYPES[from..]);
      && (forall t :: t in found <==> t in reached && t in DOCUMENT_TYPES[from..])
      && (forall i :: 0 <= i < |found| ==> Order(found[i]) > from)
      && (forall i, j :: 0 <= i < j < |found| ==> Order(found[i]) < Order(found[j]))
    decreases |DOCUMENT_TYPES| - from
  {
    if from < |DOCUMENT_TYPES| {
      assert Order(DOCUMENT_TYPES[from]) == from + 1;
      assert DOCUMENT_TYPES[from..][1..] == DOCUMENT_TYPES[from + 1..];
      CanonicalOrder(reached, from + 1);
    }
  }

  lemma {:induction false} ReachedAll(source: DocType, t: DocType, reached: set<DocType>)
    requires IsDownstream(source, t)
    requires ClosedUnder(source, reached)
    requires forall s :: s in reached ==> ClosedUnder(s, reached)
    ensures t in reached
    decreases Order(t)
  {
    if source !in Prerequisites(t) {
      var p :| p in Prerequisites(t) && IsDownstream(source, p);
      ReachedAll(source, p, reached);
    }
  }

  /** Staleness reaches as far as it should: downstream of downstream is downstream. */
  lemma {:induction false} DownstreamIsTransitive(a: DocType, b: DocType, c: DocType)
    requires IsDownstream(a, b) && IsDownstream(b, c)
    ensures IsDownstream(a, c)
    decreases Order(c)
  {
    if b in Prerequisites(c) {
    } else {
      var p :| p in Prerequisites(c) && IsDownstream(b, p);
      DownstreamIsTransitive(a, b, p);
    }
  }

  lemma {:induction false} DownstreamComesLater(a: DocType, b: DocType)
    requires IsDownstream(a, b)
    ensures Order(a) < Order(b)
    decreases Order(b)
  {
    if a !in Prerequisites(b) {
      var p :| p in Prerequisites(b) && IsDownstream(a, p);
      DownstreamComesLater(a, p);
    }
  }
}
