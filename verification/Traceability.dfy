/** Which documents cite which requirement, read from either end, and what is missing. */
module Traceability {
  import opened Wrappers
  import opened DocumentTypes

  /** A section, feature or row, with the requirements its own citation field names. */
  datatype Entry = Entry(key: string, cited: seq<string>, deliveryOnly: bool)

  datatype Link = Link(document: DocType, version: nat, artifact: string, stale: bool)
  datatype Artifact = Artifact(document: DocType, key: string, requirementKeys: seq<string>, danglingKeys: seq<string>,
                               deliveryOnly: bool)

  type Links = map<string, seq<Link>>

  function At(links: Links, key: string): seq<Link> { if key in links then links[key] else [] }

  function Approved(cited: seq<string>, approved: set<string>, wanted: bool): seq<string> {
    if cited == [] then []
    else (if (cited[0] in approved) == wanted then [cited[0]] else []) + Approved(cited[1..], approved, wanted)
  }

  /** One document being walked. */
  datatype Walk = Walk(document: DocType, version: nat, stale: bool, approved: set<string>)

  function LinkTo(w: Walk, entry: Entry): Link { Link(w.document, w.version, entry.key, w.stale) }

  function AddLinks(links: Links, keys: seq<string>, link: Link): Links
    decreases |keys|
  {
    if keys == [] then links
    else
      var before := AddLinks(links, keys[..|keys| - 1], link);
      var last := keys[|keys| - 1];
      before[last := At(before, last) + [link]]
  }

  function ArtifactOf(w: Walk, entry: Entry): Artifact {
    Artifact(w.document, entry.key, Approved(entry.cited, w.approved, true), Approved(entry.cited, w.approved, false),
        entry.deliveryOnly)
  }

  function LinksOf(w: Walk, entries: seq<Entry>): Links
    decreases |entries|
  {
    if entries == [] then map[]
    else
      var last := entries[|entries| - 1];
      AddLinks(LinksOf(w, entries[..|entries| - 1]), Approved(last.cited, w.approved, true), LinkTo(w, last))
  }

  function ArtifactsOf(w: Walk, entries: seq<Entry>): seq<Artifact> {
    seq(|entries|, i requires 0 <= i < |entries| => ArtifactOf(w, entries[i]))
  }

  /** One pass over a document builds both directions. */
  method LinksFor(w: Walk, entries: seq<Entry>) returns (links: Links, artifacts: seq<Artifact>)
    ensures links == LinksOf(w, entries) && artifacts == ArtifactsOf(w, entries)
  {
    links, artifacts := map[], [];
    for i := 0 to |entries|
      invariant links == LinksOf(w, entries[..i])
      invariant |artifacts| == i && forall k :: 0 <= k < i ==> artifacts[k] == ArtifactOf(w, entries[k])
    {
      assert entries[..i + 1][..i] == entries[..i];
      links := Record(links, w, entries[i]);
      artifacts := artifacts + [ArtifactOf(w, entries[i])];
    }
    assert entries[..|entries|] == entries;
  }

  method Record(links: Links, w: Walk, entry: Entry) returns (after: Links)
    ensures after == AddLinks(links, Approved(entry.cited, w.approved, true), LinkTo(w, entry))
  {
    after := links;
    var keys := Approved(entry.cited, w.approved, true);
    for i := 0 to |keys|
      invariant after == AddLinks(links, keys[..i], LinkTo(w, entry))
    {
      AddOne(links, keys, i, LinkTo(w, entry));
      after := after[keys[i] := At(after, keys[i]) + [LinkTo(w, entry)]];
    }
    assert keys[..|keys|] == keys;
  }

  lemma AddOne(links: Links, keys: seq<string>, i: nat, link: Link)
    requires i < |keys|
    ensures var before := AddLinks(links, keys[..i], link);
      AddLinks(links, keys[..i + 1], link) == before[keys[i] := At(before, keys[i]) + [link]]
  {
    assert keys[..i + 1][..i] == keys[..i];
  }

  /* ------------------------------------------------ the two directions agree */

  /** How often the forward index says a requirement is cited by an artifact. */
  ghost function Forward(links: seq<Link>, artifact: string): nat {
    if links == [] then 0
    else Forward(links[..|links| - 1], artifact) + if links[|links| - 1].artifact == artifact then 1 else 0
  }

  /** How often the artifacts themselves say so. */
  ghost function Reverse(artifacts: seq<Artifact>, requirement: string, artifact: string): nat {
    if artifacts == [] then 0
    else
      var last := artifacts[|artifacts| - 1];
      Reverse(artifacts[..|artifacts| - 1], requirement, artifact)
      + if last.key == artifact then multiset(last.requirementKeys)[requirement] else 0
  }

  ghost function Occurrences(artifacts: seq<Artifact>, requirement: string): nat {
    if artifacts == [] then 0
    else
      Occurrences(artifacts[..|artifacts| - 1], requirement)
      + multiset(artifacts[|artifacts| - 1].requirementKeys)[requirement]
  }

  lemma {:induction false} AddedLinks(links: Links, keys: seq<string>, link: Link, requirement: string,
                                      artifact: string)
    ensures var after := AddLinks(links, keys, link);
      && |At(after, requirement)| == |At(links, requirement)| + multiset(keys)[requirement]
      && Forward(At(after, requirement), artifact)
         == Forward(At(links, requirement), artifact)
            + if link.artifact == artifact then multiset(keys)[requirement] else 0
    decreases |keys|
  {
    if keys != [] {
      var init, last := keys[..|keys| - 1], keys[|keys| - 1];
      AddedLinks(links, init, link, requirement, artifact);
      assert keys == init + [last];
      var before := AddLinks(links, init, link);
      if last == requirement {
        var longer := At(before, last) + [link];
        assert longer[..|longer| - 1] == At(before, last);
      }
    }
  }

  lemma ArtifactsOfInit(w: Walk, entries: seq<Entry>)
    requires entries != []
    ensures var artifacts := ArtifactsOf(w, entries);
      artifacts[..|artifacts| - 1] == ArtifactsOf(w, entries[..|entries| - 1])
      && artifacts[|artifacts| - 1] == ArtifactOf(w, entries[|entries| - 1])
  {
  }

  /** Under each requirement there is one link for each time an artifact cites it; a
      requirement no artifact cites has none. */
  lemma {:induction false} LinksCountCitations(w: Walk, entries: seq<Entry>, requirement: string)
    ensures |At(LinksOf(w, entries), requirement)| == Occurrences(ArtifactsOf(w, entries), requirement)
    decreases |entries|
  {
    if entries != [] {
      var init, last := entries[..|entries| - 1], entries[|entries| - 1];
      LinksCountCitations(w, init, requirement);
      AddedLinks(LinksOf(w, init), Approved(last.cited, w.approved, true), LinkTo(w, last), requirement, "");
      ArtifactsOfInit(w, entries);
    }
  }

  /** The forward index and the reverse list say the same, artifact by artifact. */
  lemma {:induction false} DirectionsAgree(w: Walk, entries: seq<Entry>, requirement: string, artifact: string)
    ensures Forward(At(LinksOf(w, entries), requirement), artifact)
            == Reverse(ArtifactsOf(w, entries), requirement, artifact)
    decreases |entries|
  {
    if entries != [] {
      var init, last := entries[..|entries| - 1], entries[|entries| - 1];
      DirectionsAgree(w, init, requirement, artifact);
      AddedLinks(LinksOf(w, init), Approved(last.cited, w.approved, true), LinkTo(w, last), requirement, artifact);
      ArtifactsOfInit(w, entries);
    }
  }

  /** Each artifact's requirement keys and dangling keys are its citations split in two. */
  lemma {:induction false} CitationsPartition(cited: seq<string>, approved: set<string>)
    ensures multiset(Approved(cited, approved, true)) + multiset(Approved(cited, approved, false)) == multiset(cited)
    ensures forall key :: key in Approved(cited, approved, true) <==> key in cited && key in approved
    ensures forall key :: key in Approved(cited, approved, false) <==> key in cited && key !in approved
  {
    if cited != [] {
      CitationsPartition(cited[1..], approved);
      assert cited == [cited[0]] + cited[1..];
      var rest, other := Approved(cited[1..], approved, true), Approved(cited[1..], approved, false);
      assert multiset([cited[0]] + rest) == multiset{cited[0]} + multiset(rest);
      assert multiset([cited[0]] + other) == multiset{cited[0]} + multiset(other);
    }
  }

  /* ------------------------------------------------------------ per requirement */

  /** Where leaving a requirement out is no gap. */
  predicate IsConditional(t: DocType) { t in {Assumptions, DependencySheet} }

  datatype Requirement = Requirement(id: string, key: string, functional: bool)

  datatype Written = Written(version: nat, stale: bool, links: Links, artifacts: seq<Artifact>, exclusions: set<string>)
  type Documents = map<DocType, Written>

  datatype Trace = Trace(requirement: string, links: seq<Link>, missingFrom: seq<DocType>, excludedIn: seq<DocType>,
                         complete: bool)

  predicate Excluded(document: Written, r: Requirement) { r.id in document.exclusions || r.key in document.exclusions }

  function AllLinks(documents: Documents, r: Requirement, types: seq<DocType>): seq<Link>
    decreases |types|
  {
    if types == [] then []
    else AllLinks(documents, r, types[..|types| - 1])
         + if types[|types| - 1] in documents then At(documents[types[|types| - 1]].links, r.key) else []
  }

  predicate IsMissing(documents: Documents, r: Requirement, t: DocType) {
    t in documents && !Excluded(documents[t], r) && |At(documents[t].links, r.key)| == 0 && !IsConditional(t)
  }

  predicate IsExcluded(documents: Documents, r: Requirement, t: DocType) {
    t in documents && Excluded(documents[t], r)
  }

  function Pick(types: seq<DocType>, wanted: DocType -> bool): seq<DocType>
    decreases |types|
  {
    if types == [] then []
    else Pick(types[..|types| - 1], wanted) + if wanted(types[|types| - 1]) then [types[|types| - 1]] else []
  }

  function TraceOf(documents: Documents, r: Requirement): Trace {
    var missing := Pick(DOCUMENT_TYPES, t => IsMissing(documents, r, t));
    Trace(r.key, AllLinks(documents, r, DOCUMENT_TYPES), missing,
        Pick(DOCUMENT_TYPES, t => IsExcluded(documents, r, t)), missing == [])
  }

  method Follow(documents: Documents, r: Requirement) returns (trace: Trace)
    ensures trace == TraceOf(documents, r)
  {
    var links: seq<Link>, missing: seq<DocType>, excluded: seq<DocType> := [], [], [];
    for i := 0 to |DOCUMENT_TYPES|
      invariant links == AllLinks(documents, r, DOCUMENT_TYPES[..i])
      invariant missing == Pick(DOCUMENT_TYPES[..i], t => IsMissing(documents, r, t))
      invariant excluded == Pick(DOCUMENT_TYPES[..i], t => IsExcluded(documents, r, t))
    {
      assert DOCUMENT_TYPES[..i + 1][..i] == DOCUMENT_TYPES[..i];
      var t := DOCUMENT_TYPES[i];
      if t !in documents { continue; }
      var found := At(documents[t].links, r.key);
      links := links + found;
      if Excluded(documents[t], r) {
        excluded := excluded + [t];
        continue;
      }
      if |found| == 0 && !IsConditional(t) { missing := missing + [t]; }
    }
    assert DOCUMENT_TYPES[..|DOCUMENT_TYPES|] == DOCUMENT_TYPES;
    trace := Trace(r.key, links, missing, excluded, missing == []);
  }

  lemma {:induction false} PickHas(types: seq<DocType>, wanted: DocType -> bool, t: DocType)
    ensures t in Pick(types, wanted) <==> t in types && wanted(t)
    decreases |types|
  {
    if types != [] {
      PickHas(types[..|types| - 1], wanted, t);
      assert types == types[..|types| - 1] + [types[|types| - 1]];
    }
  }

  /** The links of one document among many, in order. */
  function From(links: seq<Link>, t: DocType): seq<Link>
    decreases |links|
  {
    if links == [] then []
    else
      var last := links[|links| - 1];
      From(links[..|links| - 1], t) + if last.document == t then [last] else []
  }

  /** Every link stored with a document is one of that document. */
  ghost predicate OwnLinks(documents: Documents, key: string) {
    forall t :: t in documents ==> AllFrom(At(documents[t].links, key), t)
  }

  ghost predicate AllFrom(links: seq<Link>, t: DocType) {
    forall i :: 0 <= i < |links| ==> links[i].document == t
  }

  ghost predicate IsOf(w: Walk, link: Link) {
    link.document == w.document && link.version == w.version && link.stale == w.stale
  }

  ghost predicate AllOf(w: Walk, links: seq<Link>) {
    forall i :: 0 <= i < |links| ==> IsOf(w, links[i])
  }

  /** What a pass over a document stores is of that document, at the version read. */
  lemma {:induction false} PassLinksAreOwn(w: Walk, entries: seq<Entry>, key: string)
    ensures AllOf(w, At(LinksOf(w, entries), key))
    decreases |entries|
  {
    if entries != [] {
      var init, last := entries[..|entries| - 1], entries[|entries| - 1];
      PassLinksAreOwn(w, init, key);
      AddedAreOwn(LinksOf(w, init), Approved(last.cited, w.approved, true), LinkTo(w, last), key);
      JoinedAreOwn(w, At(LinksOf(w, init), key), At(LinksOf(w, entries), key), LinkTo(w, last));
    }
  }

  lemma JoinedAreOwn(w: Walk, before: seq<Link>, after: seq<Link>, link: Link)
    requires AllOf(w, before) && IsOf(w, link) && |before| <= |after| && after[..|before|] == before
    requires forall i :: |before| <= i < |after| ==> after[i] == link
    ensures AllOf(w, after)
  {
    forall i | 0 <= i < |after| ensures IsOf(w, after[i]) {
      if i < |before| { assert after[i] == after[..|before|][i]; }
    }
  }

  lemma {:induction false} AddedAreOwn(links: Links, keys: seq<string>, link: Link, key: string)
    ensures var before, after := At(links, key), At(AddLinks(links, keys, link), key);
      && |before| <= |after| && after[..|before|] == before
      && forall i :: |before| <= i < |after| ==> after[i] == link
    decreases |keys|
  {
    if keys != [] { AddedAreOwn(links, keys[..|keys| - 1], link, key); }
  }

  lemma {:induction false} FromOfBoth(a: seq<Link>, b: seq<Link>, t: DocType)
    ensures From(a + b, t) == From(a, t) + From(b, t)
    decreases |b|
  {
    if b == [] {
      assert a + b == a;
    } else {
      assert (a + b)[..|a + b| - 1] == a + b[..|b| - 1];
      FromOfBoth(a, b[..|b| - 1], t);
    }
  }

  lemma {:induction false} FromOfOne(links: seq<Link>, of: DocType, t: DocType)
    requires AllFrom(links, of)
    ensures From(links, t) == if of == t then links else []
    decreases |links|
  {
    if links != [] { FromOfOne(links[..|links| - 1], of, t); }
  }

  lemma {:induction false} AllLinksFrom(documents: Documents, r: Requirement, types: seq<DocType>, t: DocType)
    requires OwnLinks(documents, r.key) && forall i, j :: 0 <= i < j < |types| ==> types[i] != types[j]
    ensures From(AllLinks(documents, r, types), t)
         == if t in types && t in documents then At(documents[t].links, r.key) else []
    decreases |types|
  {
    if types != [] {
      var init, last := types[..|types| - 1], types[|types| - 1];
      AllLinksFrom(documents, r, init, t);
      assert types == init + [last];
      assert last !in init by { assert forall i :: 0 <= i < |init| ==> init[i] == types[i]; }
      assert AllLinks(documents, r, init) + [] == AllLinks(documents, r, init);
      if last in documents {
        FromOfBoth(AllLinks(documents, r, init), At(documents[last].links, r.key), t);
        FromOfOne(At(documents[last].links, r.key), last, t);
        assert [] + At(documents[last].links, r.key) == At(documents[last].links, r.key);
        assert From(AllLinks(documents, r, init), t) + [] == From(AllLinks(documents, r, init), t);
      }
    }
  }

  /** A trace hands on the links of every written document, all of them, in order and
      once, and no others. */
  lemma TraceLinksAreTheDocuments(documents: Documents, r: Requirement, t: DocType)
    requires OwnLinks(documents, r.key)
    ensures From(TraceOf(documents, r).links, t) == if t in documents then At(documents[t].links, r.key) else []
  {
    EveryTypeListed(t);
    TypesDiffer();
    AllLinksFrom(documents, r, DOCUMENT_TYPES, t);
  }

  lemma TypesDiffer()
    ensures forall i, j :: 0 <= i < j < |DOCUMENT_TYPES| ==> DOCUMENT_TYPES[i] != DOCUMENT_TYPES[j]
  {
    assert forall i :: 0 <= i < |DOCUMENT_TYPES| ==> Order(DOCUMENT_TYPES[i]) == i + 1;
  }

  /** For each written document a requirement must appear in, the trace says exactly one of
      three things: it is missing, it was excluded, or it is linked and not excluded. The
      trace is complete exactly when none says missing, and it never speaks of a document
      that is not written. */
  lemma ExactlyOneOfThree(documents: Documents, r: Requirement, t: DocType)
    ensures var trace := TraceOf(documents, r);
      var missing, excluded := t in trace.missingFrom, t in trace.excludedIn;
      var linked := t in documents && |At(documents[t].links, r.key)| > 0;
      && (t !in documents ==> !missing && !excluded)
      && (excluded <==> t in documents && (r.id in documents[t].exclusions || r.key in documents[t].exclusions))
      && (missing <==> t in documents && !excluded && !linked && t !in {Assumptions, DependencySheet})
      && !(missing && excluded) && !(missing && linked)
      && (t in documents && !IsConditional(t) ==> missing || excluded || linked)
      && (missing ==> !trace.complete)
      && (trace.complete <==> forall d :: d in documents && !IsConditional(d) ==>
            IsExcluded(documents, r, d) || |At(documents[d].links, r.key)| > 0)
  {
    EveryTypeListed(t);
    PickHas(DOCUMENT_TYPES, t => IsMissing(documents, r, t), t);
    PickHas(DOCUMENT_TYPES, t => IsExcluded(documents, r, t), t);
    CompleteIff(documents, r);
  }

  lemma CompleteIff(documents: Documents, r: Requirement)
    ensures TraceOf(documents, r).complete <==> forall d :: d in documents && !IsConditional(d) ==>
              IsExcluded(documents, r, d) || |At(documents[d].links, r.key)| > 0
  {
    var missing := TraceOf(documents, r).missingFrom;
    forall d ensures d in missing <==> IsMissing(documents, r, d) {
      EveryTypeListed(d);
      PickHas(DOCUMENT_TYPES, t => IsMissing(documents, r, t), d);
    }
    if missing == [] {
      forall d | d in documents && !IsConditional(d)
        ensures IsExcluded(documents, r, d) || |At(documents[d].links, r.key)| > 0
      {
        assert !IsMissing(documents, r, d);
      }
    } else {
      assert missing[0] in missing;
      assert !IsExcluded(documents, r, missing[0]);
    }
  }

  /* ----------------------------------------------------------------- coverage */

  ghost function Count(requirements: seq<Requirement>, wanted: Requirement -> bool): nat {
    if requirements == [] then 0 else (if wanted(requirements[0]) then 1 else 0) + Count(requirements[1..], wanted)
  }

  lemma {:induction false} CountSplits(requirements: seq<Requirement>, a: Requirement -> bool, b: Requirement -> bool,
                                       c: Requirement -> bool)
    requires forall r :: a(r) || b(r) || c(r)
    requires forall r :: !(a(r) && b(r)) && !(a(r) && c(r)) && !(b(r) && c(r))
    ensures Count(requirements, a) + Count(requirements, b) + Count(requirements, c) == |requirements|
  {
    if requirements != [] { CountSplits(requirements[1..], a, b, c); }
  }

  /** The coverage of a document adds up: every requirement is represented in it, missing
      from it, or excluded without being represented. What is both represented and excluded
      is counted under both headings, so the two figures shown may exceed the whole by
      exactly that many. */
  lemma CoverageAddsUp(documents: Documents, requirements: seq<Requirement>, t: DocType)
    requires t in documents && !IsConditional(t)
    ensures var linked := (r: Requirement) => |At(documents[t].links, r.key)| > 0;
      var excluded := (r: Requirement) => IsExcluded(documents, r, t);
      Count(requirements, linked) + Count(requirements, (r: Requirement) => IsMissing(documents, r, t))
      + Count(requirements, excluded)
      == |requirements| + Count(requirements, (r: Requirement) => linked(r) && excluded(r))
  {
    var linked := (r: Requirement) => |At(documents[t].links, r.key)| > 0;
    var excluded := (r: Requirement) => IsExcluded(documents, r, t);
    var both := (r: Requirement) => linked(r) && excluded(r);
    var only := (r: Requirement) => excluded(r) && !linked(r);
    var missing := (r: Requirement) => IsMissing(documents, r, t);
    CountSplits(requirements, linked, missing, only);
    CountParts(requirements, excluded, both, only);
  }

  lemma {:induction false} CountParts(requirements: seq<Requirement>, whole: Requirement -> bool,
                                      a: Requirement -> bool, b: Requirement -> bool)
    requires forall r :: whole(r) <==> a(r) || b(r)
    requires forall r :: !(a(r) && b(r))
    ensures Count(requirements, whole) == Count(requirements, a) + Count(requirements, b)
  {
    if requirements != [] { CountParts(requirements[1..], whole, a, b); }
  }

  /* --------------------------------------------------------------------- gaps */

  datatype GapKind =
    | RequirementUnmapped | FeatureWithoutCriterion | ScopeWithoutWork | UnsupportedRow | DanglingReference | StaleTrace

  datatype Gap = Gap(kind: GapKind, document: DocType, subjects: seq<string>)

  /** A gap names at most two hundred subjects, and is only there if it has one. */
  function GapIf(kind: GapKind, t: DocType, subjects: seq<string>): seq<Gap> {
    if |subjects| == 0 then [] else [Gap(kind, t, if |subjects| > 200 then subjects[..200] else subjects)]
  }

  function MissingKeys(documents: Documents, requirements: seq<Requirement>, t: DocType,
                       onlyFunctional: bool): seq<string> {
    if requirements == [] then []
    else
      (if IsMissing(documents, requirements[0], t) && (requirements[0].functional || !onlyFunctional)
          then [requirements[0].key] else [])
      + MissingKeys(documents, requirements[1..], t, onlyFunctional)
  }

  function Unsupported(artifacts: seq<Artifact>): seq<string> {
    if artifacts == [] then []
    else
      (if !artifacts[0].deliveryOnly && artifacts[0].requirementKeys == [] && artifacts[0].danglingKeys == []
       then [artifacts[0].key] else [])
      + Unsupported(artifacts[1..])
  }

  function Dangling(artifacts: seq<Artifact>): seq<string> {
    if artifacts == [] then [] else Dangling(artifacts[..|artifacts| - 1]) + artifacts[|artifacts| - 1].danglingKeys
  }

  /** Each key once, where it first appears. */
  function Once(keys: seq<string>): seq<string> {
    if keys == [] then []
    else
      var before, last := Once(keys[..|keys| - 1]), keys[|keys| - 1];
      if last in before then before else before + [last]
  }

  function TypeName(t: DocType): string {
    match t
    case OurUnderstanding => "OUR_UNDERSTANDING"
    case FeatureListing => "FEATURE_LISTING"
    case AcceptanceCriteria => "ACCEPTANCE_CRITERIA"
    case Assumptions => "ASSUMPTIONS"
    case StatementOfWork => "STATEMENT_OF_WORK"
    case WorkBreakdown => "WORK_BREAKDOWN_STRUCTURE"
    case DependencySheet => "CLIENT_DEPENDENCY_SHEET"
  }

  function ScopeGaps(documents: Documents, requirements: seq<Requirement>): seq<Gap> {
    GapIf(RequirementUnmapped, FeatureListing, MissingKeys(documents, requirements, FeatureListing, false))
    + GapIf(FeatureWithoutCriterion, AcceptanceCriteria, MissingKeys(documents, requirements, AcceptanceCriteria, true))
    + GapIf(ScopeWithoutWork, WorkBreakdown, MissingKeys(documents, requirements, WorkBreakdown, false))
  }

  function DocumentGaps(t: DocType, document: Written): seq<Gap> {
    GapIf(UnsupportedRow, t, Unsupported(document.artifacts))
    + GapIf(DanglingReference, t, Once(Dangling(document.artifacts)))
    + if document.stale then GapIf(StaleTrace, t, [TypeName(t)]) else []
  }

  /** `order` is the written documents as they were read. */
  function AllDocumentGaps(documents: Documents, order: seq<DocType>): seq<Gap>
    decreases |order|
  {
    if order == [] then []
    else
      var last := order[|order| - 1];
      AllDocumentGaps(documents, order[..|order| - 1])
      + if last in documents then DocumentGaps(last, documents[last]) else []
  }

  method Gaps(documents: Documents, requirements: seq<Requirement>, order: seq<DocType>) returns (gaps: seq<Gap>)
    ensures gaps == ScopeGaps(documents, requirements) + AllDocumentGaps(documents, order)
  {
    gaps := ScopeGaps(documents, requirements);
    for i := 0 to |order|
      invariant gaps == ScopeGaps(documents, requirements) + AllDocumentGaps(documents, order[..i])
    {
      assert order[..i + 1][..i] == order[..i];
      if order[i] in documents { gaps := gaps + DocumentGaps(order[i], documents[order[i]]); }
    }
    assert order[..|order|] == order;
  }

  lemma {:induction false} NoneMissingIff(documents: Documents, requirements: seq<Requirement>, t: DocType,
                                          onlyFunctional: bool)
    ensures MissingKeys(documents, requirements, t, onlyFunctional) == [] <==>
      forall i :: 0 <= i < |requirements| && IsMissing(documents, requirements[i], t) ==>
        onlyFunctional && !requirements[i].functional
  {
    if requirements != [] {
      var rest := requirements[1..];
      NoneMissingIff(documents, rest, t, onlyFunctional);
      assert forall i :: 1 <= i < |requirements| ==> requirements[i] == rest[i - 1];
      assert forall i :: 0 <= i < |rest| ==> rest[i] == requirements[i + 1];
    }
  }

  /** Every artifact cites an approved requirement, is delivery work, or cites nothing amiss. */
  ghost predicate Supported(artifact: Artifact) {
    artifact.danglingKeys == [] && (artifact.deliveryOnly || artifact.requirementKeys != [])
  }

  lemma {:induction false} NoneUnsupportedIff(artifacts: seq<Artifact>)
    ensures Unsupported(artifacts) == [] <==>
      forall i :: 0 <= i < |artifacts| ==>
        artifacts[i].deliveryOnly || artifacts[i].requirementKeys != [] || artifacts[i].danglingKeys != []
  {
    if artifacts != [] {
      var rest := artifacts[1..];
      NoneUnsupportedIff(rest);
      assert forall i :: 1 <= i < |artifacts| ==> artifacts[i] == rest[i - 1];
      assert forall i :: 0 <= i < |rest| ==> rest[i] == artifacts[i + 1];
    }
  }

  lemma {:induction false} NoneDanglingIff(artifacts: seq<Artifact>)
    ensures Once(Dangling(artifacts)) == [] <==> forall i :: 0 <= i < |artifacts| ==> artifacts[i].danglingKeys == []
  {
    OnceIsEmptyIff(Dangling(artifacts));
    if artifacts != [] {
      var init := artifacts[..|artifacts| - 1];
      NoneDanglingIff(init);
      OnceIsEmptyIff(Dangling(init));
      assert forall i :: 0 <= i < |init| ==> init[i] == artifacts[i];
      assert |Dangling(artifacts)| == |Dangling(init)| + |artifacts[|artifacts| - 1].danglingKeys|;
    }
  }

  lemma {:induction false} OnceIsEmptyIff(keys: seq<string>)
    ensures Once(keys) == [] <==> keys == []
  {
    if keys != [] { OnceIsEmptyIff(keys[..|keys| - 1]); }
  }

  lemma {:induction false} NoDocumentGapsIff(documents: Documents, order: seq<DocType>)
    ensures AllDocumentGaps(documents, order) == [] <==>
      forall t :: t in order && t in documents ==> DocumentGaps(t, documents[t]) == []
    decreases |order|
  {
    if order != [] {
      var init, last := order[..|order| - 1], order[|order| - 1];
      NoDocumentGapsIff(documents, init);
      assert forall t :: t in order <==> t in init || t == last;
      assert |AllDocumentGaps(documents, order)|
          == |AllDocumentGaps(documents, init)|
             + if last in documents then |DocumentGaps(last, documents[last])| else 0;
    }
  }

  /** The view reports no gap exactly when there is none: no approved requirement is missing
      from the features or the work, no functional one from the criteria, and every written
      document is current and made of entries that cite approved requirements only and, but
      for delivery work, at least one. */
  lemma NoGapsIff(documents: Documents, requirements: seq<Requirement>, order: seq<DocType>)
    requires forall t :: t in order <==> t in documents
    ensures ScopeGaps(documents, requirements) + AllDocumentGaps(documents, order) == [] <==>
      && (forall i :: 0 <= i < |requirements| ==>
            !IsMissing(documents, requirements[i], FeatureListing)
            && !IsMissing(documents, requirements[i], WorkBreakdown)
            && (requirements[i].functional ==> !IsMissing(documents, requirements[i], AcceptanceCriteria)))
      && (forall t :: t in documents ==>
            !documents[t].stale && forall i :: 0 <= i < |documents[t].artifacts| ==>
                Supported(documents[t].artifacts[i]))
  {
    NoneMissingIff(documents, requirements, FeatureListing, false);
    NoneMissingIff(documents, requirements, AcceptanceCriteria, true);
    NoneMissingIff(documents, requirements, WorkBreakdown, false);
    NoDocumentGapsIff(documents, order);
    forall t | t in documents
      ensures DocumentGaps(t, documents[t]) == [] <==>
        !documents[t].stale && forall i :: 0 <= i < |documents[t].artifacts| ==> Supported(documents[t].artifacts[i])
    {
      NoneUnsupportedIff(documents[t].artifacts);
      NoneDanglingIff(documents[t].artifacts);
      NoGapsOfOneIff(t, documents[t]);
    }
    var scope, rest := ScopeGaps(documents, requirements), AllDocumentGaps(documents, order);
    assert |scope + rest| == |scope| + |rest|;
  }

  lemma NoGapsOfOneIff(t: DocType, document: Written)
    ensures DocumentGaps(t, document) == [] <==>
      Unsupported(document.artifacts) == [] && Once(Dangling(document.artifacts)) == [] && !document.stale
  {
    var a, b := GapIf(UnsupportedRow, t, Unsupported(document.artifacts)),
      GapIf(DanglingReference, t, Once(Dangling(document.artifacts)));
    assert |DocumentGaps(t, document)| == |a| + |b| + if document.stale then 1 else 0;
  }

  /* ------------------------------------------------------- what each gap names */

  /** A gap's subjects: the first two hundred of all it could name. */
  ghost predicate Lists(subjects: seq<string>, all: seq<string>) {
    && subjects != [] && subjects <= all && |subjects| <= 200
    && (|subjects| < 200 ==> subjects == all)
  }

  /** What a gap of each kind says, and of which document. */
  ghost predicate IsGap(documents: Documents, requirements: seq<Requirement>, order: seq<DocType>, gap: Gap) {
    match gap.kind
    case RequirementUnmapped =>
      gap.document == FeatureListing
      && Lists(gap.subjects, MissingKeys(documents, requirements, FeatureListing, false))
    case FeatureWithoutCriterion =>
      gap.document == AcceptanceCriteria
      && Lists(gap.subjects, MissingKeys(documents, requirements, AcceptanceCriteria, true))
    case ScopeWithoutWork =>
      gap.document == WorkBreakdown
      && Lists(gap.subjects, MissingKeys(documents, requirements, WorkBreakdown, false))
    case _ => gap.document in order && gap.document in documents && IsDocumentGap(documents[gap.document], gap)
  }

  ghost predicate IsDocumentGap(document: Written, gap: Gap) {
    match gap.kind
    case UnsupportedRow => Lists(gap.subjects, Unsupported(document.artifacts))
    case DanglingReference => Lists(gap.subjects, Once(Dangling(document.artifacts)))
    case StaleTrace => document.stale && gap.subjects == [TypeName(gap.document)]
    case _ => false
  }

  lemma GapIfLists(kind: GapKind, t: DocType, subjects: seq<string>, gap: Gap)
    ensures gap in GapIf(kind, t, subjects) <==> gap.kind == kind && gap.document == t && Lists(gap.subjects, subjects)
  {
    if gap.kind == kind && gap.document == t && Lists(gap.subjects, subjects) {
      assert gap.subjects == if |subjects| > 200 then subjects[..200] else subjects;
      assert gap == GapIf(kind, t, subjects)[0];
    }
  }

  lemma DocumentGapIff(t: DocType, document: Written, gap: Gap)
    ensures gap in DocumentGaps(t, document) <==> gap.document == t && IsDocumentGap(document, gap)
  {
    GapIfLists(UnsupportedRow, t, Unsupported(document.artifacts), gap);
    GapIfLists(DanglingReference, t, Once(Dangling(document.artifacts)), gap);
    GapIfLists(StaleTrace, t, [TypeName(t)], gap);
  }

  lemma {:induction false} AnyDocumentGapIff(documents: Documents, order: seq<DocType>, gap: Gap)
    ensures gap in AllDocumentGaps(documents, order) <==>
      gap.document in order && gap.document in documents && IsDocumentGap(documents[gap.document], gap)
    decreases |order|
  {
    if order != [] {
      var init, last := order[..|order| - 1], order[|order| - 1];
      AnyDocumentGapIff(documents, init, gap);
      assert order == init + [last];
      if last in documents { DocumentGapIff(last, documents[last], gap); }
    }
  }

  /** The view reports exactly these gaps, each under its kind and document and with the
      subjects it should name. */
  lemma ReportedIff(documents: Documents, requirements: seq<Requirement>, order: seq<DocType>, gap: Gap)
    ensures gap in ScopeGaps(documents, requirements) + AllDocumentGaps(documents, order)
       <==> IsGap(documents, requirements, order, gap)
  {
    GapIfLists(RequirementUnmapped, FeatureListing, MissingKeys(documents, requirements, FeatureListing, false), gap);
    GapIfLists(FeatureWithoutCriterion, AcceptanceCriteria,
               MissingKeys(documents, requirements, AcceptanceCriteria, true), gap);
    GapIfLists(ScopeWithoutWork, WorkBreakdown, MissingKeys(documents, requirements, WorkBreakdown, false), gap);
    AnyDocumentGapIff(documents, order, gap);
  }

  /** Positions in ascending order. */
  ghost predicate Ascending(at: seq<nat>) {
    forall i, j :: 0 <= i < j < |at| ==> at[i] < at[j]
  }

  ghost predicate ShouldList(documents: Documents, r: Requirement, t: DocType, onlyFunctional: bool) {
    IsMissing(documents, r, t) && (r.functional || !onlyFunctional)
  }

  /** The keys missing from a document are those of the requirements missing from it, each
      once and in the order of the requirements; of functional ones only, where asked. */
  lemma {:induction false} MissingKeysAre(documents: Documents, requirements: seq<Requirement>, t: DocType,
                                          onlyFunctional: bool, from: nat) returns (at: seq<nat>)
    requires from <= |requirements|
    ensures var keys := MissingKeys(documents, requirements[from..], t, onlyFunctional);
      && |at| == |keys| && Ascending(at)
      && (forall k :: 0 <= k < |at| ==> from <= at[k] < |requirements| && keys[k] == requirements[at[k]].key)
    ensures forall i :: from <= i < |requirements| ==>
              (i in at <==> ShouldList(documents, requirements[i], t, onlyFunctional))
    decreases |requirements| - from
  {
    at := [];
    if from < |requirements| {
      var later := MissingKeysAre(documents, requirements, t, onlyFunctional, from + 1);
      assert requirements[from..][1..] == requirements[from + 1..];
      at := if ShouldList(documents, requirements[from], t, onlyFunctional) then [from] + later else later;
    }
  }

  ghost predicate CitesNothing(artifact: Artifact) {
    !artifact.deliveryOnly && artifact.requirementKeys == [] && artifact.danglingKeys == []
  }

  /** The entries named for citing nothing are those that do, in order, but delivery work. */
  lemma {:induction false} UnsupportedAre(artifacts: seq<Artifact>, from: nat) returns (at: seq<nat>)
    requires from <= |artifacts|
    ensures var keys := Unsupported(artifacts[from..]);
      && |at| == |keys| && Ascending(at)
      && (forall k :: 0 <= k < |at| ==> from <= at[k] < |artifacts| && keys[k] == artifacts[at[k]].key)
    ensures forall i :: from <= i < |artifacts| ==> (i in at <==> CitesNothing(artifacts[i]))
    decreases |artifacts| - from
  {
    at := [];
    if from < |artifacts| {
      var later := UnsupportedAre(artifacts, from + 1);
      assert artifacts[from..][1..] == artifacts[from + 1..];
      at := if CitesNothing(artifacts[from]) then [from] + later else later;
    }
  }

  lemma {:induction false} OnceHas(keys: seq<string>, key: string)
    ensures multiset(Once(keys))[key] == if key in keys then 1 else 0
  {
    if keys != [] {
      var init, last := keys[..|keys| - 1], keys[|keys| - 1];
      OnceHas(init, key);
      OnceHas(init, last);
      assert keys == init + [last];
    }
  }

  ghost predicate Dangles(artifacts: seq<Artifact>, key: string) {
    exists i :: 0 <= i < |artifacts| && key in artifacts[i].danglingKeys
  }

  lemma DanglesOfMore(init: seq<Artifact>, last: Artifact, key: string)
    ensures Dangles(init + [last], key) <==> Dangles(init, key) || key in last.danglingKeys
  {
    var artifacts := init + [last];
    if Dangles(init, key) {
      var i :| 0 <= i < |init| && key in init[i].danglingKeys;
      assert artifacts[i] == init[i];
    } else if key in last.danglingKeys {
      assert artifacts[|init|] == last;
    }
  }

  lemma {:induction false} DanglingHas(artifacts: seq<Artifact>, key: string)
    ensures key in Dangling(artifacts) <==> Dangles(artifacts, key)
  {
    if artifacts != [] {
      var init, last := artifacts[..|artifacts| - 1], artifacts[|artifacts| - 1];
      DanglingHas(init, key);
      DanglesOfMore(init, last, key);
      assert artifacts == init + [last];
    }
  }

  /** A key the baseline does not have is named once, exactly if some entry cites it. */
  lemma DanglingAre(artifacts: seq<Artifact>, key: string)
    ensures multiset(Once(Dangling(artifacts)))[key]
         == if exists i :: 0 <= i < |artifacts| && key in artifacts[i].danglingKeys then 1 else 0
  {
    OnceHas(Dangling(artifacts), key);
    DanglingHas(artifacts, key);
  }
}
