/** All seven documents of one project, and runs of calls against them. */
module DocumentProject {
  import opened Wrappers
  import opened DocumentTypes
  import opened DocumentContent
  import opened DocumentEngine

  type Project = map<DocType, Doc>

  predicate Available(kind: UpstreamKind, authority: Authority) {
    match kind
    case Baseline => authority.current.baseline.Some?
    case Stack => authority.current.stack.Some?
    case Estimate => authority.current.estimate.Some?
  }

  /** Signed and current: what a document downstream may be built on. */
  predicate IsAuthoritative(p: Project, t: DocType, authority: Authority) {
    t in p && IsSigned(p[t].record.status) && !IsOutdated(t, p[t].record, authority)
  }

  predicate IsUnlocked(p: Project, t: DocType, authority: Authority) {
    && (forall kind :: kind in UpstreamOf(t) ==> Available(kind, authority))
    && (forall q :: q in Prerequisites(t) ==> IsAuthoritative(p, q, authority))
  }

  /** No prerequisite that exists has lost its authority. */
  predicate PrerequisitesSigned(p: Project, t: DocType, authority: Authority) {
    forall q :: q in Prerequisites(t) && q in p ==> IsAuthoritative(p, q, authority)
  }

  function GateFor(p: Project, t: DocType, authority: Authority): Gate {
    Gate(IsUnlocked(p, t, authority), PrerequisitesSigned(p, t, authority))
  }

  function Without(reasons: seq<DocType>, source: DocType): seq<DocType> {
    if reasons == [] then []
    else (if reasons[0] == source then [] else [reasons[0]]) + Without(reasons[1..], source)
  }

  /** Record on a document that `source` changed after it was written. Nothing else moves. */
  function Mark(doc: Doc, source: DocType): Doc {
    doc.(record := doc.record.(outdatedBy := Without(doc.record.outdatedBy, source) + [source],
                               recordVersion := doc.record.recordVersion + 1))
  }

  function MarkDependents(p: Project, source: DocType): Project {
    map t | t in p :: if IsDownstream(source, t) && p[t].record.status != NotStarted then Mark(p[t], source) else p[t]
  }

  datatype Call = Call(t: DocType, op: Op, env: Env)

  ghost function Outcome(p: Project, call: Call): Result<Doc, Error> {
    var gate := GateFor(p, call.t, call.env.authority);
    if call.t in p then Apply(p[call.t], call.t, call.op, call.env, gate)
    else if call.op.GenerateOp? then GenerateFirst(call.t, call.op.composed, call.env, gate)
    else Refused(NotFound)
  }

  /** What a call's outcome does to the project. A refused call changes nothing. */
  ghost function Effect(p: Project, t: DocType, outcome: Result<Doc, Error>, tells: bool): Project {
    match outcome
    case Refused(_) => p
    case Ok(doc) => if tells then MarkDependents(p[t := doc], t) else p[t := doc]
  }

  /** One call. */
  ghost function Step(p: Project, call: Call): Project {
    Effect(p, call.t, Outcome(p, call), call.t in p && TellsDownstream(p[call.t].record.status, call.op))
  }

  ghost function Run(p: Project, calls: seq<Call>): Project
    decreases |calls|
  {
    if calls == [] then p else Run(Step(p, calls[0]), calls[1..])
  }

  lemma {:induction false} RunInTwo(p: Project, first: seq<Call>, rest: seq<Call>)
    ensures Run(p, first + rest) == Run(Run(p, first), rest)
    decreases |first|
  {
    if first == [] {
      assert first + rest == rest;
    } else {
      assert (first + rest)[1..] == first[1..] + rest;
      RunInTwo(Step(p, first[0]), first[1..], rest);
    }
  }

  lemma RunOneMore(p: Project, calls: seq<Call>, call: Call)
    ensures Run(p, calls + [call]) == Step(Run(p, calls), call)
  {
    RunInTwo(p, calls, [call]);
    assert [call][1..] == [];
    assert Run(Step(Run(p, calls), call), []) == Step(Run(p, calls), call);
  }

  lemma RunTwoMore(p: Project, calls: seq<Call>, a: Call, b: Call)
    ensures Run(p, calls + [a, b]) == Step(Step(Run(p, calls), a), b)
  {
    RunOneMore(p, calls, a);
    RunOneMore(p, calls + [a], b);
    assert calls + [a, b] == calls + [a] + [b];
  }

  /** `later` is `earlier`, except perhaps for reasons recorded on it from outside. */
  ghost predicate OnlyMarked(earlier: Doc, later: Doc) {
    exists reasons: seq<DocType>, n: nat ::
      later == earlier.(record := earlier.record.(outdatedBy := reasons, recordVersion := n))
  }

  /** A call touches one document; on any other it can at most leave a reason. */
  lemma StepTouchesOne(p: Project, call: Call, t: DocType)
    requires t in p && t != call.t
    ensures t in Step(p, call) && OnlyMarked(p[t], Step(p, call)[t])
  {
    var doc := p[t];
    var later := Step(p, call)[t];
    assert later == doc.(record :=
           doc.record.(outdatedBy := later.record.outdatedBy, recordVersion := later.record.recordVersion));
  }

  lemma OwnStep(p: Project, call: Call)
    ensures match Outcome(p, call)
            case Ok(doc) => call.t in Step(p, call) && Step(p, call)[call.t] == doc
            case Refused(_) => Step(p, call) == p
  {
    if IsDownstream(call.t, call.t) {
      DownstreamComesLater(call.t, call.t);
    }
  }
}
